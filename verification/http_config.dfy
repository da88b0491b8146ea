/** The configuration record of the HTTP adapter and its view as a
    configuration tree, so that the dot-path overlay can address it
    (`endpoint.method`, `errorhandling.expectstatuscode`, ...).

    The Go struct is declared in internal/plugin/http/config.go, which is
    not part of this model: field names, nesting and kinds below are the
    ones `plugin.go` uses, with every section a plain (non-pointer) struct
    and `timeoutValue` the only unexported field. */
module HttpConfig {
  import opened Common
  import opened ConfigTree

  datatype Endpoint = Endpoint(url: string, verb: string, timeout: string, timeoutValue: i64)
  datatype ErrorHandling = ErrorHandling(expectStatusCode: i64, ignoreStatusCode: bool)
  datatype Tls = Tls(certFile: string, keyFile: string, rootCAFile: string, insecureSkipVerify: bool)
  datatype Session = Session(useCookieJar: bool)
  datatype UserPassword = UserPassword(username: string, password: string)
  datatype ApiKey = ApiKey(header: string, value: string)
  datatype Authentication = Authentication(
    authType: string, basic: UserPassword, bearerToken: string, apiKey: ApiKey, digest: UserPassword)

  datatype Config = Config(
    endpoint: Endpoint,
    errorHandling: ErrorHandling,
    tls: Tls,
    session: Session,
    authentication: Authentication,
    headers: map<string, string>)

  /** ---------- Tree view ---------- */

  function Exported(name: string, n: Node): Field { Field(name, true, false, n) }
  function StrLeaf(s: string): Node { Leaf(StringKind, Str(s)) }
  function BoolLeaf(b: bool): Node { Leaf(BoolKind, Flag(b)) }

  function UserPasswordNode(u: UserPassword): Node {
    Record([Exported("Username", StrLeaf(u.username)), Exported("Password", StrLeaf(u.password))])
  }

  function EndpointNode(e: Endpoint): Node {
    Record([
      Exported("URL", StrLeaf(e.url)),
      Exported("Method", StrLeaf(e.verb)),
      Exported("Timeout", StrLeaf(e.timeout)),
      Field("timeoutValue", false, false, Leaf(Int64Kind("time.Duration"), Num(e.timeoutValue)))])
  }

  function ErrorHandlingNode(h: ErrorHandling): Node {
    Record([
      Exported("ExpectStatusCode", Leaf(IntKind, Num(h.expectStatusCode))),
      Exported("IgnoreStatusCode", BoolLeaf(h.ignoreStatusCode))])
  }

  function TlsNode(t: Tls): Node {
    Record([
      Exported("CertFile", StrLeaf(t.certFile)),
      Exported("KeyFile", StrLeaf(t.keyFile)),
      Exported("RootCAFile", StrLeaf(t.rootCAFile)),
      Exported("InsecureSkipVerify", BoolLeaf(t.insecureSkipVerify))])
  }

  function SessionNode(s: Session): Node {
    Record([Exported("UseCookieJar", BoolLeaf(s.useCookieJar))])
  }

  function BearerNode(token: string): Node {
    Record([Exported("Token", StrLeaf(token))])
  }

  function ApiKeyNode(k: ApiKey): Node {
    Record([Exported("Header", StrLeaf(k.header)), Exported("Value", StrLeaf(k.value))])
  }

  function AuthenticationNode(a: Authentication): Node {
    Record([
      Exported("Type", StrLeaf(a.authType)),
      Exported("Basic", UserPasswordNode(a.basic)),
      Exported("Bearer", BearerNode(a.bearerToken)),
      Exported("APIKey", ApiKeyNode(a.apiKey)),
      Exported("Digest", UserPasswordNode(a.digest))])
  }

  function ToNode(c: Config): Node {
    Record([
      Exported("Endpoint", EndpointNode(c.endpoint)),
      Exported("ErrorHandling", ErrorHandlingNode(c.errorHandling)),
      Exported("TLS", TlsNode(c.tls)),
      Exported("Session", SessionNode(c.session)),
      Exported("Authentication", AuthenticationNode(c.authentication)),
      Exported("Headers", Leaf(MapKind, Entries(c.headers)))])
  }

  /** The i-th field's node, or an opaque leaf when there is none. */
  function Sub(n: Node, i: nat): Node {
    if n.Record? && i < |n.fields| then n.fields[i].node else Leaf(OtherKind(""), Opaque)
  }

  function StrOf(n: Node): string {
    if n.Leaf? && n.value.Str? then n.value.s else ""
  }

  function BoolOf(n: Node): bool {
    n.Leaf? && n.value.Flag? && n.value.b
  }

  function I64Of(n: Node): i64 {
    if n.Leaf? && n.value.Num? && -0x8000_0000_0000_0000 <= n.value.n < 0x8000_0000_0000_0000 then n.value.n else 0
  }

  function MapOf(n: Node): map<string, string> {
    if n.Leaf? && n.value.Entries? then n.value.m else map[]
  }

  function UserPasswordOf(n: Node): UserPassword {
    UserPassword(StrOf(Sub(n, 0)), StrOf(Sub(n, 1)))
  }

  function EndpointOf(n: Node): Endpoint {
    Endpoint(StrOf(Sub(n, 0)), StrOf(Sub(n, 1)), StrOf(Sub(n, 2)), I64Of(Sub(n, 3)))
  }

  function ErrorHandlingOf(n: Node): ErrorHandling {
    ErrorHandling(I64Of(Sub(n, 0)), BoolOf(Sub(n, 1)))
  }

  function TlsOf(n: Node): Tls {
    Tls(StrOf(Sub(n, 0)), StrOf(Sub(n, 1)), StrOf(Sub(n, 2)), BoolOf(Sub(n, 3)))
  }

  function ApiKeyOf(n: Node): ApiKey {
    ApiKey(StrOf(Sub(n, 0)), StrOf(Sub(n, 1)))
  }

  function AuthenticationOf(n: Node): Authentication {
    Authentication(
      StrOf(Sub(n, 0)), UserPasswordOf(Sub(n, 1)), StrOf(Sub(Sub(n, 2), 0)),
      ApiKeyOf(Sub(n, 3)), UserPasswordOf(Sub(n, 4)))
  }

  /** Reads a configuration back from a tree of the `ToNode` shape. */
  function FromNode(n: Node): Config {
    Config(
      EndpointOf(Sub(n, 0)),
      ErrorHandlingOf(Sub(n, 1)),
      TlsOf(Sub(n, 2)),
      Session(BoolOf(Sub(Sub(n, 3), 0))),
      AuthenticationOf(Sub(n, 4)),
      MapOf(Sub(n, 5)))
  }

  /** The tree view loses nothing. */
  lemma FromToNode(c: Config)
    ensures FromNode(ToNode(c)) == c
  {
  }

  /** The tree view is well-typed. */
  lemma ToNodeWellTyped(c: Config)
    ensures WellTyped(ToNode(c))
  {
    assert WellTyped(EndpointNode(c.endpoint));
    assert WellTyped(ErrorHandlingNode(c.errorHandling));
    assert WellTyped(TlsNode(c.tls));
    assert WellTyped(SessionNode(c.session));
    AuthenticationWellTyped(c.authentication);
  }

  lemma AuthenticationWellTyped(a: Authentication)
    ensures WellTyped(AuthenticationNode(a))
  {
    assert WellTyped(UserPasswordNode(a.basic));
    assert WellTyped(UserPasswordNode(a.digest));
    assert WellTyped(BearerNode(a.bearerToken));
    assert WellTyped(ApiKeyNode(a.apiKey));
  }

  /** ---------- Reading back a tree of the same shape ---------- */

  /** A record equals another whose fields carry the same names, flags and nodes. */
  lemma RecordBack(n: Node, u: Node)
    requires n.Record? && u.Record? && |u.fields| == |n.fields|
    requires forall i :: 0 <= i < |n.fields| ==>
      && u.fields[i].name == n.fields[i].name
      && u.fields[i].exported == n.fields[i].exported
      && u.fields[i].embedded == n.fields[i].embedded
      && u.fields[i].node == n.fields[i].node
    ensures u == n
  {
    assert u.fields == n.fields;
  }

  lemma LeafBack(t: Node, n: Node)
    requires t.Leaf? && SameShape(t, n) && WellTyped(n)
    ensures t.kind == StringKind ==> n == StrLeaf(StrOf(n))
    ensures t.kind == BoolKind ==> n == BoolLeaf(BoolOf(n))
    ensures t.kind.IntKind? || t.kind.Int64Kind? ==> n == Leaf(t.kind, Num(I64Of(n)))
    ensures t.kind == MapKind ==> n == Leaf(MapKind, Entries(MapOf(n)))
  {
  }

  lemma UserPasswordBack(u: UserPassword, n: Node)
    requires SameShape(UserPasswordNode(u), n) && WellTyped(n)
    ensures UserPasswordNode(UserPasswordOf(n)) == n
  {
    var t := UserPasswordNode(u);
    LeafBack(t.fields[0].node, n.fields[0].node);
    LeafBack(t.fields[1].node, n.fields[1].node);
    RecordBack(n, UserPasswordNode(UserPasswordOf(n)));
  }

  lemma EndpointBack(e: Endpoint, n: Node)
    requires SameShape(EndpointNode(e), n) && WellTyped(n)
    ensures EndpointNode(EndpointOf(n)) == n
  {
    var t := EndpointNode(e);
    LeafBack(t.fields[0].node, n.fields[0].node);
    LeafBack(t.fields[1].node, n.fields[1].node);
    LeafBack(t.fields[2].node, n.fields[2].node);
    LeafBack(t.fields[3].node, n.fields[3].node);
    RecordBack(n, EndpointNode(EndpointOf(n)));
  }

  lemma ErrorHandlingBack(h: ErrorHandling, n: Node)
    requires SameShape(ErrorHandlingNode(h), n) && WellTyped(n)
    ensures ErrorHandlingNode(ErrorHandlingOf(n)) == n
  {
    var t := ErrorHandlingNode(h);
    LeafBack(t.fields[0].node, n.fields[0].node);
    LeafBack(t.fields[1].node, n.fields[1].node);
    RecordBack(n, ErrorHandlingNode(ErrorHandlingOf(n)));
  }

  lemma TlsBack(x: Tls, n: Node)
    requires SameShape(TlsNode(x), n) && WellTyped(n)
    ensures TlsNode(TlsOf(n)) == n
  {
    var t := TlsNode(x);
    LeafBack(t.fields[0].node, n.fields[0].node);
    LeafBack(t.fields[1].node, n.fields[1].node);
    LeafBack(t.fields[2].node, n.fields[2].node);
    LeafBack(t.fields[3].node, n.fields[3].node);
    RecordBack(n, TlsNode(TlsOf(n)));
  }

  lemma SessionBack(x: Session, n: Node)
    requires SameShape(SessionNode(x), n) && WellTyped(n)
    ensures SessionNode(Session(BoolOf(Sub(n, 0)))) == n
  {
    LeafBack(SessionNode(x).fields[0].node, n.fields[0].node);
    RecordBack(n, SessionNode(Session(BoolOf(Sub(n, 0)))));
  }

  lemma BearerBack(x: string, n: Node)
    requires SameShape(BearerNode(x), n) && WellTyped(n)
    ensures BearerNode(StrOf(Sub(n, 0))) == n
  {
    LeafBack(BearerNode(x).fields[0].node, n.fields[0].node);
    RecordBack(n, BearerNode(StrOf(Sub(n, 0))));
  }

  lemma ApiKeyBack(k: ApiKey, n: Node)
    requires SameShape(ApiKeyNode(k), n) && WellTyped(n)
    ensures ApiKeyNode(ApiKeyOf(n)) == n
  {
    var t := ApiKeyNode(k);
    LeafBack(t.fields[0].node, n.fields[0].node);
    LeafBack(t.fields[1].node, n.fields[1].node);
    RecordBack(n, ApiKeyNode(ApiKeyOf(n)));
  }

  lemma AuthenticationBack(a: Authentication, n: Node)
    requires SameShape(AuthenticationNode(a), n) && WellTyped(n)
    ensures AuthenticationNode(AuthenticationOf(n)) == n
  {
    var d := AuthenticationOf(n);
    AuthenticationHead(a, n);
    AuthenticationTail(a, n);
    assert AuthenticationNode(d).fields == n.fields;
  }

  lemma AuthenticationHead(a: Authentication, n: Node)
    requires SameShape(AuthenticationNode(a), n) && WellTyped(n)
    ensures n.Record? && |n.fields| == 5
    ensures n.fields[0] == Exported("Type", StrLeaf(AuthenticationOf(n).authType))
    ensures n.fields[1] == Exported("Basic", UserPasswordNode(AuthenticationOf(n).basic))
    ensures n.fields[2] == Exported("Bearer", BearerNode(AuthenticationOf(n).bearerToken))
  {
    var t := AuthenticationNode(a);
    FieldShape(t, n, 0);
    LeafBack(t.fields[0].node, n.fields[0].node);
    FieldShape(t, n, 1);
    UserPasswordBack(a.basic, n.fields[1].node);
    FieldShape(t, n, 2);
    BearerBack(a.bearerToken, n.fields[2].node);
  }

  lemma AuthenticationTail(a: Authentication, n: Node)
    requires SameShape(AuthenticationNode(a), n) && WellTyped(n)
    ensures n.Record? && |n.fields| == 5
    ensures n.fields[3] == Exported("APIKey", ApiKeyNode(AuthenticationOf(n).apiKey))
    ensures n.fields[4] == Exported("Digest", UserPasswordNode(AuthenticationOf(n).digest))
  {
    var t := AuthenticationNode(a);
    FieldShape(t, n, 3);
    ApiKeyBack(a.apiKey, n.fields[3].node);
    FieldShape(t, n, 4);
    UserPasswordBack(a.digest, n.fields[4].node);
  }

  /** Every well-typed tree of the configuration's shape is the view of the
      configuration read back from it: what an overlay writes into the tree
      is exactly what the adapter reads out of it. */
  lemma ToFromNode(c: Config, n: Node)
    requires SameShape(ToNode(c), n) && WellTyped(n)
    ensures ToNode(FromNode(n)) == n
  {
    Sections(c, n);
    Assemble(n, FromNode(n));
  }

  lemma Sections(c: Config, n: Node)
    requires SameShape(ToNode(c), n) && WellTyped(n)
    ensures n.Record? && |n.fields| == 6
    ensures n.fields[0] == Exported("Endpoint", EndpointNode(FromNode(n).endpoint))
    ensures n.fields[1] == Exported("ErrorHandling", ErrorHandlingNode(FromNode(n).errorHandling))
    ensures n.fields[2] == Exported("TLS", TlsNode(FromNode(n).tls))
    ensures n.fields[3] == Exported("Session", SessionNode(FromNode(n).session))
    ensures n.fields[4] == Exported("Authentication", AuthenticationNode(FromNode(n).authentication))
    ensures n.fields[5] == Exported("Headers", Leaf(MapKind, Entries(FromNode(n).headers)))
  {
    EndpointField(c, n);
    ErrorHandlingField(c, n);
    TlsField(c, n);
    SessionField(c, n);
    AuthenticationField(c, n);
    HeadersField(c, n);
  }

  /** Each top-level section of a tree of the configuration's shape reads
      back as itself. */
  lemma EndpointField(c: Config, n: Node)
    requires SameShape(ToNode(c), n) && WellTyped(n)
    ensures n.Record? && |n.fields| == 6
    ensures n.fields[0].name == "Endpoint" && n.fields[0].exported && !n.fields[0].embedded
    ensures n.fields[0].node == EndpointNode(FromNode(n).endpoint)
  {
    FieldShape(ToNode(c), n, 0);
    EndpointBack(c.endpoint, n.fields[0].node);
  }

  lemma ErrorHandlingField(c: Config, n: Node)
    requires SameShape(ToNode(c), n) && WellTyped(n)
    ensures n.Record? && |n.fields| == 6
    ensures n.fields[1].name == "ErrorHandling" && n.fields[1].exported && !n.fields[1].embedded
    ensures n.fields[1].node == ErrorHandlingNode(FromNode(n).errorHandling)
  {
    FieldShape(ToNode(c), n, 1);
    ErrorHandlingBack(c.errorHandling, n.fields[1].node);
  }

  lemma TlsField(c: Config, n: Node)
    requires SameShape(ToNode(c), n) && WellTyped(n)
    ensures n.Record? && |n.fields| == 6
    ensures n.fields[2].name == "TLS" && n.fields[2].exported && !n.fields[2].embedded
    ensures n.fields[2].node == TlsNode(FromNode(n).tls)
  {
    FieldShape(ToNode(c), n, 2);
    TlsBack(c.tls, n.fields[2].node);
  }

  lemma SessionField(c: Config, n: Node)
    requires SameShape(ToNode(c), n) && WellTyped(n)
    ensures n.Record? && |n.fields| == 6
    ensures n.fields[3].name == "Session" && n.fields[3].exported && !n.fields[3].embedded
    ensures n.fields[3].node == SessionNode(FromNode(n).session)
  {
    FieldShape(ToNode(c), n, 3);
    SessionBack(c.session, n.fields[3].node);
  }

  lemma AuthenticationField(c: Config, n: Node)
    requires SameShape(ToNode(c), n) && WellTyped(n)
    ensures n.Record? && |n.fields| == 6
    ensures n.fields[4].name == "Authentication" && n.fields[4].exported && !n.fields[4].embedded
    ensures n.fields[4].node == AuthenticationNode(FromNode(n).authentication)
  {
    FieldShape(ToNode(c), n, 4);
    AuthenticationBack(c.authentication, n.fields[4].node);
  }

  lemma HeadersField(c: Config, n: Node)
    requires SameShape(ToNode(c), n) && WellTyped(n)
    ensures n.Record? && |n.fields| == 6
    ensures n.fields[5].name == "Headers" && n.fields[5].exported && !n.fields[5].embedded
    ensures n.fields[5].node == Leaf(MapKind, Entries(FromNode(n).headers))
  {
    FieldShape(ToNode(c), n, 5);
    LeafBack(ToNode(c).fields[5].node, n.fields[5].node);
  }

  lemma Assemble(n: Node, d: Config)
    requires n.Record? && |n.fields| == 6
    requires n.fields[0] == Exported("Endpoint", EndpointNode(d.endpoint))
    requires n.fields[1] == Exported("ErrorHandling", ErrorHandlingNode(d.errorHandling))
    requires n.fields[2] == Exported("TLS", TlsNode(d.tls))
    requires n.fields[3] == Exported("Session", SessionNode(d.session))
    requires n.fields[4] == Exported("Authentication", AuthenticationNode(d.authentication))
    requires n.fields[5] == Exported("Headers", Leaf(MapKind, Entries(d.headers)))
    ensures ToNode(d) == n
  {
    assert ToNode(d).fields == n.fields;
  }
}
