/** The decision logic of the HTTP adapter (internal/plugin/http/plugin.go):
    the defaults and validation of `setConfig`, and the `Produce` sequence
    of overlay, header merge, verb dispatch and status policy.

    The resty client is reduced to the one setting the model follows (its
    request timeout); sending a request is an abstract function from the
    request to a status and body, or a transport error. TLS key-pair loading
    is an abstract function returning an optional error. */
module HttpPlugin {
  import opened Common
  import opened ConfigTree
  import opened Overlay
  import opened HttpConfig

  /** The verbs of http/config.go's `POST` and `PUT` constants. */
  const Post: string := "POST"
  const Put: string := "PUT"

  /** `time.Second * 10`, in nanoseconds. */
  const DefaultTimeout: i64 := 10_000_000_000
  const DefaultStatus: i64 := 200

  const CertWithoutKey: string := "CertFile is set but KeyFile is not"
  const KeyWithoutCert: string := "KeyFile is set but CertFile is not"

  /** The part of the resty client the model keeps. */
  datatype Client = Client(timeout: i64)

  /** `resty.New()`: no timeout. */
  const NewClient: Client := Client(0)

  datatype Plugin = Plugin(configuration: Config, client: Client)

  datatype Request = Request(verb: string, url: string, headers: map<string, string>, body: seq<byte>, timeout: i64)
  datatype Reply = Reply(status: i64, body: string)

  /** `jrpc.ProduceResponse`. */
  datatype Response = Response(bytes: nat, message: string)

  /** What the adapter depends on but does not define. */
  datatype Env = Env(
    parsers: Parsers,                              // strconv / time parsers used by the overlay and setConfig
    decode: seq<byte> -> Result<Config>,           // json.Unmarshal into Config
    loadKeyPair: (string, string) -> Option<string>, // tls.LoadX509KeyPair's error
    send: Request -> Result<Reply>)                // the HTTP round trip

  /** The plugin after `setConfig`, and the error it returned. The plugin
      keeps whatever was stored before the error: there is no rollback. */
  datatype Configured = Configured(plugin: Plugin, err: Option<string>)

  /** The plugin after `Produce`, the call's result, and the request that
      was sent, if any. */
  datatype Produced = Produced(plugin: Plugin, result: Result<Response>, request: Option<Request>)

  /** The configuration `c` with the three settings `setConfig` may rewrite
      replaced by the given values: everything else is copied unchanged. */
  function WithDerived(c: Config, verb: string, timeoutValue: i64, expected: i64): Config {
    c.(endpoint := c.endpoint.(verb := verb, timeoutValue := timeoutValue),
       errorHandling := c.errorHandling.(expectStatusCode := expected))
  }

  /** Whether the timeout text is usable: empty, or a valid duration. */
  predicate TimeoutParses(c: Config, env: Env) {
    c.endpoint.timeout == "" || env.parsers.parseDuration(c.endpoint.timeout).Ok?
  }

  /** The timeout a parsable timeout text denotes. */
  function TimeoutOf(c: Config, env: Env): i64
    requires TimeoutParses(c, env)
  {
    if c.endpoint.timeout == "" then DefaultTimeout else env.parsers.parseDuration(c.endpoint.timeout).value
  }

  /** The TLS checks of `setConfig`: the pairing rule, then key-pair loading. */
  function TlsError(t: Tls, env: Env): (r: Option<string>)
    ensures t.certFile != "" && t.keyFile == "" ==> r == Some(CertWithoutKey)
    ensures t.certFile == "" && t.keyFile != "" ==> r == Some(KeyWithoutCert)
    ensures t.certFile == "" && t.keyFile == "" ==> r.None?
    ensures t.certFile != "" && t.keyFile != "" ==> r == env.loadKeyPair(t.certFile, t.keyFile)
  {
    if t.certFile != "" && t.keyFile == "" then Some(CertWithoutKey)
    else if t.certFile == "" && t.keyFile != "" then Some(KeyWithoutCert)
    else if t.certFile != "" then env.loadKeyPair(t.certFile, t.keyFile)
    else None
  }

  /** `setConfig`: stores `c`, derives the timeout, defaults the expected
      status and the method, and validates the TLS files. */
  function SetConfig(p: Plugin, c: Config, env: Env): (r: Configured)
    // A timeout that does not parse is returned at once: the stored timeout
    // is ParseDuration's zero, nothing else is defaulted, the client keeps
    // its timeout.
    ensures !TimeoutParses(c, env) ==>
      r == Configured(Plugin(WithDerived(c, c.endpoint.verb, 0, c.errorHandling.expectStatusCode), p.client),
                      Some(env.parsers.parseDuration(c.endpoint.timeout).msg))
    // Otherwise the stored and the client's timeout are 10 s for an empty
    // text and the parsed duration else; an expected status of 0 becomes 200.
    ensures TimeoutParses(c, env) ==>
      && r.plugin.client == Client(TimeoutOf(c, env))
      && r.plugin.configuration.endpoint.timeoutValue == TimeoutOf(c, env)
      && r.plugin.configuration.errorHandling.expectStatusCode
           == (if c.errorHandling.expectStatusCode == 0 then DefaultStatus else c.errorHandling.expectStatusCode)
      && r.err == TlsError(c.tls, env)
    // The call succeeds exactly when the timeout parses and the TLS checks pass.
    ensures r.err.None? <==> TimeoutParses(c, env) && TlsError(c.tls, env).None?
    // An empty method becomes POST, but only on success.
    ensures r.plugin.configuration.endpoint.verb
              == (if r.err.None? && c.endpoint.verb == "" then Post else c.endpoint.verb)
    // Nothing but the three derived settings differs from `c`.
    ensures r.plugin.configuration == WithDerived(c, r.plugin.configuration.endpoint.verb,
              r.plugin.configuration.endpoint.timeoutValue, r.plugin.configuration.errorHandling.expectStatusCode)
  {
    if !TimeoutParses(c, env) then
      Configured(Plugin(WithDerived(c, c.endpoint.verb, 0, c.errorHandling.expectStatusCode), p.client),
                 Some(env.parsers.parseDuration(c.endpoint.timeout).msg))
    else
      var timeout := TimeoutOf(c, env);
      var expected := if c.errorHandling.expectStatusCode == 0 then DefaultStatus else c.errorHandling.expectStatusCode;
      var err := TlsError(c.tls, env);
      var verb := if err.None? && c.endpoint.verb == "" then Post else c.endpoint.verb;
      Configured(Plugin(WithDerived(c, verb, timeout, expected), Client(timeout)), err)
  }

  /** A configuration as a successful `setConfig` leaves it. */
  predicate Settled(c: Config, env: Env) {
    && TimeoutParses(c, env)
    && c.endpoint.timeoutValue == TimeoutOf(c, env)
    && c.endpoint.verb != ""
    && c.errorHandling.expectStatusCode != 0
    && TlsError(c.tls, env).None?
  }

  /** A successful `setConfig` leaves a settled configuration, and setting a
      settled configuration again changes nothing: the defaults are idempotent. */
  lemma SetConfigIdempotent(p: Plugin, c: Config, env: Env)
    requires SetConfig(p, c, env).err.None?
    ensures Settled(SetConfig(p, c, env).plugin.configuration, env)
    ensures var q := SetConfig(p, c, env).plugin;
            SetConfig(q, q.configuration, env) == Configured(q, None)
  {
    var q := SetConfig(p, c, env).plugin;
    var d := q.configuration;
    assert d.endpoint.timeout == c.endpoint.timeout && d.tls == c.tls;
    assert SetConfig(q, d, env).plugin.configuration == d;
  }

  /** `Init` / `InitializeFromConfig`: decode the payload, give the plugin a
      fresh client, then `setConfig`. A decode error leaves the plugin as it was. */
  function Init(p: Plugin, cfgBytes: seq<byte>, env: Env): (r: Configured)
    ensures env.decode(cfgBytes).Err? ==> r == Configured(p, Some(env.decode(cfgBytes).msg))
    ensures env.decode(cfgBytes).Ok? ==>
      r == SetConfig(Plugin(p.configuration, NewClient), env.decode(cfgBytes).value, env)
    // A decoded configuration is stored even when `setConfig` then fails:
    // only the three derived settings differ from it, and the old client is
    // gone, replaced by a fresh one whose timeout is set only when it parses.
    ensures env.decode(cfgBytes).Ok? ==>
      var c := env.decode(cfgBytes).value;
      && r.plugin.configuration == WithDerived(c, r.plugin.configuration.endpoint.verb,
           r.plugin.configuration.endpoint.timeoutValue, r.plugin.configuration.errorHandling.expectStatusCode)
      && r.plugin.client == (if TimeoutParses(c, env) then Client(TimeoutOf(c, env)) else NewClient)
      && (r.err.None? <==> TimeoutParses(c, env) && TlsError(c.tls, env).None?)
  {
    match env.decode(cfgBytes)
    case Err(e) => Configured(p, Some(e))
    case Ok(c) => SetConfig(Plugin(p.configuration, NewClient), c, env)
  }

  /** Initialising with an empty method and a valid configuration selects POST. */
  lemma InitDefaultsToPost(p: Plugin, cfgBytes: seq<byte>, env: Env)
    requires env.decode(cfgBytes).Ok? && env.decode(cfgBytes).value.endpoint.verb == ""
    requires Init(p, cfgBytes, env).err.None?
    ensures Init(p, cfgBytes, env).plugin.configuration.endpoint.verb == Post
  {
  }

  /** The request headers: the base headers, overridden by the call's
      headers on a shared key; no other key appears. */
  function MergeHeaders(base: map<string, string>, call: map<string, string>): (r: map<string, string>)
    ensures r.Keys == base.Keys + call.Keys
    ensures forall k :: k in call ==> r[k] == call[k]
    ensures forall k :: k in base && k !in call ==> r[k] == base[k]
  {
    base + call
  }

  /** The verb actually issued: PUT for "PUT", POST for "POST" and for
      anything else. */
  function Dispatch(verb: string): (r: string)
    ensures r == Put <==> verb == Put
    ensures r == Post <==> verb != Put
  {
    if verb == Put then Put else Post
  }

  function UnexpectedStatus(status: i64): string {
    "Unexpected status code: " + IntToString(status)
  }

  /** The status policy: a reply is accepted when its status is the expected
      one or statuses are ignored; an accepted reply reports the value's
      length and the reply body. */
  function CheckStatus(reply: Reply, h: ErrorHandling, v: seq<byte>): (r: Result<Response>)
    ensures r.Ok? <==> reply.status == h.expectStatusCode || h.ignoreStatusCode
    ensures r.Ok? ==> r.value == Response(|v|, reply.body)
    ensures r.Err? ==> r.msg == UnexpectedStatus(reply.status)
  {
    if reply.status != h.expectStatusCode && !h.ignoreStatusCode then Err(UnexpectedStatus(reply.status))
    else Ok(Response(|v|, reply.body))
  }

  /** The request the plugin `q` sends for value `v` with headers `hds`. */
  function RequestFor(q: Plugin, hds: map<string, string>, v: seq<byte>): Request {
    Request(Dispatch(q.configuration.endpoint.verb), q.configuration.endpoint.url, hds, v, q.client.timeout)
  }

  /** Sends `req` with the plugin `q` and applies the status policy. */
  function Send(q: Plugin, req: Request, v: seq<byte>, env: Env): (r: Produced)
    ensures r.plugin == q && r.request == Some(req)
    // The call succeeds exactly when the round trip does and its status is accepted ...
    ensures r.result.Ok? <==>
      && env.send(req).Ok?
      && (env.send(req).value.status == q.configuration.errorHandling.expectStatusCode
          || q.configuration.errorHandling.ignoreStatusCode)
    // ... and then reports the value's length and the reply body;
    ensures r.result.Ok? ==> r.result.value == Response(|v|, env.send(req).value.body)
    // a transport error is passed through as it is, a rejected status is named.
    ensures env.send(req).Err? ==> r.result == Err(env.send(req).msg)
    ensures env.send(req).Ok? && r.result.Err? ==> r.result.msg == UnexpectedStatus(env.send(req).value.status)
  {
    match env.send(req)
    case Err(e) => Produced(q, Err(e), Some(req))
    case Ok(reply) => Produced(q, CheckStatus(reply, q.configuration.errorHandling, v), Some(req))
  }

  /** `Produce`, as written: the overrides are overlaid on a copy of the
      stored configuration; the overlaid copy then goes through `setConfig`
      on the plugin itself, whose error is dropped, so it becomes the stored
      configuration for every later call. The request headers are merged
      from the configuration stored before the call. Go's map order for
      `params` is `order`. */
  function Produce(p: Plugin, v: seq<byte>, headers: map<string, string>,
                   params: map<string, string>, order: seq<string>, env: Env): (r: Produced)
    requires IsEnumeration(order, params)
    // An overlay error is returned before any request; the plugin is untouched.
    ensures UnmarshalConfig(ToNode(p.configuration), params, order, env.parsers).err.Some? ==>
      r == Produced(p, Err(UnmarshalConfig(ToNode(p.configuration), params, order, env.parsers).err.value), None)
    // Otherwise a request is sent, whatever `setConfig` said ...
    ensures UnmarshalConfig(ToNode(p.configuration), params, order, env.parsers).err.None? ==>
      && r.request.Some?
      && r.plugin == SetConfig(p, FromNode(UnmarshalConfig(ToNode(p.configuration), params, order, env.parsers).config), env).plugin
      && r.request.value.headers == MergeHeaders(p.configuration.headers, headers)
      && r.request.value.body == v
      && r.request.value.verb == Dispatch(r.plugin.configuration.endpoint.verb)
      && r.request.value.url == r.plugin.configuration.endpoint.url
      && r.request.value.timeout == r.plugin.client.timeout
      // ... and its outcome is judged with the status policy now stored.
      && (env.send(r.request.value).Err? ==> r.result == Err(env.send(r.request.value).msg))
      && (env.send(r.request.value).Ok? ==>
            r.result == CheckStatus(env.send(r.request.value).value, r.plugin.configuration.errorHandling, v))
    // ... and a successful call reports the value's length and the body.
    ensures r.result.Ok? ==>
      r.request.Some? && env.send(r.request.value).Ok?
      && r.result.value == Response(|v|, env.send(r.request.value).value.body)
  {
    var applied := UnmarshalConfig(ToNode(p.configuration), params, order, env.parsers);
    if applied.err.Some? then Produced(p, Err(applied.err.value), None)
    else
      var hds := MergeHeaders(p.configuration.headers, headers);
      var q := SetConfig(p, FromNode(applied.config), env).plugin;
      Send(q, RequestFor(q, hds, v), v, env)
  }

  /** With no overrides, `Produce` sends with the stored configuration:
      the stored verb (once it is non-empty) and URL, and stores the
      configuration back unchanged apart from `setConfig`'s derivations. */
  lemma ProduceWithoutOverrides(p: Plugin, v: seq<byte>, headers: map<string, string>, env: Env)
    requires p.configuration.endpoint.verb != ""
    ensures var r := Produce(p, v, headers, map[], [], env);
      && r.request.Some?
      && r.request.value.verb == Dispatch(p.configuration.endpoint.verb)
      && r.request.value.url == p.configuration.endpoint.url
      && r.plugin == SetConfig(p, p.configuration, env).plugin
  {
    FromToNode(p.configuration);
  }

  /** Settled plugins are left as they are by a call without overrides. */
  lemma ProduceWithoutOverridesKeepsSettled(p: Plugin, v: seq<byte>, headers: map<string, string>, env: Env)
    requires Settled(p.configuration, env) && p.client == Client(p.configuration.endpoint.timeoutValue)
    ensures Produce(p, v, headers, map[], [], env).plugin == p
  {
    FromToNode(p.configuration);
    assert SetConfig(p, p.configuration, env).plugin.configuration == p.configuration;
  }

  /** ---------- Overriding one string field of the configuration ---------- */

  /** The key `a.b` resolves to field `j` of section `i` when both names match
      uniquely and both fields are exported, and then the overlay of a string
      field stores the value verbatim. */
  lemma SetSectionString(root: Node, a: string, b: string, i: nat, j: nat, value: string, lib: Parsers)
    requires '.' !in a && '.' !in b
    requires StringFieldAt(root, a, b, i, j)
    ensures SetField(root, a + "." + b, value, lib) ==
            Applied(UpdateAt(root, [Select(i), Select(j)], StrLeaf(value)), None)
  {
    var key := a + "." + b;
    SplitJoin([a, b]);
    assert Join([a, b]) == key by {
      assert Join([a, b][1..]) == b;
    }
    NodeAtSnoc(root, [], Select(i));
    assert [] + [Select(i)] == [Select(i)];
    var c1 := Descend(root, Start(), a);
    assert c1 == At([Select(i)], false, false);
    NodeAtSnoc(root, [Select(i)], Select(j));
    var c2 := Descend(root, c1, b);
    assert c2 == At([Select(i), Select(j)], false, false);
    assert Split(key) == [a, b];
    assert [a, b][1..] == [b] && [b][1..] == [];
    assert Walk(root, c1, [b]) == Walk(root, c2, []) == c2;
    assert Walk(root, Start(), [a, b]) == Walk(root, c1, [b]);
    assert Resolve(root, key) == c2;
    var v := root.fields[i].node.fields[j].node;
    assert NodeAt(root, c2.loc) == Some(v) by {
      assert [Select(i), Select(j)][1..] == [Select(j)];
      assert [Select(j)][1..] == [];
    }
    assert Coerce(v, key, value, lib) == Applied(StrLeaf(value), None);
  }

  /** Section `a` is field `i` of the root and its field `b` is its `j`-th,
      a string leaf; both are found by name and both can be set. */
  predicate StringFieldAt(root: Node, a: string, b: string, i: nat, j: nat) {
    && root.Record? && FindField(root.fields, a) == Some(i)
    && root.fields[i].exported && !root.fields[i].embedded
    && root.fields[i].node.Record? && FindField(root.fields[i].node.fields, b) == Some(j)
    && root.fields[i].node.fields[j].exported && !root.fields[i].node.fields[j].embedded
    && root.fields[i].node.fields[j].node.Leaf? && root.fields[i].node.fields[j].node.kind == StringKind
  }

  /** A name matched by exactly one field, every other field's name having
      a different length, is found at that field. */
  lemma FindByLength(fields: seq<Field>, k: string, i: nat)
    requires i < |fields| && EqualFold(fields[i].name, k)
    requires forall j :: 0 <= j < |fields| && j != i ==> |fields[j].name| != |k|
    ensures FindField(fields, k) == Some(i)
  {
  }

  /** The tree after overriding `endpoint.method`. */
  lemma OverrideMethod(c: Config, value: string, lib: Parsers)
    ensures SetField(ToNode(c), "endpoint.method", value, lib) ==
            Applied(ToNode(c.(endpoint := c.endpoint.(verb := value))), None)
  {
    assert "endpoint.method" == "endpoint" + "." + "method";
    MethodLocated(c);
    SetSectionString(ToNode(c), "endpoint", "method", 0, 1, value, lib);
    MethodUpdate(c, value);
  }

  lemma MethodLocated(c: Config)
    ensures StringFieldAt(ToNode(c), "endpoint", "method", 0, 1)
  {
    var root := ToNode(c);
    FindByLength(root.fields, "endpoint", 0);
    FindByLength(root.fields[0].node.fields, "method", 1);
  }

  lemma MethodUpdate(c: Config, value: string)
    ensures UpdateAt(ToNode(c), [Select(0), Select(1)], StrLeaf(value))
            == ToNode(c.(endpoint := c.endpoint.(verb := value)))
  {
    var root := ToNode(c);
    var u := UpdateAt(root, [Select(0), Select(1)], StrLeaf(value));
    assert [Select(0), Select(1)][1..] == [Select(1)];
    assert [Select(1)][1..] == [];
    assert u.fields[0].node == EndpointNode(c.endpoint.(verb := value)) by {
      assert u.fields[0].node.fields == EndpointNode(c.endpoint.(verb := value)).fields;
    }
    assert u.fields == ToNode(c.(endpoint := c.endpoint.(verb := value))).fields;
  }

  /** The tree after overriding `tls.certfile`. */
  lemma OverrideCertFile(c: Config, value: string, lib: Parsers)
    ensures SetField(ToNode(c), "tls.certfile", value, lib) ==
            Applied(ToNode(c.(tls := c.tls.(certFile := value))), None)
  {
    assert "tls.certfile" == "tls" + "." + "certfile";
    CertFileLocated(c);
    SetSectionString(ToNode(c), "tls", "certfile", 2, 0, value, lib);
    CertFileUpdate(c, value);
  }

  lemma CertFileLocated(c: Config)
    ensures StringFieldAt(ToNode(c), "tls", "certfile", 2, 0)
  {
    var root := ToNode(c);
    FindByLength(root.fields, "tls", 2);
    FindByLength(root.fields[2].node.fields, "certfile", 0);
  }

  lemma CertFileUpdate(c: Config, value: string)
    ensures UpdateAt(ToNode(c), [Select(2), Select(0)], StrLeaf(value))
            == ToNode(c.(tls := c.tls.(certFile := value)))
  {
    var root := ToNode(c);
    var u := UpdateAt(root, [Select(2), Select(0)], StrLeaf(value));
    assert [Select(2), Select(0)][1..] == [Select(0)];
    assert [Select(0)][1..] == [];
    assert u.fields[2].node == TlsNode(c.tls.(certFile := value)) by {
      assert u.fields[2].node.fields == TlsNode(c.tls.(certFile := value)).fields;
    }
    assert u.fields == ToNode(c.(tls := c.tls.(certFile := value))).fields;
  }

  /** A one-pair overlay is `SetField` of that pair. */
  lemma SinglePair(root: Node, key: string, value: string, lib: Parsers)
    ensures IsEnumeration([key], map[key := value])
    ensures UnmarshalConfig(root, map[key := value], [key], lib) == SetField(root, key, value, lib)
  {
    var data := map[key := value];
    var a := SetField(root, key, value, lib);
    assert [key][1..] == [];
    assert data[key] == value;
    assert ApplyPairs(root, data, [key], lib) == (if a.err.Some? then a else ApplyPairs(a.config, data, [], lib));
  }

  /** ---------- As written: overrides leak into later calls ---------- */

  /** A call overriding `endpoint.method` to PUT sends a PUT, and so does the
      NEXT call, which has no overrides at all: line 176 stored the override. */
  lemma OverrideLeaksIntoNextCall(p: Plugin, v: seq<byte>, headers: map<string, string>, env: Env)
    ensures var first := Produce(p, v, headers, map["endpoint.method" := Put], ["endpoint.method"], env);
      && first.request.Some? && first.request.value.verb == Put
      && first.plugin.configuration.endpoint.verb == Put
      && var second := Produce(first.plugin, v, headers, map[], [], env);
         second.request.Some? && second.request.value.verb == Put
  {
    PutOverride(p, v, headers, env);
    var first := Produce(p, v, headers, map["endpoint.method" := Put], ["endpoint.method"], env);
    ProduceWithoutOverrides(first.plugin, v, headers, env);
  }

  /** The overlaid copy of a PUT override, stored by `setConfig`. */
  lemma PutOverride(p: Plugin, v: seq<byte>, headers: map<string, string>, env: Env)
    ensures var first := Produce(p, v, headers, map["endpoint.method" := Put], ["endpoint.method"], env);
      && first.request.Some? && first.request.value.verb == Put
      && first.plugin.configuration.endpoint.verb == Put
  {
    var c := p.configuration;
    SinglePair(ToNode(c), "endpoint.method", Put, env.parsers);
    OverrideMethod(c, Put, env.parsers);
    FromToNode(c.(endpoint := c.endpoint.(verb := Put)));
  }

  /** A call overriding only `tls.certfile`, on a plugin with no TLS files,
      fails `setConfig`'s pairing rule, yet the request is still sent and the
      unpaired file is stored for later calls. */
  lemma ValidationErrorIgnored(p: Plugin, v: seq<byte>, headers: map<string, string>, env: Env)
    requires p.configuration.tls.certFile == "" && p.configuration.tls.keyFile == ""
    requires p.configuration.endpoint.timeout == ""
    ensures var c := p.configuration.(tls := p.configuration.tls.(certFile := "cert.pem"));
      && SetConfig(p, c, env).err == Some(CertWithoutKey)
      && var r := Produce(p, v, headers, map["tls.certfile" := "cert.pem"], ["tls.certfile"], env);
         r.request.Some? && r.plugin.configuration.tls.certFile == "cert.pem"
  {
    var c := p.configuration;
    SinglePair(ToNode(c), "tls.certfile", "cert.pem", env.parsers);
    OverrideCertFile(c, "cert.pem", env.parsers);
    FromToNode(c.(tls := c.tls.(certFile := "cert.pem")));
  }

  /** ---------- Corrected: overrides apply to one call only ---------- */

  /** `Produce` with the overrides confined to the call: the overlaid copy is
      validated by `setConfig` on a scratch copy of the plugin, a validation
      error is returned before any request, and the stored plugin is never
      changed. */
  function ProducePerCall(p: Plugin, v: seq<byte>, headers: map<string, string>,
                          params: map<string, string>, order: seq<string>, env: Env): (r: Produced)
    requires IsEnumeration(order, params)
    // The stored plugin never changes.
    ensures r.plugin == p
    // A request is sent exactly when the overlay and `setConfig` both succeed ...
    ensures var applied := UnmarshalConfig(ToNode(p.configuration), params, order, env.parsers);
      r.request.Some? <==> applied.err.None? && SetConfig(p, FromNode(applied.config), env).err.None?
    // ... and then it is the request the as-written `Produce` sends.
    ensures r.request.Some? ==> r.request == Produce(p, v, headers, params, order, env).request
    ensures r.request.Some? ==> r.result == Produce(p, v, headers, params, order, env).result
  {
    var applied := UnmarshalConfig(ToNode(p.configuration), params, order, env.parsers);
    if applied.err.Some? then Produced(p, Err(applied.err.value), None)
    else
      var s := SetConfig(p, FromNode(applied.config), env);
      if s.err.Some? then Produced(p, Err(s.err.value), None)
      else
        var sent := Send(s.plugin, RequestFor(s.plugin, MergeHeaders(p.configuration.headers, headers), v), v, env);
        Produced(p, sent.result, sent.request)
  }

  /** With per-call overrides, a PUT override does not reach the next call:
      a plugin whose stored method is POST sends a POST request afterwards. */
  lemma OverrideStaysInCall(p: Plugin, v: seq<byte>, headers: map<string, string>, env: Env)
    requires p.configuration.endpoint.verb == Post
    requires SetConfig(p, p.configuration.(endpoint := p.configuration.endpoint.(verb := Put)), env).err.None?
    ensures var first := ProducePerCall(p, v, headers, map["endpoint.method" := Put], ["endpoint.method"], env);
      && first.request.Some? && first.request.value.verb == Put
      && var second := ProducePerCall(first.plugin, v, headers, map[], [], env);
         second.request.Some? && second.request.value.verb == Post
  {
    var c := p.configuration;
    var put := c.(endpoint := c.endpoint.(verb := Put));
    // The method plays no part in `setConfig`'s validation.
    assert TimeoutParses(put, env) == TimeoutParses(c, env) && put.tls == c.tls;
    assert SetConfig(p, c, env).err.None?;
    SinglePair(ToNode(c), "endpoint.method", Put, env.parsers);
    OverrideMethod(c, Put, env.parsers);
    FromToNode(c.(endpoint := c.endpoint.(verb := Put)));
    ProduceWithoutOverrides(p, v, headers, env);
  }

  /** With per-call overrides, the unpaired certificate file is reported and
      nothing is sent. */
  lemma ValidationErrorReported(p: Plugin, v: seq<byte>, headers: map<string, string>, env: Env)
    requires p.configuration.tls.certFile == "" && p.configuration.tls.keyFile == ""
    requires p.configuration.endpoint.timeout == ""
    ensures var r := ProducePerCall(p, v, headers, map["tls.certfile" := "cert.pem"], ["tls.certfile"], env);
      r.request.None? && r.result == Err(CertWithoutKey) && r.plugin == p
  {
    var c := p.configuration;
    SinglePair(ToNode(c), "tls.certfile", "cert.pem", env.parsers);
    OverrideCertFile(c, "cert.pem", env.parsers);
    FromToNode(c.(tls := c.tls.(certFile := "cert.pem")));
  }
}
