/** The Azure Cosmos DB adapter (internal/plugin/azcosmosdb/plugin.go):
    the ordered mandatory-field checks of `Init`, the per-call choice of
    partition key, database and container, and the partition-key lookup
    in the decoded value.

    JSON decoding, credential and client construction, and the container
    operations of the SDK are abstract functions of `Env`. */
module CosmosPlugin {
  import opened Common

  datatype CosmosConfig = CosmosConfig(
    endpoint: string,
    primaryAccountKey: string,
    partitionKey: string,
    database: string,
    container: string)

  /** An SDK key credential and an SDK client, known only by identity. */
  datatype Credential = Credential(handle: nat)
  datatype Client = Client(handle: nat)

  /** `client == nil` before a successful `Init`. */
  datatype Plugin = Plugin(configuration: CosmosConfig, client: Option<Client>)

  /** The members of a decoded JSON object, as far as the adapter looks at them. */
  datatype Json = JNull | JString(s: string) | JOther

  /** The container operations a call performs, in order. */
  datatype Op =
    | NewContainer(database: string, container: string)
    | CreateItem(database: string, container: string, partitionKey: string, item: seq<byte>)

  datatype Env = Env(
    decodeConfig: seq<byte> -> Result<CosmosConfig>,                   // json.Unmarshal into Config
    newKeyCredential: string -> Result<Credential>,                     // NewKeyCredential(key)
    newClient: (string, Credential) -> Result<Client>,                  // NewClientWithKey(endpoint, cred, nil)
    decodeObject: seq<byte> -> Result<map<string, Json>>,               // json.Unmarshal into map[string]interface{}
    newContainer: (Client, string, string) -> Option<string>,           // its error
    createItem: (Client, string, string, string, seq<byte>) -> Result<string>) // the item's ETag

  datatype Initialized = Initialized(plugin: Plugin, err: Option<string>)

  datatype Response = Response(bytes: nat, message: string)

  datatype Produced = Produced(result: Result<Response>, ops: seq<Op>)

  const EndpointMandatory: string := "Endpoint is mandatory"
  const KeyMandatory: string := "PrimaryAccountKey is mandatory"
  const PartitionKeyMandatory: string := "PartitionKey is mandatory"
  const PartitionKeyNotFound: string := "Partition key not found in value"

  /** The mandatory-field checks, in the order `Init` makes them. */
  function MandatoryError(c: CosmosConfig): (r: Option<string>)
    ensures r.None? <==> c.endpoint != "" && c.primaryAccountKey != "" && c.partitionKey != ""
    ensures c.endpoint == "" ==> r == Some(EndpointMandatory)
    ensures c.endpoint != "" && c.primaryAccountKey == "" ==> r == Some(KeyMandatory)
    ensures c.endpoint != "" && c.primaryAccountKey != "" && c.partitionKey == "" ==> r == Some(PartitionKeyMandatory)
  {
    if c.endpoint == "" then Some(EndpointMandatory)
    else if c.primaryAccountKey == "" then Some(KeyMandatory)
    else if c.partitionKey == "" then Some(PartitionKeyMandatory)
    else None
  }

  /** `Init`: decode, check the mandatory fields, build the credential and
      the client; only when all of that succeeds is anything stored. */
  function Init(p: Plugin, cfgBytes: seq<byte>, env: Env): (r: Initialized)
    // Any failure leaves the plugin exactly as it was.
    ensures r.err.Some? ==> r.plugin == p
    // Success needs a decodable payload with all three mandatory fields, a
    // credential and a client, and stores exactly those.
    ensures r.err.None? <==>
      && env.decodeConfig(cfgBytes).Ok?
      && MandatoryError(env.decodeConfig(cfgBytes).value).None?
      && env.newKeyCredential(env.decodeConfig(cfgBytes).value.primaryAccountKey).Ok?
      && env.newClient(env.decodeConfig(cfgBytes).value.endpoint,
                       env.newKeyCredential(env.decodeConfig(cfgBytes).value.primaryAccountKey).value).Ok?
    ensures r.err.None? ==>
      var c := env.decodeConfig(cfgBytes).value;
      r.plugin == Plugin(c, Some(env.newClient(c.endpoint, env.newKeyCredential(c.primaryAccountKey).value).value))
    // A missing mandatory field is reported before the SDK is called.
    ensures env.decodeConfig(cfgBytes).Ok? && MandatoryError(env.decodeConfig(cfgBytes).value).Some? ==>
      r.err == MandatoryError(env.decodeConfig(cfgBytes).value)
  {
    match env.decodeConfig(cfgBytes)
    case Err(e) => Initialized(p, Some(e))
    case Ok(c) =>
      if MandatoryError(c).Some? then Initialized(p, MandatoryError(c))
      else
        match env.newKeyCredential(c.primaryAccountKey)
        case Err(e) => Initialized(p, Some(e))
        case Ok(cred) =>
          match env.newClient(c.endpoint, cred)
          case Err(e) => Initialized(p, Some(e))
          case Ok(client) => Initialized(Plugin(c, Some(client)), None)
  }

  /** Reading a Go map: a missing key reads as "". */
  function Param(params: map<string, string>, k: string): string {
    if k in params then params[k] else ""
  }

  /** Where one call writes. */
  datatype Target = Target(partitionKey: string, database: string, container: string)

  /** The per-call overrides: each of `partition_key`, `database` and
      `container` replaces the configured value when it is non-empty. */
  function TargetOf(c: CosmosConfig, params: map<string, string>): (r: Target)
    ensures r.partitionKey == (if Param(params, "partition_key") != "" then params["partition_key"] else c.partitionKey)
    ensures r.database == (if Param(params, "database") != "" then params["database"] else c.database)
    ensures r.container == (if Param(params, "container") != "" then params["container"] else c.container)
  {
    Target(
      if Param(params, "partition_key") != "" then Param(params, "partition_key") else c.partitionKey,
      if Param(params, "database") != "" then Param(params, "database") else c.database,
      if Param(params, "container") != "" then Param(params, "container") else c.container)
  }

  /** Only the three fixed keys are consulted: any other parameter, and an
      empty value for one of the three, changes nothing. */
  lemma TargetIgnoresOtherParams(c: CosmosConfig, params: map<string, string>, k: string, x: string)
    requires k != "partition_key" && k != "database" && k != "container"
    ensures TargetOf(c, params[k := x]) == TargetOf(c, params)
    ensures TargetOf(c, params["partition_key" := ""]) == TargetOf(c, params - {"partition_key"})
    ensures TargetOf(c, params["database" := ""]) == TargetOf(c, params - {"database"})
    ensures TargetOf(c, params["container" := ""]) == TargetOf(c, params - {"container"})
  {
  }

  /** With all three overrides given, the configuration plays no part:
      the call writes exactly where its parameters say. */
  lemma OverridesReplaceConfig(c: CosmosConfig, d: CosmosConfig, params: map<string, string>)
    requires Param(params, "partition_key") != "" && Param(params, "database") != "" && Param(params, "container") != ""
    ensures TargetOf(c, params) == TargetOf(d, params)
    ensures TargetOf(c, params) == Target(params["partition_key"], params["database"], params["container"])
  {
  }

  /** Without overrides a call writes where the configuration says. */
  lemma TargetWithoutOverrides(c: CosmosConfig)
    ensures TargetOf(c, map[]) == Target(c.partitionKey, c.database, c.container)
  {
  }

  /** `jsonMap[partitionKey]`, `nil` (absent or JSON null) as None. */
  function PartitionValue(doc: map<string, Json>, key: string): (r: Option<Json>)
    ensures r.None? <==> key !in doc || doc[key] == JNull
    ensures r.Some? ==> r.value == doc[key]
  {
    if key in doc && doc[key] != JNull then Some(doc[key]) else None
  }

  /** The calls that reach the container operations: for these the source
      needs a client (set by `Init`) and a string-valued partition key
      (`pkValue.(string)` panics otherwise). */
  predicate ReachesContainer(p: Plugin, v: seq<byte>, params: map<string, string>, env: Env) {
    && env.decodeObject(v).Ok?
    && PartitionValue(env.decodeObject(v).value, TargetOf(p.configuration, params).partitionKey).Some?
  }

  function PartitionString(p: Plugin, v: seq<byte>, params: map<string, string>, env: Env): string
    requires ReachesContainer(p, v, params, env)
  {
    var j := PartitionValue(env.decodeObject(v).value, TargetOf(p.configuration, params).partitionKey).value;
    if j.JString? then j.s else ""
  }

  /** `Produce`. */
  function Produce(p: Plugin, v: seq<byte>, params: map<string, string>, env: Env): (r: Produced)
    requires ReachesContainer(p, v, params, env) ==>
      && p.client.Some?
      && (var t := TargetOf(p.configuration, params);
          env.newContainer(p.client.value, t.database, t.container).None? ==>
            PartitionValue(env.decodeObject(v).value, t.partitionKey).value.JString?)
    // A value that is not a JSON object returns the decoder's error.
    ensures env.decodeObject(v).Err? ==> r == Produced(Err(env.decodeObject(v).msg), [])
    // A missing or null partition key is reported before any container operation.
    ensures env.decodeObject(v).Ok? && !ReachesContainer(p, v, params, env) ==>
      r == Produced(Err(PartitionKeyNotFound), [])
    // Otherwise the container named by the call is opened, and the whole
    // value is created under the partition key's string value.
    ensures ReachesContainer(p, v, params, env) ==>
      var t := TargetOf(p.configuration, params);
      && |r.ops| > 0
      && r.ops[0] == NewContainer(t.database, t.container)
      && (|r.ops| == 2 <==> env.newContainer(p.client.value, t.database, t.container).None?)
      && (|r.ops| == 2 ==> r.ops[1] == CreateItem(t.database, t.container, PartitionString(p, v, params, env), v))
      // The SDK's errors are returned as they are; a created item reports
      // the value's length and its ETag.
      && (env.newContainer(p.client.value, t.database, t.container).Some? ==>
            r.result == Err(env.newContainer(p.client.value, t.database, t.container).value))
      && (env.newContainer(p.client.value, t.database, t.container).None? ==>
            var item := env.createItem(p.client.value, t.database, t.container, PartitionString(p, v, params, env), v);
            && (item.Err? ==> r.result == Err(item.msg))
            && (item.Ok? ==> r.result == Ok(Response(|v|, item.value))))
    // Success reports the value's length and the item's ETag.
    ensures r.result.Ok? ==>
      && ReachesContainer(p, v, params, env)
      && |r.ops| == 2
      && var t := TargetOf(p.configuration, params);
         var etag := env.createItem(p.client.value, t.database, t.container, PartitionString(p, v, params, env), v);
         etag.Ok? && r.result.value == Response(|v|, etag.value)
  {
    var t := TargetOf(p.configuration, params);
    match env.decodeObject(v)
    case Err(e) => Produced(Err(e), [])
    case Ok(doc) =>
      if PartitionValue(doc, t.partitionKey).None? then Produced(Err(PartitionKeyNotFound), [])
      else
        var client := p.client.value;
        var open := NewContainer(t.database, t.container);
        match env.newContainer(client, t.database, t.container)
        case Some(e) => Produced(Err(e), [open])
        case None =>
          var pk := PartitionString(p, v, params, env);
          var ops := [open, CreateItem(t.database, t.container, pk, v)];
          match env.createItem(client, t.database, t.container, pk, v)
          case Err(e) => Produced(Err(e), ops)
          case Ok(etag) => Produced(Ok(Response(|v|, etag)), ops)
  }

  /** After a successful `Init`, a call without overrides writes the value
      to the configured database and container, keyed by the configured
      partition-key field. */
  lemma InitThenProduce(p: Plugin, cfgBytes: seq<byte>, v: seq<byte>, env: Env)
    requires Init(p, cfgBytes, env).err.None?
    requires var q := Init(p, cfgBytes, env).plugin;
      ReachesContainer(q, v, map[], env) ==>
        (env.newContainer(q.client.value, q.configuration.database, q.configuration.container).None? ==>
           PartitionValue(env.decodeObject(v).value, q.configuration.partitionKey).value.JString?)
    ensures var q := Init(p, cfgBytes, env).plugin;
      var c := env.decodeConfig(cfgBytes).value;
      var r := Produce(q, v, map[], env);
      |r.ops| > 0 ==> r.ops[0] == NewContainer(c.database, c.container)
  {
  }
}
