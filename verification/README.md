# jr-plugins core, modelled in Dafny

jr-plugins hands generated records to destinations through producer
adapters. This project models the parts of it that make decisions:

- **The dot-path configuration overlay** (`internal/util/config.go`). A
  flat map of `"section.field" -> string` overrides is written into a typed,
  nested configuration. Each key is split at dots and walked down the
  configuration tree; the string is then coerced into the field's kind.
  Unknown paths are ignored silently. The first coercion error aborts the
  overlay, and there is no rollback. The configuration is a tree of records,
  pointers and typed leaves (`ConfigTree`, `Overlay`). Go's randomised map
  order is an explicit enumeration of the keys.
- **The HTTP adapter** (`internal/plugin/http/plugin.go`). `setConfig`
  defaults the timeout, the expected status and the method, and validates
  the TLS file pairing. `Produce` overlays the per-call parameters on a copy
  of the configuration, merges headers, picks PUT or POST and applies the
  status policy (`HttpConfig`, `HttpPlugin`).
- **The Azure Cosmos DB adapter** (`internal/plugin/azcosmosdb/plugin.go`).
  `Init` checks the mandatory fields in order. `Produce` takes the
  partition key, database and container from the call's parameters when
  they are non-empty, and looks up the partition key in the decoded value
  (`CosmosPlugin`).
- **The Kafka bridge's text parsers** (`experiments/jr_kafka/jr_kafka.c`).
  `parse_buffer` splits `key|header|message` with `strtok_r`.
  `read_config_file` parses `key=value` lines. The `-p` argument is checked
  with `strtol`. The validity check decides whether a received buffer is
  produced at all (`KafkaBridge`).
- **The WebAssembly test function**
  (`internal/plugin/wasm/plugin_test_function.go`). Its return-code protocol
  is modelled: `produce` returns 0 after writing the upper-cased value to
  standard output, or writes an error text to standard error and returns
  its length (`WasmFixture`).

Libraries the code calls but does not define are parameters of the model.
These are the JSON decoder, the `strconv` and `time` parsers, the TLS
key-pair loader, the HTTP round trip, the Cosmos SDK, and
`rd_kafka_conf_set`'s verdict on a pair. Each is an abstract function
bundled in an `Env` or `Parsers` value, so every property holds whatever
those libraries answer.

`internal/plugin/http/config.go` is not part of this model. The HTTP
`Config` record and the `POST`/`PUT` constants are reconstructed from their
uses in `plugin.go`.

**Per-call overrides persist.** `Produce` overlays the call's parameters on
`cfg := p.configuration` (`internal/plugin/http/plugin.go:161`). That is a
copy of the stored configuration, so the overlay alone leaves the stored
configuration as it was. Line 176 then hands the copy to `setConfig`,
which stores it, and drops its error. `HttpPlugin.Produce` is the code as
written. `HttpPlugin.ProducePerCall` keeps the overrides to the call, as the
copy at line 161 suggests (see Findings).

## Model

| member | source | states |
|---|---|---|
| Overlay.JoinSplit | internal/util/config.go:23 | Joining the segments of a split key with dots gives the key back, so splitting loses nothing. |
| Overlay.SplitJoin | internal/util/config.go:23 | Dot-free segments joined with dots split back into exactly those segments. |
| Overlay.FindField | internal/util/config.go:34-36 | A field is found only if it is the one field whose name equals the segment case-insensitively. Nothing is found when no field matches, or when two fields match. |
| Overlay.Coerce | internal/util/config.go:43-92 | Coerces one string into a field. Booleans accept exactly "true"/"false" in any case; anything else gives the "invalid boolean" error and leaves the field alone. Strings are stored verbatim. `int` stores Atoi's value even on error and returns the error. Unsigned, float, duration and `int64` fields are unchanged on a parse error. Other named int64 types are silently left alone. Every other kind is rejected with the "unsupported field type" error naming the key. The field's type never changes. |
| Overlay.SetField | internal/util/config.go:22-95 | A key that resolves nowhere, or to a value that cannot be set, changes nothing and is no error. Otherwise the resolved position receives the coerced value, with its error, and every position disjoint from it keeps its value. The configuration keeps its shape and stays well-typed. |
| Overlay.UnmarshalConfig | internal/util/config.go:12-19 | The overlay keeps the configuration's shape and well-typedness; an empty override map changes nothing. |
| OverlayProperties.SplitAppend | internal/util/config.go:23 | Splitting `a.b` gives the segments of `a` followed by the segments of `b`. |
| OverlayProperties.WalkAppend | internal/util/config.go:26-40 | Walking a concatenation of segments is walking the first part, then the second from where it stopped. |
| OverlayProperties.WalkFromLost | internal/util/config.go:26-40 | Once a segment matches no field, every later segment is ignored and the walk stays lost. |
| OverlayProperties.WalkStopsAtLeaf | internal/util/config.go:30-33 | Once the walk reaches a non-struct value, every further segment is skipped. |
| OverlayProperties.UnknownFieldIsNoOp | internal/util/config.go:34-42 | A key whose first segment names no field of the root, or names two fields differing only in case, is silently ignored. |
| OverlayProperties.NilPointerIsNoOp | internal/util/config.go:27-42 | A key whose prefix reaches a nil pointer is silently ignored, whatever follows. |
| OverlayProperties.TrailingSegmentsSwallowed | internal/util/config.go:30-33 | Extra segments after a key that reaches a leaf are swallowed: `leaf.extra` sets `leaf` itself, with the same outcome. |
| OverlayProperties.ResolveSameShape | internal/util/config.go:23-40 | Where a key leads depends only on the configuration's shape. Earlier pairs of an overlay therefore never change where a later pair writes. |
| OverlayProperties.ApplyPairsAppend | internal/util/config.go:13-17 | Applying the keys `a + b` is applying `a`, then `b` unless `a` failed. |
| OverlayProperties.FirstErrorAborts | internal/util/config.go:13-17 | A failed overlay fails at some pair. Every pair before it was applied without error and stays applied. The failing pair's own effect is the result, and no later pair is applied. |
| OverlayProperties.SuccessAppliesAll | internal/util/config.go:13-18 | In a successful overlay every pair, applied in order on the result of those before it, succeeded. |
| OverlayProperties.UnaddressedUnchanged | internal/util/config.go:13-17 | A position that no key of the override set writes keeps its value, whether the overlay succeeds or fails. |
| OverlayProperties.UnmarshalFrame | internal/util/config.go:12-19 | The same frame property for the whole override map, in any iteration order. |
| OverlayProperties.CoerceByKind | internal/util/config.go:43-92 | The coercion looks only at the field's kind. A coercion that succeeds found a leaf, and any other leaf of that kind coerces the same way to the same value. The exception is an int64-based named type, which keeps whatever it held. |
| OverlayProperties.UnchangedUnlessRewritten | internal/util/config.go:13-17 | In a successful overlay, a leaf changes only through a key that resolves to it and coerces a different value into it. |
| OverlayProperties.LastWriteWins | internal/util/config.go:13-17 | In a successful overlay, the position a key resolves to ends up holding that key's coerced value, unless a later key resolves to the same position. Of several keys reaching one field, the last in iteration order therefore wins. |
| OverlayProperties.AppliedValueKept | internal/util/config.go:12-19 | The same main effect for the whole override map, in any iteration order. |
| HttpConfig.FromToNode | internal/plugin/http/plugin.go:161-162 | Reading the configuration back from its tree view gives the configuration. |
| HttpConfig.ToFromNode | internal/plugin/http/plugin.go:161-162 | Every well-typed tree with the configuration's shape, as any overlay leaves it, is the tree view of the configuration read back from it. Nothing the overlay writes is lost when the adapter reads it. |
| HttpPlugin.TlsError | internal/plugin/http/plugin.go:98-112 | A certificate file without a key file, and a key file without a certificate file, are errors with their fixed messages. With neither file there is no error. With both, the error is the key-pair loader's. |
| HttpPlugin.SetConfig | internal/plugin/http/plugin.go:81-155 | An unparsable timeout is returned at once. The configuration is stored with a zero timeout value, nothing else is defaulted, and the client keeps its timeout. Otherwise the timeout is 10 s when empty and the parsed duration else, and an expected status of 0 becomes 200. The result is an error exactly when the timeout or the TLS checks fail. An empty method becomes POST only on success. Nothing but these three settings differs from the given configuration. |
| HttpPlugin.SetConfigIdempotent | internal/plugin/http/plugin.go:81-155 | A successful `setConfig` leaves a settled configuration, and setting it again changes nothing. |
| HttpPlugin.Init | internal/plugin/http/plugin.go:58-79 | A payload that does not decode is returned as the error, and the plugin is untouched. A decoded configuration is stored even when `setConfig` fails: only the method, timeout value and expected status may differ from it. The old client is replaced by a fresh one, whose timeout is set only when the timeout text parses. The call fails exactly when the timeout or the TLS checks fail. |
| HttpPlugin.InitDefaultsToPost | internal/plugin/http/plugin.go:151-153 | Initialising with an empty method and a valid configuration stores POST. |
| HttpPlugin.MergeHeaders | internal/plugin/http/plugin.go:167-174 | The request headers are the stored headers and the call's headers. The call's value wins on a shared key, and no other key appears. |
| HttpPlugin.Dispatch | internal/plugin/http/plugin.go:186-193 | The request is a PUT exactly when the method is "PUT"; every other method, including unknown ones, sends a POST. |
| HttpPlugin.CheckStatus | internal/plugin/http/plugin.go:199-209 | A reply is accepted exactly when its status is the expected one or statuses are ignored. An accepted reply reports the value's byte count and the reply body. A rejected one gives the "Unexpected status code" error with the status. |
| HttpPlugin.Send | internal/plugin/http/plugin.go:179-209 | The call succeeds exactly when the round trip does and the status is accepted by the plugin's policy. Success reports the value's length and the reply body. A transport error is returned as is, and a rejected status is named in the error. |
| HttpPlugin.Produce | internal/plugin/http/plugin.go:157-211 | An overlay error is returned before any request, and the plugin is unchanged. Otherwise a request is sent whatever `setConfig` says. Its headers come from the configuration stored before the call, its body is the value, and its verb, URL and timeout come from the overlaid configuration that `setConfig` stored. A transport error is returned as is. A reply is judged by the status policy of that stored configuration. |
| HttpPlugin.ProduceWithoutOverrides | internal/plugin/http/plugin.go:161-193 | A call without overrides sends to the stored URL with the stored method, and stores the configuration back through `setConfig`. |
| HttpPlugin.ProduceWithoutOverridesKeepsSettled | internal/plugin/http/plugin.go:161-176 | A call without overrides leaves a settled plugin exactly as it was. |
| HttpPlugin.OverrideMethod | internal/plugin/http/plugin.go:161-162 | The override key `endpoint.method` writes exactly the stored method and nothing else. |
| HttpPlugin.OverrideCertFile | internal/plugin/http/plugin.go:161-162 | The override key `tls.certfile` writes exactly the certificate file and nothing else. |
| HttpPlugin.SinglePair | internal/util/config.go:12-19 | An override map with one pair is `setField` of that pair. |
| HttpPlugin.OverrideLeaksIntoNextCall | internal/plugin/http/plugin.go:176 | As written: a call overriding the method to PUT sends a PUT and stores PUT. The next call, which has no overrides, sends a PUT too. |
| HttpPlugin.ValidationErrorIgnored | internal/plugin/http/plugin.go:176 | As written: overriding only the certificate file fails `setConfig`'s pairing rule. The request is still sent, and the unpaired file is stored for later calls. |
| HttpPlugin.ProducePerCall | internal/plugin/http/plugin.go:157-211 | Corrected: the stored plugin never changes. A request is sent exactly when both the overlay and `setConfig` of the overlaid copy succeed, and then it is the request and result of the code as written. |
| HttpPlugin.OverrideStaysInCall | internal/plugin/http/plugin.go:161-193 | Corrected: a PUT override sends a PUT, and the next call without overrides sends the stored POST. |
| HttpPlugin.ValidationErrorReported | internal/plugin/http/plugin.go:98-100 | Corrected: an unpaired certificate-file override is reported as the pairing error, nothing is sent and nothing is stored. |
| CosmosPlugin.MandatoryError | internal/plugin/azcosmosdb/plugin.go:55-65 | The configuration passes exactly when endpoint, account key and partition key are all non-empty. The first missing one, in that order, names the error. |
| CosmosPlugin.Init | internal/plugin/azcosmosdb/plugin.go:49-81 | Any failure leaves the plugin as it was. Success needs a decodable payload with the mandatory fields, a key credential, and a client built from the endpoint and that credential. It stores exactly that configuration and client. A missing mandatory field is reported before the SDK is called. |
| CosmosPlugin.OverridesReplaceConfig | internal/plugin/azcosmosdb/plugin.go:85-96 | A call giving all three of `partition_key`, `database` and `container` writes exactly where they say, whatever the configuration holds. |
| CosmosPlugin.TargetIgnoresOtherParams | internal/plugin/azcosmosdb/plugin.go:85-96 | Any other parameter, and an empty value for one of the three, changes nothing. |
| CosmosPlugin.TargetWithoutOverrides | internal/plugin/azcosmosdb/plugin.go:85-96 | Without parameters a call writes where the configuration says. |
| CosmosPlugin.PartitionValue | internal/plugin/azcosmosdb/plugin.go:104-108 | The partition key is missing exactly when the decoded object lacks it or holds JSON null there. |
| CosmosPlugin.Produce | internal/plugin/azcosmosdb/plugin.go:83-126 | A value that is not a JSON object returns the decoder's error. A missing partition key is reported before any container operation. Otherwise the call's container is opened, and the whole value is created under the key's string value. An error from opening the container or creating the item is returned as is. A created item reports the value's length and its ETag. |
| CosmosPlugin.InitThenProduce | internal/plugin/azcosmosdb/plugin.go:49-126 | After a successful `Init`, a call without parameters opens the configured database and container. |
| KafkaBridge.NextToken | experiments/jr_kafka/jr_kafka.c:125 | `strtok_r` finds no token exactly when only delimiters remain. A token is non-empty and free of delimiters. |
| KafkaBridge.NextTokenSplits | experiments/jr_kafka/jr_kafka.c:125 | The input is the skipped delimiters, the token, and then either a delimiter and the rest, or nothing. |
| KafkaBridge.ParseBuffer | experiments/jr_kafka/jr_kafka.c:120-145 | Key and header are free of delimiters and fit their buffers. No token leaves everything empty. The key is the first token cut to 255 characters. Without a second token the header is empty and there is no message. Otherwise the header is the second token cut to 1023 characters, and the message is whatever follows its delimiter. |
| KafkaBridge.ParseFrame | experiments/jr_kafka/jr_kafka.c:120-145 | A frame `key|header|message` with non-empty, delimiter-free, fitting key and header and a non-empty message parses back into its three parts. The message may contain delimiters. |
| KafkaBridge.LongKeyTruncated | experiments/jr_kafka/jr_kafka.c:127-128 | An over-long key is cut to its first 255 characters. |
| KafkaBridge.LeadingDelimitersSkipped | experiments/jr_kafka/jr_kafka.c:125 | A leading delimiter never yields an empty key: the buffer parses as without it. |
| KafkaBridge.MissingMessage | experiments/jr_kafka/jr_kafka.c:137-140 | `key|header` and `key|header|` carry no message and are refused by the validity check. |
| KafkaBridge.Receive | experiments/jr_kafka/jr_kafka.c:338-374 | A received buffer is produced exactly when key, header and message are all non-empty. It is produced as the key and the message; the header is not attached. |
| KafkaBridge.ReceiveFrame | experiments/jr_kafka/jr_kafka.c:338-374 | A well-formed frame is produced as its key and message. |
| KafkaBridge.TrimRight | experiments/jr_kafka/jr_kafka.c:95-96 | The key loses exactly its trailing white space: the result is a prefix, only white space was removed, and it does not end in white space. |
| KafkaBridge.TrimLeft | experiments/jr_kafka/jr_kafka.c:97-99 | The value loses exactly its leading white space. |
| KafkaBridge.SplitPair | experiments/jr_kafka/jr_kafka.c:88-99 | A line without `=` gives nothing. Otherwise it splits at the first `=` into the right-trimmed key and the left-trimmed value. |
| KafkaBridge.ParseConfigLine | experiments/jr_kafka/jr_kafka.c:80-99 | Lines starting with `#` or a newline give nothing, at any length `fgets` returns. Any other line is cut at its first NUL and newline, then split. |
| KafkaBridge.ParseConfigLineRoundTrip | experiments/jr_kafka/jr_kafka.c:78-99 | A line `key<spaces>=<spaces>value` reads back as exactly that key and value. |
| KafkaBridge.ReadConfig | experiments/jr_kafka/jr_kafka.c:67-117 | The configuration holds every pair of the file, in order, when `rd_kafka_conf_set` takes them all; one rejection fails the whole file. |
| KafkaBridge.CommentLinesIgnored | experiments/jr_kafka/jr_kafka.c:80-82 | A comment line contributes nothing, wherever it is. |
| KafkaBridge.ParsePort | experiments/jr_kafka/jr_kafka.c:182-190 | A port is accepted exactly when `strtol` consumes the whole argument and the value lies in 1..65535. |
| KafkaBridge.StrTolOf | experiments/jr_kafka/jr_kafka.c:184 | `strtol` of white space, an optional `+` and digits consumes everything and gives the digits' decimal value. |
| KafkaBridge.ParsePortRoundTrip | experiments/jr_kafka/jr_kafka.c:182-190 | A port in 1..65535, written in decimal after any white space and an optional `+`, is accepted as itself. |
| KafkaBridge.ParsePortRejects | experiments/jr_kafka/jr_kafka.c:185 | A negative number is refused, and so is a number followed by anything that is not a digit. |
| WasmFixture.ReadAtLeast | internal/plugin/wasm/plugin_test_function.go:44-49 | Exactly `size` bytes are read when available, and the rest stays unread. A stream ending before any byte is "EOF"; one ending part-way is "unexpected EOF". |
| WasmFixture.ToUpper | internal/plugin/wasm/plugin_test_function.go:58 | On ASCII text the length is kept and exactly the lower-case letters become upper-case. |
| WasmFixture.ToUpperIdempotent | internal/plugin/wasm/plugin_test_function.go:58 | Upper-cased ASCII has no lower-case letter left, and upper-casing it again changes nothing. |
| WasmFixture.E | internal/plugin/wasm/plugin_test_function.go:68-75 | Only standard error changes, by an append, and the code is the number of bytes appended. The code is 0 exactly for a nil error and for an error whose text is empty. |
| WasmFixture.Produce | internal/plugin/wasm/plugin_test_function.go:43-66 | Exactly `size` bytes are consumed. A short read reports EOF or unexpected EOF, and an undecodable record reports the decoder's error; neither writes to standard output. Otherwise the upper-cased value is written and 0 returned, unless the write fails. |
| WasmFixture.ReturnCodeProtocol | internal/plugin/wasm/plugin_test_function.go:43-75 | The return code is exactly the number of bytes appended to standard error. A call that writes to standard output returns 0. |
| WasmFixture.ProduceRecord | internal/plugin/wasm/plugin_test_function.go:43-66 | A record of exactly `size` bytes followed by more input leaves the rest unread. Its value comes out upper-cased with code 0. |
| WasmFixture.EmptyErrorLooksLikeSuccess | internal/plugin/wasm/plugin_test_function.go:68-75 | An error with an empty text returns 0 and writes nothing. The host cannot tell it from a record whose value is empty. |

## Left out

- I/O: sockets, FIFOs, files, `fgets`, `read`, process arguments and the Kafka producer call (`rd_kafka_producev`) are left out. Lines and buffers are inputs, and the record handed to Kafka is the result.
- The resty client beyond its timeout is left out. This covers basic, bearer, API-key and digest authentication (http plugin.go:135-149), the cookie jar (114-123), the root CA (125-127) and the TLS client config (129-133). None of them affects the model's verdicts, except the cookie jar's constructor error, which is treated as never happening.
- `strconv.ParseUint`, `strconv.ParseFloat`, `strconv.Atoi` and `time.ParseDuration` are abstract parsers. Floats are stored as opaque bits.
- The JSON decoders, the TLS key-pair loader, the HTTP round trip and the Cosmos SDK are abstract functions.
- CosmosPlugin.Produce: requires a client and a string partition-key value on the paths that reach the SDK. The source has no such check: it panics on a nil client or a non-string `pkValue`.
- Overlay.FindField: field promotion through embedded structs is left out. `strings.EqualFold` is modelled on ASCII, so the Kelvin sign and the long s are left out; for the boolean texts "true" and "false" this is exact.
- Go's random map iteration is a parameter (`order`), a list of the keys. The order in which the HTTP header maps are merged is irrelevant, because keys are distinct.
- KafkaBridge.ParseConfigLine: requires a line of under 1024 characters, which is all `fgets` returns. A pair line whose key part has 255 characters or more is also excluded: `strncpy` leaves such a key unterminated, and what follows is undefined.
- KafkaBridge.StrTol: values are unbounded. `strtol` clamps to `LONG_MIN`/`LONG_MAX`, both outside 1..65535, so `ParsePort`'s verdict is the same.
- KafkaBridge.ReadConfig: `rd_kafka_conf_set`'s verdict on a pair is a parameter. The printed messages and the error string are left out.
- WasmFixture.Produce: a partial write to standard output is treated as a failed write. The error of the write to standard error, which the source ignores, is left out.

## Findings

| source | as written | input that shows it | evidently intended | confidence | as-written member | corrected member |
|---|---|---|---|---|---|---|
| internal/plugin/http/plugin.go:176 | `Produce` stores the overlaid per-call copy through `setConfig`, so one call's overrides become the stored configuration. | A call with `{"endpoint.method": "PUT"}`, then a call with no parameters: the second call sends a PUT. | Overrides apply to the one call; the stored configuration is unchanged. | not executed | HttpPlugin.OverrideLeaksIntoNextCall | HttpPlugin.OverrideStaysInCall |
| internal/plugin/http/plugin.go:176 | The error of `setConfig` on the overlaid copy is dropped, and the request is sent anyway. | `{"tls.certfile": "cert.pem"}` on a plugin with no TLS files: `setConfig` says "CertFile is set but KeyFile is not", and the request is still sent. | A validation error is returned and nothing is sent. | not executed | HttpPlugin.ValidationErrorIgnored | HttpPlugin.ValidationErrorReported |
