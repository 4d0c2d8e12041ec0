# Verified model of XDAS

XDAS is an HTTP cache in front of Redis. A record is a magic byte (encryption, content type, content encoding)
followed by a body; PUT converts a client's body to the keyspace's store format and GET converts it back to the
format asked for. Misses are handed to FindX, a bounded queue served by worker goroutines. This project models both
and proves, among other things, that over any run the byte-level store behaves like a plain map of what clients put,
and that the queue loses, duplicates and reorders nothing in any interleaving.

`dafny verify dfyconfig.toml` checks the whole project.

| file | models |
|---|---|
| `MagicByte.dfy` | the magic byte, its code tables and headers |
| `RedisCrypto.dfy` | AEAD framing and the in-place sealing buffer |
| `Conversion.dfy` | the four-path `Convert`, its unoptimised form, and what a record means |
| `ConversionMetrics.dfy` | `Convert` as it runs, with the per-keyspace counters or none |
| `ConversionCalls.dfy` | which conversions each handler gets to |
| `CodecWitness.dfy` | a concrete codec that meets every assumption |
| `RedisKeys.dfy` | key strings, hash tags, `ct` key parsing |
| `KeyspaceConfig.dfy` | keyspace validation: format inheritance and defaults |
| `Handlers.dfy` | PUT, GET and DEL as functions of the Redis map |
| `StoreRefinement.dfy` | runs of the store against a plain map |
| `Reading.dfy` | an independent reader of bodies and stored values, and what the store's results mean to it |
| `MultiGet.dfy` | the multi-keyspace GET |
| `MultiGetReply.dfy` | its whole reply, from the texts of the request |
| `TTL.dfy` | the lifetime a PUT asks for |
| `Requests.dfy` | the server as a function of its requests, and its runs as runs of the store |
| `Server.dfy` | the handlers in place: buffers, aliasing slices, counters, the Redis map, FindX; and the server from its start |
| `BufferPool.dfy` | buffer ownership and contents under interleaved PUTs |
| `PutInterleaving.dfy` | those interleavings as runs of the store |
| `FindXProtocol.dfy` | the FindX queue, its workers, its Adds and its Closes as interleaved steps |
| `FindXCapacity.dfy` | what the configured numbers, the order and the counters of FindX mean |
| `FindXShutdown.dfy` | closing: panics, draining, and the counters when Close returns |
| `FindXService.dfy` | the FindX object |
| `FindXAsks.dfy` | missing ids handed over to the FindX of their keyspaces |

## What is assumed

- AES-GCM, Zstandard, protobuf and protojson are parameters in a `Codec`. `Lawful` asks that opening a sealed text,
  decompressing a compressed one and re-reading a written message give back what went in, a message being compared by
  its known fields (protojson discards unknown ones). `MarshalsAll` asks that whatever can be read in one format can
  be written in the other; only claims that a conversion succeeds use it. `CodecWitness.LawsHold` shows the
  assumptions are consistent.
- The message registry is a parameter, since the repository's is empty. The nonce is an argument, absent when the
  random reader fails. `strings.ToUpper` is an arbitrary function.
- Redis is a map. Each handler does exactly one Redis operation, so concurrent requests are a sequence of events. An
  operation Redis does not confirm has no effect. Expiry is a step that removes any key. What Redis holds when the
  server starts represents some plain map (`Refines`): it is empty (`EmptyRefines`), or an earlier run left it
  (`RunRefines`).
- `Deployed` gathers what the store theorems need: a lawful codec, validated keyspaces with encryption 0 or 1, and
  keyspace names none of which continues another with `:{`. The program does not check the last one;
  `RedisKeys.InjectiveIffSeparated` shows it is exactly what keeps keys apart.
- FindX request construction succeeds and every request returns. Reads and writes of the `enabled` flag are atomic.

## Where the code differs from its comments and tests

- The configuration drops an output type "when stored is unknown", but looks at the text, so a store type of
  `application/octet-stream` passes and content put there with an unknown type is never readable by default
  (`UnknownStoreGuard`, `UnknownTypeGap`, `UnknownTypeUnreadable`, and as a run `UnknownTypeRun`;
  `GetAnswersIff` says in general which submissions are readable).
- The FindX test for a full queue expects as many successful Adds as the buffer holds. An Add is refused exactly while
  the buffer is full (`RefusedIffFull`), so the true bound also counts the workers, and it is attained for every setting
  (`Conservation`, `BoundAttained`).
- When Close returns, the added count can trail the finished count: `CloseCanTrail` gives the run, for every setting.
  `CloseCountsAgreeIff` gives the exact condition at the moment Close clears the flags: the counts agree at its return
  in every interleaving iff every Add then under way has already been refused, that is, given that none is between its
  check and its send, iff none has sent without being counted.
- A comment calls Close's unsynchronised flags okay. `CloseSafeIff` gives the exact condition at the moment they are
  cleared: no panic can follow iff no Add is between its check and its send and no other Close is under way.
  `CloseCanPanic` shows, for every setting, that both kinds of state are reached.
- A PUT's lifetime given as a number is documented to count seconds; from 9223372037 on the multiplication wraps
  around (`SecondsHonouredIff`, `SecondsWrap`).
- A `ct` record whose id contains an underscore is never part of a multi-GET (`CTPart`).
- Content types 3 to 7 and encoding 3, which a stored byte can hold, have no header text and read back as 0
  (`HeadersRoundTrip`).

## Model

| member | source | states |
|---|---|---|
| MagicBytes.ParsePacked | internal/magicbyte/magicbyte.go:94-124 | packing in-range fields and parsing the byte gives them back; the reserved bit is clear |
| MagicBytes.RepackParsed | internal/magicbyte/magicbyte.go:94-124 | parsing and repacking a byte gives it back iff its reserved bit is clear |
| MagicBytes.HeadersRoundTrip | internal/magicbyte/magicbyte.go:43-170 | the content headers parse back to the same codes iff both codes have a text |
| RedisCrypto.UnsealSeal | internal/rediscrypto/crypto.go:102-123 | decrypting an encryption gives the plaintext for every nonce; ciphertext is exactly 28 bytes longer |
| RedisCrypto.GrowBuffer.Append | internal/rediscrypto/crypto.go:107 | appending within capacity changes nothing but the tail |
| RedisCrypto.Encrypt | internal/rediscrypto/crypto.go:102-109 | fails iff the random read fails; otherwise nonce then sealed text, in a buffer whose capacity is filled exactly |
| Conversion.UnpackPack | internal/conversion/conversion.go:133-166 | packing an unpacked message and unpacking it keeps its known fields, for any two formats and every nonce |
| Conversion.ConvertPreserves | internal/conversion/conversion.go:69-131 | success: requested label with type 0 resolved, same meaning, same payload when the type stays, same plaintext when the encoding stays too; failure: the input unchanged |
| Conversion.ConvertRefinesFull | internal/conversion/conversion.go:69-166 | wherever decoding and re-encoding everything succeeds, the short-cut conversion does, with the same label and meaning |
| Conversion.ConvertSucceedsWhen | internal/conversion/conversion.go:69-131 | exactly when a conversion succeeds, in terms of how far the input decodes and what can be written |
| Conversion.PathIndependence | internal/conversion/conversion.go:69-131 | two successful conversions in a row can be replaced by one, with the same meaning; the labels agree iff the target names a type or the first step kept it |
| Reading.StagesRead | internal/conversion/conversion.go:133-250 | what opens, decompresses and unpacks, in the codec's own functions: by encryption 0 or 1 (28 bytes at least, behind the nonce), encoding 0 or 1, type JSON or protobuf, in a registered keyspace, and nothing else |
| Reading.UnpackErrors | internal/conversion/conversion.go:133-250 | which error a record that does not unpack gives: that of the first stage that fails |
| Reading.ConvertErrors | internal/conversion/conversion.go:69-250 | which error a conversion gives: that of the first failing stage among those that the first change asks for |
| ConversionMetrics.Convert | internal/conversion/conversion.go:69-131 | the in-place conversion returns the pure one's result; of all counters only that of the path taken and its outcome moves, in the caller's keyspace; without metrics nothing does |
| ConversionMetrics.PrometheusMetrics.Init | internal/conversion/metrics.go:55-96 | succeeds iff there is a registerer and a namespace and no keyspace is registered twice; then every keyspace has its own fresh zero counters |
| ConversionMetrics.RegistrableIff | internal/conversion/metrics.go:55-93 | the counters can be registered iff there is a registerer and a namespace and every keyspace is new and listed once |
| ConversionMetrics.Init | internal/conversion/conversion.go:53-66 | conversions are counted iff the counters could be registered; otherwise they go on uncounted |
| ConversionMetrics.InitAndConvertAll | internal/conversion/conversion.go:53-131 | from the start of the program, any sequence of conversions gives the pure results and leaves every keyspace's six counters at the tally of its calls |
| ConversionMetrics.Accounting | internal/conversion/metrics.go:38-150 | that tally: the six counters add up to the calls asking for another label, and the failure counters to the calls returning an error |
| ConversionMetrics.EachCounter | internal/conversion/metrics.go:38-150 | each of the six counters of a keyspace is the number of its calls that change the type, else the encoding, else the encryption, and end well or badly |
| ConversionCalls.PutConverts | cmd/xdas/handler.go:154-177 | a PUT converts once iff it is accepted or answered 500 there, and what it prepares is that conversion's result |
| ConversionCalls.RenderConverts | cmd/xdas/handler.go:71-98 | a stored value converts once unless it is empty, raw is asked for, or the format is unknown; the reply is that conversion's result |
| ConversionCalls.GetConverts | cmd/xdas/handler.go:44-98 | a GET converts once iff its keyspace is configured and not atomic, Redis answers with a value, and the format is known and not raw |
| CodecWitness.LawsHold | internal/conversion/conversion.go:169-250 | the assumptions on the codecs hold of a concrete one, for every registry |
| CodecWitness.JsonTripLosesBytes | internal/conversion/conversion.go:228 | a trip through JSON and back can lose payload bytes, so meaning is known-field content |
| RedisKeys.InjectiveIffSeparated | cmd/xdas/redis.go:58-59 | keys of a set of keyspaces name keyspace and id, over all ids, iff none continues another with `:{` |
| RedisKeys.SameKey | cmd/xdas/redis.go:58-59 | two equal keys of separated keyspaces have equal keyspace and id |
| RedisKeys.CTKeyCollides | cmd/xdas/redis.go:52-59 | a `ct` key equals some plain key iff its quarter ends in a closing brace |
| RedisKeys.TagOfKey | cmd/xdas/redis.go:52-59 | the cluster hash tag of any key built on an id, for brace-free keyspaces |
| RedisKeys.SameHashTag | cmd/xdas/redis.go:52-59 | plain and `ct` keys of one id share a hash tag; for two keyspaces iff the id is not empty and does not begin with a closing brace |
| RedisKeys.CTNamespaceOfKey | cmd/xdas/handler.go:266-274 | a `ct` key splits into three parts iff id, hour and quarter have no underscore, and then the Namespace is `ct_hour_quarter` |
| KeyspaceConfigs.KeyspaceConfig.Validate | cmd/xdas/config.go:155-187 | overwriting the fields in order leaves the inherited formats and a FindX with the program's user agent; fails iff the TTL does not parse |
| KeyspaceConfigs.ValidateKeyspaceConfig | cmd/xdas/config.go:154-189 | succeeds iff every TTL parses, in any order; then every keyspace has inherited its formats and has a FindX |
| KeyspaceConfigs.InheritedLabels | cmd/xdas/config.go:155-176 | only the store label is encrypted, as configured; every code has a text |
| KeyspaceConfigs.InheritedStages | cmd/xdas/config.go:155-176 | for store and output, encoding and type: a setting that is given determines the code, one left empty takes that of the stage before; a given output type counts iff a store or input type is written or it means unknown |
| KeyspaceConfigs.FindXKept | cmd/xdas/config.go:178-181 | a keyspace keeps its FindX but for the user agent, and one without gets one that is not enabled |
| Reading.ConfiguredLabels | cmd/xdas/config.go:155-176 | the three labels from the first configured texts that are not empty |
| KeyspaceConfigs.InheritTwice | cmd/xdas/config.go:155-176 | validation is idempotent |
| KeyspaceConfigs.UnknownStoreGuard | cmd/xdas/config.go:167-169 | exactly when an unknown store type forces an unknown output type |
| Handlers.ValidatedFromConfig | cmd/xdas/config.go:154-177 | keyspaces that come out of validation meet what the store theorems assume |
| Handlers.ParseFrame | cmd/xdas/redis.go:42-50 | a written record parses back to itself with the reserved bit clear |
| Handlers.Put | cmd/xdas/handler.go:121-190 | a PUT not answered 200 changes nothing; any PUT touches at most its own key |
| StoreRefinement.PutStores | cmd/xdas/handler.go:132-184 | what an accepted PUT writes: a well-formed record in the store format that says what was submitted |
| StoreRefinement.PutAcceptedIff | cmd/xdas/handler.go:121-177 | exactly when a PUT is accepted, given a nonce |
| StoreRefinement.RunRefines | cmd/xdas/handler.go:44-190 | after any run of PUT, GET, DEL, expiry and atomic writes, from any Redis map that represents a plain map, Redis represents the plain map of last successful PUTs |
| StoreRefinement.GetAfterRun | cmd/xdas/handler.go:44-99 | after any run: 404 iff nothing is there; a default reply, read by its own headers, means what was last put; it is the same bytes when formats agree; raw gives the stored bytes |
| Reading.PutThenGet | cmd/xdas/handler.go:44-190 | a PUT answered 200, then anything that leaves its key alone, then a GET: never 404, and in every non-raw format answered 200 the reply's body read by the reply's headers is the PUT's body read by the PUT's headers, and so is the value Redis holds |
| Reading.PutStatus | cmd/xdas/handler.go:121-190 | the status of every PUT, from its keyspace, the texts of its headers, its body, the codec and Redis |
| Reading.CorruptRefused | cmd/xdas/handler.go:154-170 | a body labelled zstd that does not decompress is answered 400 wherever the store is uncompressed, and nothing is written |
| Reading.GetStatus | cmd/xdas/handler.go:44-99 | the status of every GET of a regular keyspace after any run, from what was submitted |
| Reading.OtherKeyspaces | cmd/xdas/handler.go:50-58 | GETs of keyspaces that are not configured or atomic, and DELs of the former |
| Reading.RawReply | cmd/xdas/handler.go:75-79 | after any run a raw GET is the stored value, untyped |
| Reading.StoredReads | cmd/xdas/redis.go:42-50 | what Redis holds after any run says in its first byte's bits how it is encoded, typed and encrypted, and read so it is what was put |
| Reading.ReplyReads | cmd/xdas/handler.go:71-98 | a reply read by its headers is what was put read by its headers |
| Reading.ReplyPayload | cmd/xdas/handler.go:71-98 | where types agree throughout, the reply's payload, decompressed as its header says, is the payload of what was put, message or not |
| Reading.ConfiguredAtRest | cmd/xdas/config.go:158-165 | after any run what Redis holds is encoded and typed as the configured texts say |
| Reading.ConfiguredReply | cmd/xdas/handler.go:71-98 | after any run a GET answered 200 carries exactly the headers of the configured output, or of the type asked for |
| Reading.LooksUpIff | cmd/xdas/handler.go:59-69 | an id is handed over iff the GET is answered 404, `nofindx` is off and the keyspace is not atomic |
| Reading.LookedIff | cmd/xdas/handler.go:378-391 | a missing `pld` id is looked up iff a GET of `pa` would not be answered 404; other ids always are |
| Reading.DelThenGet | cmd/xdas/handler.go:298-314 | a DEL is answered 200 iff a GET would not be 404; then the GET is, and every other GET is as before |
| StoreRefinement.RecordsWellFormed | cmd/xdas/handler.go:161-184 | after any run every record has the reserved bit clear, the configured encryption, the store's encoding, and the store's type or that of the last PUT |
| StoreRefinement.RenderConverts | cmd/xdas/handler.go:71-98 | a non-raw reply is plaintext and its headers label it truthfully |
| StoreRefinement.RenderSays | cmd/xdas/handler.go:71-98 | a non-raw reply in any format means what was put |
| StoreRefinement.RenderIdentical | cmd/xdas/handler.go:71-98 | where input, store and output formats agree the reply exists and repeats the body byte for byte |
| StoreRefinement.RenderRaw | cmd/xdas/handler.go:75-79 | a raw reply is the stored value iff its reserved bit is clear |
| StoreRefinement.RendersIff | cmd/xdas/handler.go:71-98 | exactly when a non-raw format is answered |
| StoreRefinement.StoredRendersIff | cmd/xdas/handler.go:71-98 | the same from what was submitted alone: whether it decodes as far as the label asked for differs from the stored one, and that label's encoding can be written |
| StoreRefinement.GetAnswersIff | cmd/xdas/handler.go:44-99 | after any run, a GET in a non-raw format is answered iff something is there, the format is known, and what was submitted is readable so |
| StoreRefinement.ValidatedRenders | cmd/xdas/handler.go:152-177 | a validated record is JSON or protobuf, stored plain or zstd, and converts to any format iff that is not zlib |
| StoreRefinement.ValidatedStaysReadable | cmd/xdas/handler.go:152-177 | after any run with validation on, json and protobuf GETs always answer, and default GETs iff the output encoding is not zlib |
| StoreRefinement.UnknownTypeUnreadable | cmd/xdas/config.go:167-169 | untyped content in an untyped store is unreadable by default when an output type is named |
| StoreRefinement.UnknownTypeGap | cmd/xdas/config.go:167-169 | a configuration that validates and has that gap |
| StoreRefinement.UnknownTypeRun | cmd/xdas/handler.go:71-177 | in it, with content validation off, a PUT of any untyped body is accepted and the default GET that follows answers 500 |
| StoreRefinement.RelayKeepsMeaning | cmd/xdas/handler.go:121-190 | re-putting a GET reply with its headers into a keyspace of the same schema keeps the original meaning |
| MultiGet.Compact | cmd/xdas/handler.go:200-223 | the three arrays are the order-preserving filter of the request, index by index |
| MultiGet.HandleMultiGet | cmd/xdas/handler.go:192-293 | the reply is the specification's, whose meaning `WholeReply` gives; exactly the conversions of the records found are counted |
| MultiGet.AgreesWithSingleGets | cmd/xdas/handler.go:200-283 | parts and lookups are, in request order, those of single default GETs on the same snapshot |
| MultiGet.PartsAfterRun | cmd/xdas/handler.go:192-293 | after any run, each part read by its own headers means what was last put in the keyspace its Namespace names, and FindX is asked, in request order, for exactly the configured keyspaces that hold nothing |
| MultiGetReply.WholeReply | cmd/xdas/handler.go:192-293 | a request whose `ks` is a comma-separated list, or empty with a configured default, is answered with the contributions of the named keyspaces in order: 200 iff there is a part, 404 if not, 500 when Redis does not answer |
| MultiGetReply.ReplyOfSingleGets | cmd/xdas/handler.go:192-293 | where neither `ct` nor an atomic keyspace is named, the reply is that of one default GET per named keyspace |
| MultiGetReply.ReplyAfterRun | cmd/xdas/handler.go:192-293 | after any run every part of the reply reads as what was last put in the keyspace its Namespace names, and the lookups are exactly the configured keyspaces that hold nothing |
| MultiGetReply.MultiConverts | cmd/xdas/handler.go:245-262 | a multi-GET converts once for each named, configured keyspace whose key Redis has, in request order |
| MultiGet.CTPart | cmd/xdas/handler.go:264-274 | a convertible `ct` record becomes a part iff id, hour and quarter have no underscore |
| MultiGet.OneSlot | cmd/xdas/handler.go:210-216 | all keys of one multi-GET share a hash tag |
| Server.ReadAll | cmd/xdas/util.go:29-50 | however the body is chunked, it is appended to the buffer and the result aliases it |
| Server.WriteToBufPool | cmd/xdas/util.go:74-81 | a pooled buffer ends up holding magic byte and data, also when the data aliases another buffer |
| Server.Server.ConvertForStore | cmd/xdas/handler.go:171-177 | the stored form, aliasing the read buffer only when nothing changed |
| Server.Server.Receive | cmd/xdas/handler.go:143-177 | reading, validating and converting give what the specification of PUT prepares |
| Server.Server.Store | cmd/xdas/handler.go:179-189 | the write stores exactly the framed record with its lifetime and returns its buffer |
| Server.Server.HandlePut | cmd/xdas/handler.go:121-190 | reply and Redis map are the specification's; exactly the conversions it gets to are counted; the lifetime changes iff the PUT is accepted; every buffer taken is handed back, once |
| Server.Server.HandleGet | cmd/xdas/handler.go:44-99 | the reply is the specification's; exactly the conversions it gets to are counted; FindX is asked iff the id is missing and not suppressed, by one Add or one Reject of the upper-cased id |
| Server.Server.HandOver | cmd/xdas/handler.go:378-391 | a `pld` id that `pa` does not have is rejected by the FindX it is handed to, any other added |
| Server.Server.HandOverAll | cmd/xdas/handler.go:246-251 | each missing id goes to the FindX of its own keyspace, in order, and to no other |
| Server.Server.HandleMulti | cmd/xdas/handler.go:192-293 | the multi-GET in place; every FindX is what it was after exactly its own keyspace's missing ids |
| Server.Server.HandleAll | cmd/xdas/handler.go:44-391 | any sequence of PUT, GET, DEL and multi-GET requests gives the specified responses and leaves the specified Redis map, lifetimes, conversions, ids handed over and FindX states |
| Server.Serve | cmd/xdas/xdas.go:88-158 | from the registration of the counters through any requests: responses and state are the specification's, the Redis map is that of the store's run, the counters are the tally of the conversions, and each FindX has been told exactly its own keyspace's missing ids |
| Requests.AnswersRun | cmd/xdas/handler.go:44-314 | the Redis map after any requests is that of the store's run over their events |
| Requests.AnswersHand | cmd/xdas/handler.go:59-69 | after any requests each FindX is what it was after exactly the asks that name its keyspace, in order |
| Requests.LifetimesKept | cmd/xdas/handler.go:179-184 | an accepted PUT sets the lifetime of its own key, and nothing else sets any |
| Requests.GetServed | cmd/xdas/handler.go:44-99 | a GET of a regular keyspace hands its id over once iff it is answered 404 and `nofindx` is off, to be rejected iff it is `pld` and `pa` has no such id; it converts once iff it is answered 200 or 500 by converting; nothing else changes |
| Requests.PutServed | cmd/xdas/handler.go:121-190 | a PUT converts once iff it is accepted or answered 500 there, and hands nothing over |
| Requests.MultiServed | cmd/xdas/handler.go:192-391 | a multi-GET hands over its missing ids in order, each to be added or rejected, and converts what it finds |
| FindXAsks.OwnAsks | cmd/xdas/handler.go:378-391 | after any asks each FindX is what it was after exactly its own |
| FindXAsks.ToldAdds | cmd/xdas/handler.go:389 | asks that are not rejected are Adds of their ids, one after the other |
| FindXAsks.AsksCounted | cmd/xdas/handler.go:378-391 | a running FindX counts every ask once: as a rejection, or as an Add that succeeds or fails |
| Requests.ServedGet | cmd/xdas/handler.go:44-99 | in any sequence of requests a default GET is answered 404 iff nothing is there, and otherwise with what was last put, if at all |
| TTLs.SecondsHonouredIff | cmd/xdas/util.go:83-104 | a lifetime given in seconds is honoured iff it is within 9223372036 seconds either way |
| TTLs.LifetimeOf | cmd/xdas/util.go:83-104 | the lifetime of a PUT from its `Xttl` header in seconds or as a duration, else the keyspace's own, else a week |
| TTLs.PositiveUnlessAsked | cmd/xdas/util.go:87-104 | a lifetime that is not positive comes only from a header that parses; without one the keyspace's own holds where it is positive |
| TTLs.SecondsWrap | cmd/xdas/util.go:87-92 | 9223372037 seconds come out negative |
| BufferPool.StepKeeps | cmd/xdas/handler.go:143-182 | every step of every request keeps the ownership and content invariant |
| BufferPool.OneOwner | cmd/xdas/handler.go:143-182 | in every interleaving each buffer is in the pool or held by exactly one request, and a request's two buffers differ |
| BufferPool.WritesIntact | cmd/xdas/handler.go:143-184 | in every interleaving the bytes handed to Redis are the framed record prepared from the request exactly as delivered, copied or aliased |
| BufferPool.RunsThrough | cmd/xdas/handler.go:143-189 | an accepted request runs through in its own eight steps: exactly its framed record is handed to Redis and both buffers are back in the pool |
| BufferPool.RefusedReturns | cmd/xdas/handler.go:143-177 | a refused or unreadable one returns its buffer and writes nothing |
| BufferPool.OnlyAdmitted | cmd/xdas/handler.go:123-143 | only admitted requests take buffers |
| PutInterleaving.InterleavedPutsRefine | cmd/xdas/handler.go:121-190 | for any interleaving of PUTs over shared buffers, with other handlers' events in between, Redis represents the plain map in which every confirmed write is one whole PUT of what its client sent |
| FindXProtocol.StepKeeps | internal/findx/findx.go:85-166 | every atomic step keeps the conservation and wiring invariant |
| FindXProtocol.Conservation | internal/findx/findx.go:85-147 | sent = queued + held + finished = counted as added + about to be; every Add is accounted for; ids leave exactly once, in order; unfinished never exceed buffer plus workers |
| FindXProtocol.EachIdOnce | internal/findx/findx.go:85-147 | and id by id: each is queued, held or finished exactly as often as it was sent, and every finish is counted |
| FindXProtocol.FinishCounts | internal/findx/findx.go:94-134 | which one counter a finished id moves |
| FindXProtocol.BoundAttained | internal/findx/findx.go:61-79 | for every setting, buffer plus workers Adds can succeed before anything is finished |
| FindXCapacity.StartedAs | internal/findx/findx.go:50-82 | what Start makes of its settings: a buffer of the configured size or 128, the configured number of workers or 1, for its keyspace, everything else empty; nothing when it fails |
| FindXCapacity.AddsFillBuffer | internal/findx/findx.go:61-147 | on a FindX just started exactly as many Adds succeed as the buffer is configured for, the rest are refused, and the queue holds the first ones in order; one that did not start takes none |
| FindXCapacity.UntakenBound | internal/findx/findx.go:61-147 | in every interleaving in which no worker takes, an Add is refused iff as many ids were sent as the buffer is configured for |
| FindXCapacity.CrewBound | internal/findx/findx.go:64-79 | in every interleaving at most as many ids are held as workers are configured, and at most that many more than the buffer holds are unfinished |
| FindXCapacity.CrewAttained | internal/findx/findx.go:61-79 | both bounds are met together |
| FindXCapacity.StepAppends | internal/findx/findx.go:85-147 | a step sends at most its own Add's id, behind all others; takes at most the next one sent, for its own worker; finishes at most the one its own worker holds |
| FindXCapacity.Fifo | internal/findx/findx.go:85-147 | in every interleaving ids are dequeued in the order they were sent |
| FindXCapacity.AddCounts | internal/findx/findx.go:137-155 | which counter an Add or a rejection moves |
| FindXCapacity.RejectionsCounted | internal/findx/findx.go:149-155 | in every interleaving the rejections counted are those made while enabled |
| FindXCapacity.KeyspaceStays | internal/findx/findx.go:69-72 | the keyspace that chooses the worker's loop never changes |
| FindXCapacity.FlagsAgree | internal/findx/findx.go:50-166 | the public and the private flag agree in every interleaving |
| FindXShutdown.OrderlyNeverPanics | internal/findx/findx.go:137-166 | if no Close passes its check while another is under way, and none clears the flags while an Add is between its check and its send, nothing is sent on the closed channel and it is not closed twice |
| FindXShutdown.DisorderlyCanPanic | internal/findx/findx.go:137-166 | from any state with such an Add, a Close past its check can be followed by a panic |
| FindXShutdown.OverlappingClosesCanPanic | internal/findx/findx.go:158-166 | from any state with two Closes past their checks, a panic can follow |
| FindXShutdown.CloseSafeIff | internal/findx/findx.go:136-166 | when a Close clears the flags: no interleaving panics iff no Add is between its check and its send and no other Close is under way |
| FindXShutdown.CloseCanPanic | internal/findx/findx.go:136-166 | for every setting, an Add and a Close, or two Closes, can pass their checks together, and a panic can follow |
| FindXShutdown.DrainBounded | internal/findx/findx.go:85-105 | after the channel is closed the number of worker steps is bounded, in any interleaving |
| FindXShutdown.DrainProgresses | internal/findx/findx.go:85-105 | and a live worker always has a step to take |
| FindXShutdown.CloseDrains | internal/findx/findx.go:158-166 | Close returns iff all workers have exited; then the queue is empty and everything sent is dequeued and finished |
| FindXShutdown.ExitedMeansFinished | internal/findx/findx.go:85-166 | when the workers have exited, the finished ids are the sent ids, each as often |
| FindXShutdown.CloseCountsAgreeIff | internal/findx/findx.go:136-166 | when a Close clears the flags: added equals finished at its return in every interleaving iff every Add under way has been refused; otherwise an orderly run ends with added behind |
| FindXShutdown.CloseCanTrail | internal/findx/findx.go:136-166 | for every setting an orderly run ends with Close returned, one id finished and none counted as added |
| FindXShutdown.SecondCloseIdle | internal/findx/findx.go:158-161 | once disabled, or never started, every further Close does nothing |
| FindXService.FindX.Start | internal/findx/findx.go:50-82 | the state `StartedAs` describes, both failures, and nothing after a Close or a failed Start |
| FindXService.FindX.Add | internal/findx/findx.go:137-147 | the uninterrupted path through the protocol, keeping the invariant |
| FindXService.FindX.Reject | internal/findx/findx.go:149-155 | one more rejection while enabled, nothing otherwise |
| FindXService.FindX.RunWorker | internal/findx/findx.go:85-134 | a worker, from wherever it stands, finishes the id it holds and all queued ones, in order, each counted by its outcome, and exits iff the channel is closed |
| FindXService.FindX.Close | internal/findx/findx.go:158-166 | with no Add under way, whatever the workers hold and in whatever order they step: afterwards the queue is empty, all workers have exited and added equals finished; a disabled object is untouched |

## Left out

- HTTP routing, TLS, configuration and flag parsing, logging, health and version handlers: plumbing.
- Content-length, reply bodies of errors and of successful writes: no property here depends on them.
- Atomic increments: their keyspaces' keys may take any value in a run; the increment itself is not modelled, and the store theorems speak of the other keyspaces.
- Key setup of the cipher (`NewAesGCM`) and the choice among cipher types: one key, fixed for the run.
- Redis writes that time out after taking effect, retries and clustering: an unconfirmed write has no effect.
- Requests to FindX that fail to be built.
- ConversionMetrics.InitAndConvertAll: the counters are unbounded naturals; the 64-bit wrap-around is not modelled. The same goes for the FindX counters.
- ConversionMetrics.Convert: a conversion to be counted in a keyspace without counters is excluded, because the program would dereference the `unknown` record it never assigns.
- FindXShutdown.OrderlyNeverPanics: that shutdown establishes the discipline is a hypothesis; the 30-second limit and the `pld` goroutine can break it.
- FindXService.FindX.Start: starting a running FindX again, which would leave the old workers on a channel nobody closes.
- FindXService.FindX.Close: Adds and other Closes under way are covered by `FindXShutdown`.
- TTLs.TTLFor: entries expire at any time in a run, whatever lifetime was asked for.
- Server.Server.HandleGet: the goroutine in which a `pld` id is looked up; it is handed over before the reply.
- Server.Serve: requests are handled one after the other; PUTs that interleave are covered by `PutInterleaving`. Atomic increments are events of the store but not requests here.
- Handlers.Put: the reply of a PUT that Redis refuses is the error alone, without the error counters.
