/** Over any run, the byte-level Redis map behaves like a plain map from
    (keyspace, upper-cased id) to the last content put there. */
module StoreRefinement {
  import opened Prelude
  import opened MagicBytes
  import opened RedisCrypto
  import opened Conversion
  import opened RedisKeys
  import opened KeyspaceConfigs
  import opened Handlers

  /** One step of a run. Expiry removes any one key; an atomic keyspace's keys may
      be overwritten with anything by the increment endpoint. */
  datatype Event =
    | PutEvent(req: PutRequest, rnd: Option<Nonce>, up: bool)
    | GetEvent(ks: string, id: string, format: string, up: bool)
    | DelEvent(ks: string, id: string, up: bool)
    | ExpireEvent(key: string)
    | AtomicEvent(ks: string, id: string, value: Bytes)

  function Step<F>(s: Service<F>, redis: Redis, e: Event): Redis {
    match e
    case PutEvent(req, rnd, up) => Put(s, redis, req, rnd, up).1
    case GetEvent(ks, id, format, up) => redis
    case DelEvent(ks, id, up) => Del(s, redis, ks, id, up).1
    case ExpireEvent(key) => redis - {key}
    case AtomicEvent(ks, id, value) =>
      if ks in s.keyspaces && s.keyspaces[ks].kind == KSAtomic
      then redis[RedisKey(ks, s.upper(id)) := value]
      else redis
  }

  /** A run of events from what Redis holds when the server starts. */
  function Run<F>(s: Service<F>, redis: Redis, es: seq<Event>): Redis {
    if es == [] then redis else Step(s, Run(s, redis, es[..|es| - 1]), es[|es| - 1])
  }

  /** The plain map: each entry is a request body under the label its headers gave it. */
  type Contents = map<(string, string), Record>

  function Submitted(req: PutRequest): Record
    requires req.body.Body?
  {
    Record(FromHeaders(req.headers), req.body.data)
  }

  /** The PUT is answered with success; its reply does not depend on what is stored. */
  predicate Succeeds<F>(s: Service<F>, req: PutRequest, rnd: Option<Nonce>, up: bool) {
    req.body.Body? && Put(s, map[], req, rnd, up).0.status == OK
  }

  function SpecStep<F>(s: Service<F>, a: Contents, e: Event): Contents {
    match e
    case PutEvent(req, rnd, up) =>
      if Succeeds(s, req, rnd, up) then a[(req.keyspace, s.upper(req.id)) := Submitted(req)] else a
    case GetEvent(ks, id, format, up) => a
    case DelEvent(ks, id, up) =>
      if up && ks in s.keyspaces then a - {(ks, s.upper(id))} else a
    case ExpireEvent(key) => map p | p in a && RedisKey(p.0, p.1) != key :: a[p]
    case AtomicEvent(ks, id, value) => a
  }

  function SpecRun<F>(s: Service<F>, a: Contents, es: seq<Event>): Contents {
    if es == [] then a else SpecStep(s, SpecRun(s, a, es[..|es| - 1]), es[|es| - 1])
  }

  // ---- the refinement relation

  /** A stored value is a well-formed record in the keyspace's store format that
      still says what was put. */
  ghost predicate StoredAs<F(!new)>(s: Service<F>, ks: string, value: Bytes, put: Record)
    requires ks in s.keyspaces
  {
    && put.mb.Named() && put.mb.encryption == 0
    && |value| >= 1 && value[0] & 0x80 == 0
    && var r := ParseResult(value).value;
       && r.mb == Resolve(put.mb, s.keyspaces[ks].store)
       && Preserves(s.codec, ks, r, put)
       && (s.validateContent ==> Unpack(s.codec, ks, put).Ok?)
  }

  ghost predicate Regular<F(!new)>(s: Service<F>, ks: string) {
    ks in s.keyspaces && s.keyspaces[ks].kind != KSAtomic
  }

  ghost predicate Refines<F(!new)>(s: Service<F>, redis: Redis, a: Contents) {
    forall ks: string, id: string :: Regular(s, ks) ==>
      && (RedisKey(ks, id) in redis <==> (ks, id) in a)
      && ((ks, id) in a ==> StoredAs(s, ks, redis[RedisKey(ks, id)], a[(ks, id)]))
  }

  /** The assumptions on the deployment: lawful codec, validated keyspaces, and
      keyspace names whose keys cannot be confused. */
  ghost predicate Deployed<F(!new)>(s: Service<F>) {
    Lawful(s.codec) && Validated(s) && Separated(s.keyspaces.Keys)
  }

  lemma DistinctKeys<F(!new)>(s: Service<F>, k1: string, id1: string, k2: string, id2: string)
    requires Separated(s.keyspaces.Keys) && k1 in s.keyspaces && k2 in s.keyspaces
    requires (k1, id1) != (k2, id2)
    ensures RedisKey(k1, id1) != RedisKey(k2, id2)
  {
    if RedisKey(k1, id1) == RedisKey(k2, id2) {
      SameKey(k1, id1, k2, id2);
    }
  }

  /** What a successful PUT writes. */
  lemma PutStores<F(!new)>(s: Service<F>, req: PutRequest, rnd: Option<Nonce>)
    requires Lawful(s.codec) && Validated(s)
    requires PreparePut(s, req, rnd).Accept?
    ensures req.keyspace in s.keyspaces && req.body.Body?
    ensures StoredAs(s, req.keyspace, Frame(PreparePut(s, req, rnd).record), Submitted(req))
  {
    var r := Submitted(req);
    var conf := s.keyspaces[req.keyspace];
    var out := PreparePut(s, req, rnd).record;
    ConvertPreserves(s.codec, req.keyspace, r, conf.store, rnd);
    assert out.mb.InRange();
    ParseFrame(out);
  }

  lemma PutRefines<F(!new)>(s: Service<F>, redis: Redis, a: Contents, e: Event)
    requires Deployed(s) && Refines(s, redis, a) && e.PutEvent?
    ensures Refines(s, Step(s, redis, e), SpecStep(s, a, e))
  {
    if Succeeds(s, e.req, e.rnd, e.up) {
      PutStores(s, e.req, e.rnd);
      var k0, id0 := e.req.keyspace, s.upper(e.req.id);
      forall ks: string, id: string | Regular(s, ks) && (ks, id) != (k0, id0)
        ensures RedisKey(ks, id) != RedisKey(k0, id0)
      {
        DistinctKeys(s, ks, id, k0, id0);
      }
    }
  }

  lemma DelRefines<F(!new)>(s: Service<F>, redis: Redis, a: Contents, e: Event)
    requires Deployed(s) && Refines(s, redis, a) && e.DelEvent?
    ensures Refines(s, Step(s, redis, e), SpecStep(s, a, e))
  {
    if e.up && e.ks in s.keyspaces {
      var k0, id0 := e.ks, s.upper(e.id);
      assert Step(s, redis, e) == redis - {RedisKey(k0, id0)};
      forall ks: string, id: string | Regular(s, ks) && (ks, id) != (k0, id0)
        ensures RedisKey(ks, id) != RedisKey(k0, id0)
      {
        DistinctKeys(s, ks, id, k0, id0);
      }
    }
  }

  lemma AtomicRefines<F(!new)>(s: Service<F>, redis: Redis, a: Contents, e: Event)
    requires Deployed(s) && Refines(s, redis, a) && e.AtomicEvent?
    ensures Refines(s, Step(s, redis, e), SpecStep(s, a, e))
  {
    if e.ks in s.keyspaces && s.keyspaces[e.ks].kind == KSAtomic {
      forall ks: string, id: string | Regular(s, ks)
        ensures RedisKey(ks, id) != RedisKey(e.ks, s.upper(e.id))
      {
        DistinctKeys(s, ks, id, e.ks, s.upper(e.id));
      }
    }
  }

  lemma StepRefines<F(!new)>(s: Service<F>, redis: Redis, a: Contents, e: Event)
    requires Deployed(s) && Refines(s, redis, a)
    ensures Refines(s, Step(s, redis, e), SpecStep(s, a, e))
  {
    match e
    case PutEvent(_, _, _) => PutRefines(s, redis, a, e);
    case GetEvent(_, _, _, _) =>
    case DelEvent(_, _, _) => DelRefines(s, redis, a, e);
    case ExpireEvent(_) =>
    case AtomicEvent(_, _, _) => AtomicRefines(s, redis, a, e);
  }

  /** Refinement over whole runs, from any Redis map that represents a plain one: the
      empty one, or what an earlier run left behind. */
  lemma {:induction false} RunRefines<F(!new)>(s: Service<F>, redis: Redis, a: Contents, es: seq<Event>)
    requires Deployed(s) && Refines(s, redis, a)
    ensures Refines(s, Run(s, redis, es), SpecRun(s, a, es))
  {
    if es != [] {
      RunRefines(s, redis, a, es[..|es| - 1]);
      StepRefines(s, Run(s, redis, es[..|es| - 1]), SpecRun(s, a, es[..|es| - 1]), es[|es| - 1]);
    }
  }

  lemma EmptyRefines<F(!new)>(s: Service<F>)
    ensures Refines(s, map[], map[])
  {
  }

  /** Some run, from a Redis map that represents a plain one, leads to this Redis map
      and leaves these contents. */
  ghost predicate Reached<F(!new)>(s: Service<F>, redis: Redis, a: Contents) {
    exists redis0, a0, es :: Refines(s, redis0, a0) && Run(s, redis0, es) == redis && SpecRun(s, a0, es) == a
  }

  lemma ReachedRefines<F(!new)>(s: Service<F>, redis: Redis, a: Contents)
    requires Deployed(s) && Reached(s, redis, a)
    ensures Refines(s, redis, a)
  {
    var redis0, a0, es :| Refines(s, redis0, a0) && Run(s, redis0, es) == redis && SpecRun(s, a0, es) == a;
    RunRefines(s, redis0, a0, es);
  }

  // ---- what a client observes

  /** A reply read back as its headers describe it. */
  function Received(reply: Reply): Record {
    Record(FromHeaders(reply.headers), reply.body)
  }

  lemma ReceivedIs(mb: MagicByte, data: Bytes)
    requires mb.Named() && mb.encryption == 0
    ensures Received(Reply(OK, SetContentHeaders(mb, map[]), data)) == Record(mb, data)
  {
  }

  /** A successful non-raw reply is the conversion of the stored record: plaintext,
      and labelled by its headers as it was converted. */
  lemma RenderConverts<F(!new)>(s: Service<F>, ks: string, value: Bytes, format: string, r: Record, target: MagicByte)
    requires Validated(s) && ks in s.keyspaces && ParseResult(value) == Some(r) && r.mb.Named()
    requires format != "raw" && Target(s.keyspaces[ks], format) == Some(target)
    requires Render(s, ks, value, format).status == OK
    ensures Convert(s.codec, ks, r, target, None) == Converted(Received(Render(s, ks, value, format)), None)
    ensures var mb := Received(Render(s, ks, value, format)).mb;
            mb == Resolve(r.mb, target) && mb.Named() && mb.encryption == 0
  {
    var out := Convert(s.codec, ks, r, target, None).record;
    ReceivedIs(out.mb, out.data);
  }

  /** And it says what was put. */
  lemma RenderSays<F(!new)>(s: Service<F>, ks: string, value: Bytes, put: Record, format: string)
    requires Deployed(s) && ks in s.keyspaces && StoredAs(s, ks, value, put)
    requires format != "raw" && Render(s, ks, value, format).status == OK
    ensures var got := Received(Render(s, ks, value, format));
            && got.mb.Named() && got.mb.encryption == 0
            && MeaningOf(s.codec, ks, got) == MeaningOf(s.codec, ks, put)
  {
    var r, target := ParseResult(value).value, Target(s.keyspaces[ks], format).value;
    RenderConverts(s, ks, value, format, r, target);
    ConvertPreserves(s.codec, ks, r, target, None);
  }

  /** Input, store and output formats agree for a submitted record. */
  predicate FormatsAgree(conf: Keyspace, put: Record) {
    && put.mb.cev == conf.store.cev == conf.output.cev
    && conf.store.ctv in {0, put.mb.ctv} && conf.output.ctv in {0, put.mb.ctv}
  }

  /** Where the formats agree the default reply exists and is the submitted body,
      byte for byte; encryption at rest does not show. */
  lemma RenderIdentical<F(!new)>(s: Service<F>, ks: string, value: Bytes, put: Record)
    requires Deployed(s) && ks in s.keyspaces && StoredAs(s, ks, value, put)
    requires FormatsAgree(s.keyspaces[ks], put)
    ensures Render(s, ks, value, "").status == OK
    ensures Render(s, ks, value, "").body == put.data
  {
  }

  /** The raw format gives the stored bytes back, magic byte included. */
  lemma RenderRaw<F(!new)>(s: Service<F>, ks: string, value: Bytes)
    requires ks in s.keyspaces && |value| >= 1
    ensures Render(s, ks, value, "raw").status == OK
    ensures Render(s, ks, value, "raw").body == value <==> value[0] & 0x80 == 0
  {
  }

  /** After any run: GET misses exactly what was never put, or was deleted or expired
      since; a default reply means what the last successful PUT submitted, and repeats
      its body where the formats agree; a raw reply is the stored value. */
  lemma GetAfterRun<F(!new)>(s: Service<F>, redis: Redis, a: Contents, ks: string, id: string)
    requires Deployed(s) && Reached(s, redis, a) && Regular(s, ks)
    ensures var p := (ks, s.upper(id)); var conf := s.keyspaces[ks];
            var reply := Get(s, redis, ks, id, "", true);
            var raw := Get(s, redis, ks, id, "raw", true);
            && (reply.status == NOT_FOUND <==> p !in a)
            && (reply.status == OK ==>
                  && p in a && MeaningOf(s.codec, ks, Received(reply)) == MeaningOf(s.codec, ks, a[p])
                  && Received(reply).mb.cev == conf.output.cev && conf.output.ctv in {0, Received(reply).mb.ctv})
            && (p in a && FormatsAgree(conf, a[p]) ==> reply.status == OK && reply.body == a[p].data)
            && (p in a ==> RedisKey(ks, p.1) in redis && raw.status == OK && raw.body == redis[RedisKey(ks, p.1)])
  {
    ReachedRefines(s, redis, a);
    var p, key := (ks, s.upper(id)), RedisKey(ks, s.upper(id));
    assert key in redis <==> p in a;
    if p in a {
      assert StoredAs(s, ks, redis[key], a[p]);
      RenderRaw(s, ks, redis[key]);
      if Render(s, ks, redis[key], "").status == OK {
        RenderSays(s, ks, redis[key], a[p], "");
        RenderConverts(s, ks, redis[key], "", ParseResult(redis[key]).value, s.keyspaces[ks].output);
      }
      if FormatsAgree(s.keyspaces[ks], a[p]) {
        RenderIdentical(s, ks, redis[key], a[p]);
      }
    }
  }

  /** Every record in a regular keyspace, after any run: reserved bit clear,
      encryption as configured, the store's encoding, and the store's type or, when
      that is open, the type of the last successful PUT. */
  lemma RecordsWellFormed<F(!new)>(s: Service<F>, redis: Redis, a: Contents, ks: string, id: string)
    requires Deployed(s) && Reached(s, redis, a) && Regular(s, ks) && RedisKey(ks, id) in redis
    ensures (ks, id) in a
    ensures var value := redis[RedisKey(ks, id)]; var store := s.keyspaces[ks].store;
            && ParseResult(value).Some? && value[0] & 0x80 == 0
            && var mb := ParseResult(value).value.mb;
               && mb.encryption == s.encryption && mb.cev == store.cev
               && mb.ctv == (if store.ctv == 0 then a[(ks, id)].mb.ctv else store.ctv)
  {
    ReachedRefines(s, redis, a);
    assert (ks, id) in a;
    assert StoredAs(s, ks, redis[RedisKey(ks, id)], a[(ks, id)]);
  }

  // ---- readability

  /** A known non-raw format is answered exactly when the stored record decodes as far
      as the first field that format changes. */
  lemma RendersIff<F(!new)>(s: Service<F>, ks: string, value: Bytes, format: string)
    requires Validated(s) && MarshalsAll(s.codec) && ks in s.keyspaces && ParseResult(value).Some?
    requires format != "raw" && Target(s.keyspaces[ks], format).Some?
    ensures var r := ParseResult(value).value;
            Render(s, ks, value, format).status == OK
            <==> Reaches(s.codec, ks, r, Resolve(r.mb, Target(s.keyspaces[ks], format).value))
  {
    var r := ParseResult(value).value;
    var target := Target(s.keyspaces[ks], format).value;
    ConvertSucceedsWhen(s.codec, ks, r, target, None);
    ConvertSucceedsWhen(s.codec, ks, r, target, Some(seq(NONCE_SIZE, _ => 0)));
  }

  /** Given a nonce, a PUT is accepted exactly when its keyspace is configured and takes
      its label, its body was read, its content can reach the store format and, where
      content is validated or the store is to hold it uncompressed, is a message. */
  lemma PutAcceptedIff<F(!new)>(s: Service<F>, req: PutRequest, nonce: Nonce)
    requires MarshalsAll(s.codec)
    ensures PreparePut(s, req, Some(nonce)).Accept? <==>
              && req.keyspace in s.keyspaces && req.body.Body?
              && var r := Submitted(req); var conf := s.keyspaces[req.keyspace];
                 && conf.input.cev in {0, r.mb.cev} && conf.input.ctv in {0, r.mb.ctv}
                 && Reaches(s.codec, req.keyspace, r, Resolve(r.mb, conf.store))
                 && (s.validateContent || (conf.store.cev == 0 && r.mb.cev != 0) ==>
                       Unpack(s.codec, req.keyspace, r).Ok?)
  {
    if req.keyspace in s.keyspaces && req.body.Body? {
      ConvertSucceedsWhen(s.codec, req.keyspace, Submitted(req), s.keyspaces[req.keyspace].store, Some(nonce));
    }
  }

  /** Whether what was submitted can be had back under a label: as far as that label
      differs from the one it is stored under, what was submitted decodes and the label's
      encoding can be written. */
  predicate Readable<F>(s: Service<F>, ks: string, put: Record, target: MagicByte)
    requires ks in s.keyspaces
  {
    var stored := Resolve(put.mb, s.keyspaces[ks].store);
    var out := Resolve(stored, target);
    if out.ctv != stored.ctv then out.cev <= CONTENT_ENCODING_ZSTD && Unpack(s.codec, ks, put).Ok?
    else out.cev != stored.cev ==> out.cev <= CONTENT_ENCODING_ZSTD && Payload(s.codec, put).Ok?
  }

  /** What was submitted unencrypted is stored in a form that decrypts. */
  lemma StoredOpens<F(!new)>(s: Service<F>, ks: string, value: Bytes, put: Record)
    requires ks in s.keyspaces && StoredAs(s, ks, value, put)
    ensures ParseResult(value).Some? && Plaintext(s.codec, ParseResult(value).value).Ok?
  {
    assert Plaintext(s.codec, put).Ok? && !MeaningOf(s.codec, ks, put).Sealed?;
  }

  /** So a stored record is answered in a format exactly when what was submitted is
      readable under the label of that format. */
  lemma StoredRendersIff<F(!new)>(s: Service<F>, ks: string, value: Bytes, put: Record, format: string)
    requires Deployed(s) && MarshalsAll(s.codec) && ks in s.keyspaces && StoredAs(s, ks, value, put)
    requires format != "raw" && Target(s.keyspaces[ks], format).Some?
    ensures Render(s, ks, value, format).status == OK
       <==> Readable(s, ks, put, Target(s.keyspaces[ks], format).value)
  {
    StoredOpens(s, ks, value, put);
    var r := ParseResult(value).value;
    DecodesTogether(s.codec, ks, r, put);
    RendersIff(s, ks, value, format);
    TargetWritable(s, ks, format);
  }

  lemma TargetWritable<F(!new)>(s: Service<F>, ks: string, format: string)
    requires Validated(s) && ks in s.keyspaces && Target(s.keyspaces[ks], format).Some?
    ensures var target := Target(s.keyspaces[ks], format).value;
            target.encryption == 0 && target.ctv in {0, CONTENT_TYPE_JSON, CONTENT_TYPE_PROTOBUF}
  {
  }

  /** After any run, when a GET answers, from what was submitted alone. */
  lemma GetAnswersIff<F(!new)>(s: Service<F>, redis: Redis, a: Contents, ks: string, id: string, format: string)
    requires Deployed(s) && MarshalsAll(s.codec) && Reached(s, redis, a) && Regular(s, ks) && format != "raw"
    ensures var p := (ks, s.upper(id)); var target := Target(s.keyspaces[ks], format);
            Get(s, redis, ks, id, format, true).status == OK
            <==> p in a && target.Some? && Readable(s, ks, a[p], target.value)
  {
    ReachedRefines(s, redis, a);
    var p, key := (ks, s.upper(id)), RedisKey(ks, s.upper(id));
    assert key in redis <==> p in a;
    if p in a {
      assert StoredAs(s, ks, redis[key], a[p]);
      if Target(s.keyspaces[ks], format).Some? {
        StoredRendersIff(s, ks, redis[key], a[p], format);
      }
    }
  }

  /** With content validation on, whatever was put converts to every format: the
      stored type is JSON or protobuf and the stored encoding none or zstd. Only an
      output encoding of zlib cannot be produced. */
  lemma ValidatedRenders<F(!new)>(s: Service<F>, ks: string, value: Bytes, put: Record, format: string)
    requires Deployed(s) && MarshalsAll(s.codec) && s.validateContent
    requires ks in s.keyspaces && StoredAs(s, ks, value, put)
    requires format != "raw" && Target(s.keyspaces[ks], format).Some?
    ensures ParseResult(value).value.mb.ctv in {CONTENT_TYPE_JSON, CONTENT_TYPE_PROTOBUF}
    ensures ParseResult(value).value.mb.cev in {CONTENT_ENCODING_NONE, CONTENT_ENCODING_ZSTD}
    ensures Render(s, ks, value, format).status == OK
       <==> Target(s.keyspaces[ks], format).value.cev != CONTENT_ENCODING_ZLIB
  {
    DecodesTogether(s.codec, ks, ParseResult(value).value, put);
    RendersIff(s, ks, value, format);
  }

  /** The label `format=json` and `format=protobuf` ask for: that type, uncompressed. */
  function Plain(format: string): MagicByte {
    MagicByte(0, if format == "json" then CONTENT_TYPE_JSON else CONTENT_TYPE_PROTOBUF, 0)
  }

  /** After any run with content validation on, `format=json` and `format=protobuf`
      always answer for what is stored, with that type uncompressed and the message
      last put; the default format answers exactly when its encoding is not zlib. */
  lemma ValidatedStaysReadable<F(!new)>(
    s: Service<F>, redis: Redis, a: Contents, ks: string, id: string, format: string)
    requires Deployed(s) && Reached(s, redis, a) && MarshalsAll(s.codec) && s.validateContent && Regular(s, ks)
    requires (ks, s.upper(id)) in a && (format == "json" || format == "protobuf")
    ensures var reply := Get(s, redis, ks, id, format, true);
            && reply.status == OK && Received(reply).mb == Plain(format)
            && MeaningOf(s.codec, ks, Received(reply)) == MeaningOf(s.codec, ks, a[(ks, s.upper(id))])
            && MeaningOf(s.codec, ks, Received(reply)).Known?
    ensures Get(s, redis, ks, id, "", true).status == OK <==> s.keyspaces[ks].output.cev != CONTENT_ENCODING_ZLIB
  {
    ReachedRefines(s, redis, a);
    var key := RedisKey(ks, s.upper(id));
    var value, put := redis[key], a[(ks, s.upper(id))];
    assert StoredAs(s, ks, value, put);
    assert ContentTypeCode("json") == CONTENT_TYPE_JSON && ContentTypeCode("protobuf") == CONTENT_TYPE_PROTOBUF;
    assert Target(s.keyspaces[ks], format) == Some(Plain(format));
    ValidatedRenders(s, ks, value, put, format);
    ValidatedRenders(s, ks, value, put, "");
    RenderConverts(s, ks, value, format, ParseResult(value).value, Plain(format));
    RenderSays(s, ks, value, put, format);
  }

  /** What the store guard of the configuration misses: where the store type's text
      means unknown but an output type is named, content put with an unknown type is
      accepted and then never readable in the default format. */
  lemma UnknownTypeUnreadable<F(!new)>(s: Service<F>, ks: string, value: Bytes, put: Record)
    requires ks in s.keyspaces && StoredAs(s, ks, value, put)
    requires s.keyspaces[ks].store.ctv == CONTENT_TYPE_UNKNOWN && put.mb.ctv == CONTENT_TYPE_UNKNOWN
    ensures Render(s, ks, value, "").status == OK ==> s.keyspaces[ks].output.ctv == CONTENT_TYPE_UNKNOWN
  {
  }

  /** A configuration with that gap. */
  function GapFormats(encryption: bv8): Formats {
    var none := MagicByte(0, 0, 0);
    Inherit(Formats(KeyspaceFormat("", "", none),
                    KeyspaceFormat("application/octet-stream", "", none),
                    KeyspaceFormat("json", "", none)), encryption)
  }

  /** The store's type is unknown there, the output's is not. */
  lemma UnknownTypeGap(encryption: bv8)
    ensures var none := MagicByte(0, 0, 0); var json := MagicByte(0, CONTENT_TYPE_JSON, 0);
            KeyspaceOf(GapFormats(encryption), KSString) == Keyspace(none, MagicByte(0, 0, encryption), json, KSString)
  {
    assert ContentTypeCode("json") == CONTENT_TYPE_JSON;
  }

  /** And it shows: in such a keyspace any untyped body is accepted, and the default GET
      that follows answers 500. */
  lemma UnknownTypeRun<F>(s: Service<F>, redis: Redis, ks: string, id: string, data: Bytes, nonce: Nonce)
    requires ks in s.keyspaces && s.encryption <= 1 && !s.validateContent
    requires s.keyspaces[ks] == KeyspaceOf(GapFormats(s.encryption), KSString)
    ensures var put := Put(s, redis, PutRequest(ks, id, map[], Body(data)), Some(nonce), true);
            put.0.status == OK && Get(s, put.1, ks, id, "", true).status == SERVER_ERROR
  {
    UnknownTypeGap(s.encryption);
    var req := PutRequest(ks, id, map[], Body(data));
    assert FromHeaders(req.headers) == MagicByte(0, 0, 0);
    var out := PreparePut(s, req, Some(nonce));
    assert out.Accept? && out.record.mb == MagicByte(0, 0, s.encryption);
    ParseFrame(out.record);
  }

  // ---- relaying

  /** Two keyspaces read the same bytes as the same messages. */
  ghost predicate SameSchema<F(!new)>(c: Codec<F>, k1: string, k2: string) {
    && (k1 in c.registry <==> k2 in c.registry)
    && forall ctv: bv8, data: Bytes :: Unmarshal(c, k1, ctv, data) == Unmarshal(c, k2, ctv, data)
  }

  lemma SameSchemaSameMeaning<F(!new)>(c: Codec<F>, k1: string, k2: string, r: Record)
    requires SameSchema(c, k1, k2)
    ensures MeaningOf(c, k1, r) == MeaningOf(c, k2, r)
  {
  }

  lemma ReachedByPut<F(!new)>(s: Service<F>, redis: Redis, a: Contents, req: PutRequest, rnd: Option<Nonce>, up: bool)
    requires Reached(s, redis, a)
    ensures Reached(s, Put(s, redis, req, rnd, up).1, SpecStep(s, a, PutEvent(req, rnd, up)))
  {
    var redis0, a0, es :| Refines(s, redis0, a0) && Run(s, redis0, es) == redis && SpecRun(s, a0, es) == a;
    var e := PutEvent(req, rnd, up);
    assert (es + [e])[..|es|] == es;
    assert Run(s, redis0, es + [e]) == Put(s, redis, req, rnd, up).1 && SpecRun(s, a0, es + [e]) == SpecStep(s, a, e);
  }

  /** A client that puts a GET reply, with its headers, into a keyspace of the same
      schema reads the original meaning there, when that PUT and GET succeed. */
  lemma RelayKeepsMeaning<F(!new)>(
    s: Service<F>, redis: Redis, a: Contents, k1: string, id1: string, format: string,
    k2: string, id2: string, rnd: Option<Nonce>)
    requires Deployed(s) && Reached(s, redis, a) && Regular(s, k1) && Regular(s, k2)
    ensures var reply := Get(s, redis, k1, id1, format, true);
            var relay := PutRequest(k2, id2, reply.headers, Body(reply.body));
            var put := Put(s, redis, relay, rnd, true);
            var again := Get(s, put.1, k2, id2, "", true);
            SameSchema(s.codec, k1, k2) && format != "raw"
            && reply.status == OK && put.0.status == OK && again.status == OK ==>
              && (k1, s.upper(id1)) in a
              && MeaningOf(s.codec, k2, Received(again)) == MeaningOf(s.codec, k1, a[(k1, s.upper(id1))])
  {
    var reply := Get(s, redis, k1, id1, format, true);
    var relay := PutRequest(k2, id2, reply.headers, Body(reply.body));
    if SameSchema(s.codec, k1, k2) && format != "raw"
       && reply.status == OK && Put(s, redis, relay, rnd, true).0.status == OK {
      ReachedRefines(s, redis, a);
      var key, p := RedisKey(k1, s.upper(id1)), (k1, s.upper(id1));
      assert key in redis <==> p in a;
      assert StoredAs(s, k1, redis[key], a[p]);
      RenderSays(s, k1, redis[key], a[p], format);
      ReachedByPut(s, redis, a, relay, rnd, true);
      var stored, contents := Put(s, redis, relay, rnd, true).1, SpecStep(s, a, PutEvent(relay, rnd, true));
      assert contents[(k2, s.upper(id2))] == Received(reply);
      GetAfterRun(s, stored, contents, k2, id2);
      SameSchemaSameMeaning(s.codec, k1, k2, Received(reply));
    }
  }
}
