/** A reader of bodies and of stored values that knows only the texts, the bits and the
    codec: what the store's results mean to a client or to whoever opens Redis. */
module Reading {
  import opened Prelude
  import opened MagicBytes
  import opened RedisCrypto
  import opened Conversion
  import opened RedisKeys
  import opened KeyspaceConfigs
  import opened Handlers
  import opened StoreRefinement

  // ---- the reader

  /** The payload of plain data in an encoding: 0 is none, 1 is zstd, nothing else is
      read. */
  function PayloadAs<F>(c: Codec<F>, encoding: bv8, plain: Bytes): Option<Bytes> {
    if encoding == 0 then Some(plain)
    else if encoding == 1 then c.zstdDecode(plain)
    else None
  }

  function KnownFields<F>(m: Option<Message<F>>): Option<F> {
    if m.Some? then Some(m.value.known) else None
  }

  /** The message in plain data: type 1 is JSON, 2 protobuf, nothing else is read. */
  function ReadAs<F>(c: Codec<F>, ks: string, contentType: bv8, encoding: bv8, plain: Bytes): Option<F> {
    var payload := PayloadAs(c, encoding, plain);
    if ks !in c.registry || payload.None? then None
    else if contentType == 1 then KnownFields(c.unmarshalJson(ks, payload.value))
    else if contentType == 2 then KnownFields(c.unmarshalProto(ks, payload.value))
    else None
  }

  /** The text of a header, or the empty one. */
  function Text(headers: map<string, string>, name: string): string {
    if name in headers then headers[name] else ""
  }

  function TypeCode(text: string): bv8 {
    if text == "application/json" || text == "json" then 1
    else if text == "application/x-protobuf" || text == "application/vnd.google.protobuf" || text == "protobuf" then 2
    else 0
  }

  function EncodingCode(text: string): bv8 {
    if text == "zstd" then 1 else if text == "zlib" then 2 else 0
  }

  function TypeOf(headers: map<string, string>): bv8 {
    TypeCode(Text(headers, "Content-Type"))
  }

  function EncodingOf(headers: map<string, string>): bv8 {
    EncodingCode(Text(headers, "Content-Encoding"))
  }

  /** What a body says by its headers. */
  function ReadBody<F>(c: Codec<F>, ks: string, headers: map<string, string>, body: Bytes): Option<F> {
    ReadAs(c, ks, TypeOf(headers), EncodingOf(headers), body)
  }

  /** The plaintext of data under an encryption: 0 is none, 1 is sealed behind its nonce. */
  function OpenAs<F>(c: Codec<F>, encryption: bv8, data: Bytes): Option<Bytes> {
    if encryption == 0 then Some(data)
    else if encryption == 1 && |data| >= 28 then c.aead.open(data[..12], data[12..])
    else None
  }

  /** What a stored value says by its first byte: bits 0-1 encoding, 2-4 type, 5-6
      encryption. */
  function ReadStored<F>(c: Codec<F>, ks: string, value: Bytes): Option<F> {
    if value == [] then None
    else
      var plain := OpenAs(c, (value[0] >> 5) & 3, value[1..]);
      if plain.None? then None else ReadAs(c, ks, (value[0] >> 2) & 7, value[0] & 3, plain.value)
  }

  // ---- the stages, as the reader sees them

  lemma HeadersRead(headers: map<string, string>)
    ensures FromHeaders(headers) == MagicByte(EncodingOf(headers), TypeOf(headers), 0)
  {
  }

  function Got<T>(r: Result<T>): Option<T> {
    match r
    case Ok(v) => Some(v)
    case Err(_) => None
  }

  /** Opening, decompressing and unmarshalling give exactly what the reader reads. */
  lemma StagesRead<F>(c: Codec<F>, ks: string, r: Record)
    ensures Got(Plaintext(c, r)) == OpenAs(c, r.mb.encryption, r.data)
    ensures var plain := OpenAs(c, r.mb.encryption, r.data);
            if plain.None? then Payload(c, r).Err? && Unpack(c, ks, r).Err?
            else
              && Got(Payload(c, r)) == PayloadAs(c, r.mb.cev, plain.value)
              && KnownFields(Got(Unpack(c, ks, r))) == ReadAs(c, ks, r.mb.ctv, r.mb.cev, plain.value)
  {
  }

  /** The error of opening, or of decompressing, when it fails. */
  function OpenError(encryption: bv8): Error {
    if encryption <= 1 then DecryptFailed else UnknownEncryption
  }

  function PayloadError(encoding: bv8): Error {
    if encoding == 1 then DecompressFailed else UnknownEncodingType
  }

  /** The error of writing a payload under a label, when it fails. */
  function WriteError(mb: MagicByte): Error {
    if mb.cev >= 2 then UnknownEncodingType
    else if mb.encryption >= 2 then UnknownEncryption
    else EntropyFailed
  }

  /** Which error a record that does not unpack gives: that of the first stage that fails. */
  lemma UnpackErrors<F>(c: Codec<F>, ks: string, r: Record)
    requires Unpack(c, ks, r).Err?
    ensures var plain := OpenAs(c, r.mb.encryption, r.data);
            Unpack(c, ks, r).error ==
            if ks !in c.registry then UnknownKeyspace
            else if plain.None? then OpenError(r.mb.encryption)
            else if PayloadAs(c, r.mb.cev, plain.value).None? then PayloadError(r.mb.cev)
            else if r.mb.ctv == 1 || r.mb.ctv == 2 then UnmarshalFailed
            else UnknownContentType
  {
  }

  /** Which error a conversion gives: that of the first stage that fails, and which stages
      there are depends on the first thing that changes. */
  lemma ConvertErrors<F>(c: Codec<F>, ks: string, r: Record, dst: MagicByte, rnd: Option<Nonce>)
    requires !Convert(c, ks, r, dst, rnd).Succeeded()
    ensures var plain := OpenAs(c, r.mb.encryption, r.data);
            var error := Convert(c, ks, r, dst, rnd).error.value;
            if dst.ctv !in {0, r.mb.ctv} then
              if Unpack(c, ks, r).Err? then error == Unpack(c, ks, r).error
              else
                var m := Unpack(c, ks, r).value;
                if dst.ctv == 1 && c.marshalJson(m).None? then error == MarshalFailed
                else if dst.ctv == 2 && c.marshalProto(m).None? then error == MarshalFailed
                else error == if dst.ctv >= 3 then UnknownContentType else WriteError(dst)
            else if plain.None? then error == OpenError(r.mb.encryption)
            else if dst.cev != r.mb.cev then
              error == if PayloadAs(c, r.mb.cev, plain.value).None? then PayloadError(r.mb.cev) else WriteError(dst)
            else error == WriteError(dst.(cev := 0))
  {
    StagesRead(c, ks, r);
  }

  lemma MeaningReads<F>(c: Codec<F>, ks: string, r1: Record, r2: Record)
    requires MeaningOf(c, ks, r1) == MeaningOf(c, ks, r2)
    ensures KnownFields(Got(Unpack(c, ks, r1))) == KnownFields(Got(Unpack(c, ks, r2)))
  {
  }

  /** A record that has the meaning of a submission reads as the submission does. */
  lemma SaysReads<F>(c: Codec<F>, ks: string, r: Record, put: Record)
    requires MeaningOf(c, ks, r) == MeaningOf(c, ks, put) && put.mb.encryption == 0
    ensures var plain := OpenAs(c, r.mb.encryption, r.data);
            (if plain.None? then None else ReadAs(c, ks, r.mb.ctv, r.mb.cev, plain.value))
            == ReadAs(c, ks, put.mb.ctv, put.mb.cev, put.data)
  {
    MeaningReads(c, ks, r, put);
    StagesRead(c, ks, r);
    StagesRead(c, ks, put);
  }

  // ---- PUT

  /** What keeps a readable body in an admitted label from being stored. */
  function RefusedFor<F>(s: Service<F>, ks: string, contentType: bv8, encoding: bv8, body: Bytes): (status: Option<nat>)
    requires ks in s.keyspaces
  {
    var store := s.keyspaces[ks].store;
    var payload, message := PayloadAs(s.codec, encoding, body), ReadAs(s.codec, ks, contentType, encoding, body);
    if message.None? && (s.validateContent || (store.cev == 0 && encoding != 0)) then Some(400)
    else if store.ctv !in {0, contentType} && (message.None? || store.cev == 2) then Some(500)
    else if store.ctv in {0, contentType} && store.cev != encoding && (payload.None? || store.cev == 2) then Some(500)
    else None
  }

  lemma ContentRefused<F(!new)>(s: Service<F>, req: PutRequest, nonce: Nonce)
    requires MarshalsAll(s.codec) && Validated(s) && req.body.Body? && Admits(s, req.keyspace, req.headers)
    ensures var refused := RefusedFor(s, req.keyspace, TypeOf(req.headers), EncodingOf(req.headers), req.body.data);
            var prepared := PreparePut(s, req, Some(nonce));
            if refused.Some? then prepared == Refuse(refused.value) else prepared.Accept?
  {
    HeadersRead(req.headers);
    StagesRead(s.codec, req.keyspace, Submitted(req));
    PutAcceptedIff(s, req, nonce);
  }

  /** The status of every PUT, given a nonce: 400 for a keyspace that is not configured, a
      label it does not take, a body that cannot be read, or content that does not read
      where it is checked; 413 for a body too large; 500 where the content cannot be
      brought into the store's format or Redis does not confirm; else 200. */
  lemma PutStatus<F(!new)>(s: Service<F>, redis: Redis, req: PutRequest, nonce: Nonce, up: bool)
    requires MarshalsAll(s.codec) && Validated(s)
    ensures Put(s, redis, req, Some(nonce), up).0.status ==
            if req.keyspace !in s.keyspaces then 400
            else
              var input := s.keyspaces[req.keyspace].input;
              var contentType, encoding := TypeOf(req.headers), EncodingOf(req.headers);
              if input.cev !in {0, encoding} || input.ctv !in {0, contentType} then 400
              else
                match req.body
                case TooLarge => 413
                case Unreadable => 400
                case Body(data) =>
                  var refused := RefusedFor(s, req.keyspace, contentType, encoding, data);
                  if refused.Some? then refused.value else if up then 200 else 500
  {
    HeadersRead(req.headers);
    if req.body.Body? && Admits(s, req.keyspace, req.headers) {
      ContentRefused(s, req, nonce);
    }
  }

  /** A body labelled zstd that does not decompress is refused wherever the store holds
      content uncompressed, and nothing is written. */
  lemma CorruptRefused<F(!new)>(s: Service<F>, redis: Redis, req: PutRequest, rnd: Option<Nonce>, up: bool)
    requires req.body.Body? && req.keyspace in s.keyspaces && s.keyspaces[req.keyspace].store.cev == 0
    requires Text(req.headers, "Content-Encoding") == "zstd" && s.codec.zstdDecode(req.body.data).None?
    ensures Put(s, redis, req, rnd, up) == (Reply(400, map[], []), redis)
  {
    HeadersRead(req.headers);
    StagesRead(s.codec, req.keyspace, Submitted(req));
  }

  // ---- what stays

  /** None of these events puts, deletes or expires the key. */
  predicate Undisturbed<F>(s: Service<F>, ks: string, id: string, es: seq<Event>) {
    forall i :: 0 <= i < |es| ==>
      match es[i]
      case PutEvent(req, _, _) => req.keyspace != ks || s.upper(req.id) != id
      case DelEvent(ks0, id0, _) => ks0 != ks || s.upper(id0) != id
      case ExpireEvent(key) => key != ks + ":{" + id + "}"
      case _ => true
  }

  lemma {:induction false} StaysThere<F>(s: Service<F>, a: Contents, ks: string, id: string, es: seq<Event>)
    requires (ks, id) in a && Undisturbed(s, ks, id, es)
    ensures (ks, id) in SpecRun(s, a, es) && SpecRun(s, a, es)[(ks, id)] == a[(ks, id)]
  {
    if es != [] {
      StaysThere(s, a, ks, id, es[..|es| - 1]);
    }
  }

  /** What is stored after any run reads as what was last put; its bits say how. */
  lemma StoredReads<F(!new)>(s: Service<F>, redis: Redis, a: Contents, ks: string, id: string)
    requires Deployed(s) && Refines(s, redis, a) && Regular(s, ks) && (ks, id) in a
    ensures var key := ks + ":{" + id + "}"; var put := a[(ks, id)]; var store := s.keyspaces[ks].store;
            && key in redis && redis[key] != []
            && ReadStored(s.codec, ks, redis[key]) == ReadAs(s.codec, ks, put.mb.ctv, put.mb.cev, put.data)
            && redis[key][0] & 3 == store.cev && (redis[key][0] >> 5) & 3 == s.encryption
            && (redis[key][0] >> 2) & 7 == if store.ctv == 0 then put.mb.ctv else store.ctv
  {
    var value, put := redis[RedisKey(ks, id)], a[(ks, id)];
    assert StoredAs(s, ks, value, put);
    SaysReads(s.codec, ks, ParseResult(value).value, put);
  }

  /** And a reply in any non-raw format reads the same. */
  lemma ReplyReads<F(!new)>(s: Service<F>, redis: Redis, a: Contents, ks: string, id: string, format: string)
    requires Deployed(s) && Refines(s, redis, a) && Regular(s, ks) && format != "raw"
    requires Get(s, redis, ks, id, format, true).status == 200
    ensures var p := (ks, s.upper(id)); var reply := Get(s, redis, ks, id, format, true);
            && p in a
            && ReadBody(s.codec, ks, reply.headers, reply.body)
               == ReadAs(s.codec, ks, a[p].mb.ctv, a[p].mb.cev, a[p].data)
  {
    var p, key := (ks, s.upper(id)), RedisKey(ks, s.upper(id));
    var reply := Get(s, redis, ks, id, format, true);
    assert key in redis <==> p in a;
    RenderSays(s, ks, redis[key], a[p], format);
    SaysReads(s.codec, ks, Received(reply), a[p]);
    HeadersRead(reply.headers);
  }

  /** A PUT answered 200, then anything that leaves its key alone, then a GET: in every
      non-raw format that is answered 200 the reply's body read by the reply's headers is
      the PUT's body read by the PUT's headers; so is the value Redis holds; and the GET is
      never answered 404. */
  lemma PutThenGet<F(!new)>(
    s: Service<F>, redis: Redis, a: Contents, req: PutRequest, rnd: Option<Nonce>, es: seq<Event>, id: string,
    format: string)
    requires Deployed(s) && Refines(s, redis, a) && Regular(s, req.keyspace) && req.body.Body?
    requires Put(s, redis, req, rnd, true).0.status == 200
    requires s.upper(id) == s.upper(req.id) && Undisturbed(s, req.keyspace, s.upper(id), es)
    ensures var after := Run(s, Put(s, redis, req, rnd, true).1, es);
            var key := req.keyspace + ":{" + s.upper(id) + "}";
            var said := ReadBody(s.codec, req.keyspace, req.headers, req.body.data);
            var reply := Get(s, after, req.keyspace, id, format, true);
            && key in after && ReadStored(s.codec, req.keyspace, after[key]) == said
            && reply.status != 404
            && (format != "raw" && reply.status == 200 ==>
                  ReadBody(s.codec, req.keyspace, reply.headers, reply.body) == said)
  {
    var e, p := PutEvent(req, rnd, true), (req.keyspace, s.upper(id));
    var stored, put := Put(s, redis, req, rnd, true).1, SpecStep(s, a, e);
    StepRefines(s, redis, a, e);
    assert put[p] == Submitted(req);
    HeadersRead(req.headers);
    StaysThere(s, put, req.keyspace, s.upper(id), es);
    RunRefines(s, stored, put, es);
    var after, contents := Run(s, stored, es), SpecRun(s, put, es);
    StoredReads(s, after, contents, req.keyspace, s.upper(id));
    if format != "raw" && Get(s, after, req.keyspace, id, format, true).status == 200 {
      ReplyReads(s, after, contents, req.keyspace, id, format);
    }
  }

  /** Where types agree throughout, also content that is no message is kept: the payload
      of a reply is the payload of what was put. */
  lemma ReplyPayload<F(!new)>(s: Service<F>, redis: Redis, a: Contents, ks: string, id: string, format: string)
    requires Deployed(s) && Refines(s, redis, a) && Regular(s, ks) && format != "raw"
    requires Get(s, redis, ks, id, format, true).status == 200
    ensures var p := (ks, s.upper(id)); var reply := Get(s, redis, ks, id, format, true);
            p in a && (TypeOf(reply.headers) == a[p].mb.ctv && s.keyspaces[ks].store.ctv in {0, a[p].mb.ctv} ==>
              PayloadAs(s.codec, EncodingOf(reply.headers), reply.body) == PayloadAs(s.codec, a[p].mb.cev, a[p].data))
  {
    var p, key := (ks, s.upper(id)), RedisKey(ks, s.upper(id));
    var reply := Get(s, redis, ks, id, format, true);
    assert key in redis <==> p in a;
    var r, target := ParseResult(redis[key]).value, Target(s.keyspaces[ks], format).value;
    assert StoredAs(s, ks, redis[key], a[p]);
    RenderConverts(s, ks, redis[key], format, r, target);
    ConvertPreserves(s.codec, ks, r, target, None);
    HeadersRead(reply.headers);
    StagesRead(s.codec, ks, Received(reply));
    StagesRead(s.codec, ks, a[p]);
  }

  // ---- GET and DEL

  lemma FormatsKnown(conf: Keyspace, format: string)
    ensures Target(conf, format) ==
            if format == "" then Some(conf.output)
            else if TypeCode(format) != 0 then Some(MagicByte(0, TypeCode(format), 0))
            else None
  {
  }

  /** Whether a submission can be had back in a type and encoding, from where it is
      stored. */
  predicate Obtainable<F>(s: Service<F>, ks: string, put: Record, contentType: bv8, encoding: bv8)
    requires ks in s.keyspaces
  {
    var store := s.keyspaces[ks].store;
    var storedType := if store.ctv == 0 then put.mb.ctv else store.ctv;
    if contentType !in {0, storedType} then
      encoding != 2 && ReadAs(s.codec, ks, put.mb.ctv, put.mb.cev, put.data).Some?
    else encoding != store.cev ==> encoding != 2 && PayloadAs(s.codec, put.mb.cev, put.data).Some?
  }

  lemma ReadableIff<F(!new)>(s: Service<F>, ks: string, put: Record, target: MagicByte)
    requires Validated(s) && ks in s.keyspaces && put.mb.encryption == 0 && target.Named()
    ensures Readable(s, ks, put, target) <==> Obtainable(s, ks, put, target.ctv, target.cev)
  {
    StagesRead(s.codec, ks, put);
  }

  /** The status of every GET of a regular keyspace, after any run: 500 when Redis does
      not answer; 404 exactly when nothing is there; then always 200 for raw; 400 for a
      format that is not known; else 200 or 500 by what was submitted. */
  lemma GetStatus<F(!new)>(
    s: Service<F>, redis: Redis, a: Contents, ks: string, id: string, format: string, up: bool)
    requires Deployed(s) && MarshalsAll(s.codec) && Refines(s, redis, a) && Regular(s, ks)
    ensures var p := (ks, s.upper(id)); var output := s.keyspaces[ks].output;
            Get(s, redis, ks, id, format, up).status ==
            if !up then 500
            else if p !in a then 404
            else if format == "raw" then 200
            else if format == "" then (if Obtainable(s, ks, a[p], output.ctv, output.cev) then 200 else 500)
            else if TypeCode(format) == 0 then 400
            else if Obtainable(s, ks, a[p], TypeCode(format), 0) then 200
            else 500
  {
    var p, key := (ks, s.upper(id)), RedisKey(ks, s.upper(id));
    assert key in redis <==> p in a;
    if up && p in a {
      assert StoredAs(s, ks, redis[key], a[p]);
      FormatsKnown(s.keyspaces[ks], format);
      if format != "raw" && Target(s.keyspaces[ks], format).Some? {
        StoredRendersIff(s, ks, redis[key], a[p], format);
        ReadableIff(s, ks, a[p], Target(s.keyspaces[ks], format).value);
      }
    }
  }

  /** The other keyspaces: 400 where none is configured, for a DEL too; an atomic one gives
      the bytes Redis holds. */
  lemma OtherKeyspaces<F>(s: Service<F>, redis: Redis, ks: string, id: string, format: string, up: bool)
    requires ks in s.keyspaces ==> s.keyspaces[ks].kind == KSAtomic
    ensures var key := ks + ":{" + s.upper(id) + "}"; var reply := Get(s, redis, ks, id, format, up);
            && reply.status ==
               (if ks !in s.keyspaces then 400 else if !up then 500 else if key in redis then 200 else 404)
            && (reply.status == 200 ==> reply.body == redis[key])
    ensures ks !in s.keyspaces ==> Del(s, redis, ks, id, up) == (Reply(400, map[], []), redis)
  {
  }

  /** A GET hands its id over exactly when it is answered 404 and FindX is not suppressed,
      in a keyspace that is not atomic. */
  lemma LooksUpIff<F(!new)>(
    s: Service<F>, redis: Redis, a: Contents, ks: string, id: string, format: string, nofindx: bool, up: bool)
    requires Deployed(s) && MarshalsAll(s.codec) && Refines(s, redis, a)
    ensures LooksUp(s, redis, ks, id, nofindx, up)
       <==> !nofindx && Regular(s, ks) && Get(s, redis, ks, id, format, up).status == 404
  {
    if Regular(s, ks) {
      GetStatus(s, redis, a, ks, id, format, up);
      assert RedisKey(ks, s.upper(id)) in redis <==> (ks, s.upper(id)) in a;
    }
  }

  /** A missing `pld` id is looked up exactly when a GET of `pa` would not be answered 404;
      in other keyspaces a missing id always is. */
  lemma LookedIff<F(!new)>(s: Service<F>, redis: Redis, ks: string, id: string)
    ensures ks != "pld" ==> forall up :: Looked(redis, ks, s.upper(id), up)
    ensures !Looked(redis, "pld", s.upper(id), false)
    ensures "pa" in s.keyspaces ==>
              (Looked(redis, "pld", s.upper(id), true) <==> Get(s, redis, "pa", id, "raw", true).status != 404)
  {
  }

  /** A DEL is answered 200 exactly when a GET would not be answered 404; then the GET is,
      and every other keyspace and id is as before. */
  lemma DelThenGet<F(!new)>(
    s: Service<F>, redis: Redis, ks: string, id: string, ks2: string, id2: string, format: string)
    requires Deployed(s) && ks in s.keyspaces && ks2 in s.keyspaces
    ensures var (reply, after) := Del(s, redis, ks, id, true);
            && reply.status == (if Get(s, redis, ks, id, "raw", true).status == 404 then 404 else 200)
            && Get(s, after, ks, id, format, true).status == 404
            && ((ks2, s.upper(id2)) != (ks, s.upper(id)) ==>
                  Get(s, after, ks2, id2, format, true) == Get(s, redis, ks2, id2, format, true))
    ensures Del(s, redis, ks, id, false) == (Reply(500, map[], []), redis)
  {
    if (ks2, s.upper(id2)) != (ks, s.upper(id)) {
      DistinctKeys(s, ks2, s.upper(id2), ks, s.upper(id));
    }
  }

  // ---- from the configured texts

  /** The first text that is not empty, if any. */
  function FirstGiven(texts: seq<string>): string {
    if texts == [] then "" else if texts[0] != "" then texts[0] else FirstGiven(texts[1..])
  }

  function StoreEncoding(f: Formats): bv8 {
    EncodingCode(FirstGiven([f.store.contentEncoding, f.input.contentEncoding]))
  }

  function StoreType(f: Formats): bv8 {
    TypeCode(FirstGiven([f.store.contentType, f.input.contentType]))
  }

  function OutputEncoding(f: Formats): bv8 {
    EncodingCode(FirstGiven([f.output.contentEncoding, f.store.contentEncoding, f.input.contentEncoding]))
  }

  /** An output type counts only where a store or input type is written. */
  function OutputType(f: Formats): bv8 {
    if f.store.contentType == "" && f.input.contentType == "" then 0
    else TypeCode(FirstGiven([f.output.contentType, f.store.contentType, f.input.contentType]))
  }

  lemma FirstOfTwo(a: string, b: string)
    ensures FirstGiven([a, b]) == OrElse(a, b)
  {
    assert [a, b][1..] == [b];
    assert FirstGiven([b]) == b;
  }

  lemma FirstOfThree(a: string, b: string, c: string)
    ensures FirstGiven([a, b, c]) == OrElse(a, OrElse(b, c))
  {
    assert [a, b, c][1..] == [b, c];
    FirstOfTwo(b, c);
  }

  lemma CodesAgree(text: string)
    ensures ContentEncodingCode(text) == EncodingCode(text) && ContentTypeCode(text) == TypeCode(text)
  {
  }

  /** The labels validation leaves, from the texts of the configuration. */
  lemma ConfiguredLabels(f: Formats, encryption: bv8)
    ensures var g := Inherit(f, encryption);
            && g.input.magicByte == MagicByte(EncodingCode(f.input.contentEncoding), TypeCode(f.input.contentType), 0)
            && g.store.magicByte == MagicByte(StoreEncoding(f), StoreType(f), encryption)
            && g.output.magicByte == MagicByte(OutputEncoding(f), OutputType(f), 0)
  {
    FirstOfTwo(f.store.contentEncoding, f.input.contentEncoding);
    FirstOfTwo(f.store.contentType, f.input.contentType);
    FirstOfThree(f.output.contentEncoding, f.store.contentEncoding, f.input.contentEncoding);
    FirstOfThree(f.output.contentType, f.store.contentType, f.input.contentType);
    CodesAgree(f.input.contentEncoding);
    CodesAgree(f.input.contentType);
    CodesAgree(FirstGiven([f.store.contentEncoding, f.input.contentEncoding]));
    CodesAgree(FirstGiven([f.store.contentType, f.input.contentType]));
    CodesAgree(FirstGiven([f.output.contentEncoding, f.store.contentEncoding, f.input.contentEncoding]));
    CodesAgree(FirstGiven([f.output.contentType, f.store.contentType, f.input.contentType]));
  }

  /** The keyspace is what validation makes of these formats. */
  predicate ComesFrom<F>(s: Service<F>, ks: string, f: Formats) {
    ks in s.keyspaces && s.keyspaces[ks] == KeyspaceOf(Inherit(f, s.encryption), s.keyspaces[ks].kind)
  }

  /** After any run, what Redis holds is encoded and typed as the configured texts say. */
  lemma ConfiguredAtRest<F(!new)>(
    s: Service<F>, redis: Redis, a: Contents, ks: string, id: string, f: Formats)
    requires Deployed(s) && Refines(s, redis, a) && Regular(s, ks) && (ks, id) in a && ComesFrom(s, ks, f)
    ensures var key := ks + ":{" + id + "}";
            && key in redis && redis[key] != []
            && redis[key][0] & 3 == StoreEncoding(f) && (redis[key][0] >> 5) & 3 == s.encryption
            && (redis[key][0] >> 2) & 7 == if StoreType(f) == 0 then a[(ks, id)].mb.ctv else StoreType(f)
  {
    ConfiguredLabels(f, s.encryption);
    StoredReads(s, redis, a, ks, id);
  }

  /** The headers a reply carries for a type and an encoding. */
  function HeadersFor(contentType: bv8, encoding: bv8): map<string, string> {
    var typed :=
      map["Content-Type" := if contentType == 1 then "application/json"
                            else if contentType == 2 then "application/x-protobuf" else "application/octet-stream"];
    if encoding == 1 then typed["Content-Encoding" := "zstd"]
    else if encoding == 2 then typed["Content-Encoding" := "zlib"]
    else typed
  }

  /** After any run, a GET answered 200 carries the headers of the configured output, or
      of the type asked for, uncompressed; where the output leaves the type open, of the
      stored type. */
  lemma ConfiguredReply<F(!new)>(
    s: Service<F>, redis: Redis, a: Contents, ks: string, id: string, f: Formats, format: string)
    requires Deployed(s) && Refines(s, redis, a) && Regular(s, ks) && ComesFrom(s, ks, f) && format != "raw"
    requires Get(s, redis, ks, id, format, true).status == 200
    ensures var p := (ks, s.upper(id));
            && p in a
            && var storedType := if StoreType(f) == 0 then a[p].mb.ctv else StoreType(f);
               Get(s, redis, ks, id, format, true).headers ==
               if format != "" then HeadersFor(TypeCode(format), 0)
               else HeadersFor(if OutputType(f) == 0 then storedType else OutputType(f), OutputEncoding(f))
  {
    var p, key := (ks, s.upper(id)), RedisKey(ks, s.upper(id));
    assert key in redis <==> p in a;
    assert StoredAs(s, ks, redis[key], a[p]);
    ConfiguredLabels(f, s.encryption);
    FormatsKnown(s.keyspaces[ks], format);
    ReplyHeaders(s, ks, redis[key], format, ParseResult(redis[key]).value, Target(s.keyspaces[ks], format).value);
  }

  lemma ReplyHeaders<F(!new)>(s: Service<F>, ks: string, value: Bytes, format: string, r: Record, target: MagicByte)
    requires Validated(s) && ks in s.keyspaces && ParseResult(value) == Some(r) && r.mb.Named()
    requires format != "raw" && Target(s.keyspaces[ks], format) == Some(target)
    requires Render(s, ks, value, format).status == 200
    ensures Render(s, ks, value, format).headers ==
            HeadersFor(if target.ctv == 0 then r.mb.ctv else target.ctv, target.cev)
  {
    var out := Conversion.Convert(s.codec, ks, r, target, None).record.mb;
    HeadersSet(out);
  }

  lemma HeadersSet(m: MagicByte)
    requires m.Named()
    ensures SetContentHeaders(m, map[]) == HeadersFor(m.ctv, m.cev)
  {
  }

  /** After any run a raw GET is the stored value, untyped. */
  lemma RawReply<F(!new)>(s: Service<F>, redis: Redis, a: Contents, ks: string, id: string)
    requires Deployed(s) && Refines(s, redis, a) && Regular(s, ks) && (ks, s.upper(id)) in a
    ensures var key := ks + ":{" + s.upper(id) + "}";
            && key in redis
            && Get(s, redis, ks, id, "raw", true)
               == Reply(200, map["Content-Type" := "application/octet-stream"], redis[key])
  {
    var value := redis[RedisKey(ks, s.upper(id))];
    assert StoredAs(s, ks, value, a[(ks, s.upper(id))]);
    RenderRaw(s, ks, value);
  }
}
