/** The PUT, GET and DEL handlers as functions of the Redis map. */
module Handlers {
  import opened Prelude
  import opened MagicBytes
  import opened RedisCrypto
  import opened Conversion
  import opened RedisKeys
  import opened KeyspaceConfigs

  const OK: nat := 200
  const BAD_REQUEST: nat := 400
  const NOT_FOUND: nat := 404
  const TOO_LARGE: nat := 413
  const SERVER_ERROR: nat := 500

  /** The magic bytes and kind of a validated keyspace. */
  datatype Keyspace = Keyspace(input: MagicByte, store: MagicByte, output: MagicByte, kind: Kind)

  /** What does not change while the server runs. `upper` is `strings.ToUpper`. */
  datatype Service<!F> = Service(
    codec: Codec<F>,
    upper: string -> string,
    keyspaces: map<string, Keyspace>,
    encryption: bv8,
    validateContent: bool,
    multipart: seq<string>)

  type Redis = map<string, Bytes>

  /** The result of reading a request body. */
  datatype Body = Body(data: Bytes) | TooLarge | Unreadable

  datatype PutRequest = PutRequest(keyspace: string, id: string, headers: map<string, string>, body: Body)

  datatype Reply = Reply(status: nat, headers: map<string, string>, body: Bytes)

  function Failure(status: nat): Reply {
    Reply(status, map[], [])
  }

  function KeyspaceOf(g: Formats, kind: Kind): Keyspace {
    Keyspace(g.input.magicByte, g.store.magicByte, g.output.magicByte, kind)
  }

  /** What validation and the bound on the encryption setting establish. */
  ghost predicate Validated<F(!new)>(s: Service<F>) {
    && s.encryption <= 1
    && forall ks :: ks in s.keyspaces ==>
        var k := s.keyspaces[ks];
        && k.input.Named() && k.store.Named() && k.output.Named()
        && k.input.encryption == 0 && k.output.encryption == 0 && k.store.encryption == s.encryption
  }

  /** A service whose keyspaces all come out of validation is `Validated`. */
  lemma ValidatedFromConfig<F(!new)>(s: Service<F>, formats: map<string, Formats>)
    requires s.encryption <= 1 && formats.Keys == s.keyspaces.Keys
    requires forall ks :: ks in formats ==>
               s.keyspaces[ks] == KeyspaceOf(Inherit(formats[ks], s.encryption), s.keyspaces[ks].kind)
    ensures Validated(s)
  {
  }

  // ---- record framing

  function Frame(r: Record): Bytes {
    [r.mb.Get()] + r.data
  }

  function ParseResult(value: Bytes): Option<Record> {
    if |value| < 1 then None else Some(Record(NewFrom(value[0]), value[1..]))
  }

  lemma ParseFrame(r: Record)
    requires r.mb.InRange()
    ensures ParseResult(Frame(r)) == Some(r)
    ensures Frame(r)[0] & 0x80 == 0
  {
  }

  // ---- PUT

  datatype Prepared = Refuse(status: nat) | Accept(record: Record)

  /** Whether a label is one the keyspace takes. */
  predicate TakesLabel(conf: Keyspace, mb: MagicByte) {
    && (conf.input.cev == 0 || conf.input.cev == mb.cev)
    && (conf.input.ctv == 0 || conf.input.ctv == mb.ctv)
  }

  /** What is checked before a PUT takes its first buffer. */
  predicate Admits<F>(s: Service<F>, keyspace: string, headers: map<string, string>) {
    keyspace in s.keyspaces && TakesLabel(s.keyspaces[keyspace], FromHeaders(headers))
  }

  /** Content must unpack when it is validated, and when the store holds it uncompressed
      but it came compressed. */
  predicate ContentPasses<F>(s: Service<F>, keyspace: string, r: Record)
    requires keyspace in s.keyspaces
  {
    s.validateContent || (s.keyspaces[keyspace].store.cev == 0 && r.mb.cev != 0) ==>
      Unpack(s.codec, keyspace, r).Ok?
  }

  /** A PUT up to the point where the record is ready to be written. */
  function PreparePut<F>(s: Service<F>, req: PutRequest, rnd: Option<Nonce>): Prepared {
    if !Admits(s, req.keyspace, req.headers) then Refuse(BAD_REQUEST)
    else
      match req.body
      case TooLarge => Refuse(TOO_LARGE)
      case Unreadable => Refuse(BAD_REQUEST)
      case Body(data) =>
        var conf := s.keyspaces[req.keyspace];
        var r := Record(FromHeaders(req.headers), data);
        if !ContentPasses(s, req.keyspace, r) then Refuse(BAD_REQUEST)
        else
          var out := Convert(s.codec, req.keyspace, r, conf.store, rnd);
          if out.Succeeded() then Accept(out.record) else Refuse(SERVER_ERROR)
  }

  /** `up` is whether Redis answers; a write it does not confirm has no effect. */
  function Put<F>(s: Service<F>, redis: Redis, req: PutRequest, rnd: Option<Nonce>, up: bool): (r: (Reply, Redis))
    ensures r.0.status != OK ==> r.1 == redis
    ensures r.1 - {RedisKey(req.keyspace, s.upper(req.id))} == redis - {RedisKey(req.keyspace, s.upper(req.id))}
  {
    match PreparePut(s, req, rnd)
    case Refuse(status) => (Failure(status), redis)
    case Accept(record) =>
      if !up then (Failure(SERVER_ERROR), redis)
      else (Reply(OK, map[], []), redis[RedisKey(req.keyspace, s.upper(req.id)) := Frame(record)])
  }

  // ---- GET

  /** The label a non-raw `format` parameter asks for, if it is a known one. */
  function Target(conf: Keyspace, format: string): Option<MagicByte> {
    if format == "" then Some(conf.output)
    else
      var mb := New("", format, 0);
      if mb.ctv == 0 then None else Some(mb)
  }

  /** The reply for a stored value. */
  function Render<F>(s: Service<F>, ks: string, value: Bytes, format: string): Reply
    requires ks in s.keyspaces
  {
    match ParseResult(value)
    case None => Failure(SERVER_ERROR)
    case Some(r) =>
      if format == "raw" then
        Reply(OK, map[CONTENT_TYPE_HEADER := "application/octet-stream"], [r.mb.Get()] + r.data)
      else
        match Target(s.keyspaces[ks], format)
        case None => Failure(BAD_REQUEST)
        case Some(mb) =>
          var out := Convert(s.codec, ks, r, mb, None);
          if !out.Succeeded() then Failure(SERVER_ERROR)
          else Reply(OK, SetContentHeaders(out.record.mb, map[]), out.record.data)
  }

  function Get<F>(s: Service<F>, redis: Redis, ks: string, id: string, format: string, up: bool): Reply {
    if ks !in s.keyspaces then Failure(BAD_REQUEST)
    else
      var key := RedisKey(ks, s.upper(id));
      if !up then Failure(SERVER_ERROR)
      else if key !in redis then Failure(NOT_FOUND)
      else if s.keyspaces[ks].kind == KSAtomic then Reply(OK, map[], redis[key])
      else Render(s, ks, redis[key], format)
  }

  /** Whether a GET asks FindX for the missing id. */
  predicate LooksUp<F>(s: Service<F>, redis: Redis, ks: string, id: string, nofindx: bool, up: bool) {
    && ks in s.keyspaces && s.keyspaces[ks].kind != KSAtomic
    && up && RedisKey(ks, s.upper(id)) !in redis && !nofindx
  }

  /** Whether a missing id is looked up or rejected: `pld` ids are looked up only where
      `pa` has them. The id is upper-cased already. */
  predicate Looked(redis: Redis, ks: string, id: string, up: bool) {
    ks == "pld" ==> up && RedisKey("pa", id) in redis
  }

  // ---- DEL

  function Del<F>(s: Service<F>, redis: Redis, ks: string, id: string, up: bool): (Reply, Redis) {
    if ks !in s.keyspaces then (Failure(BAD_REQUEST), redis)
    else if !up then (Failure(SERVER_ERROR), redis)
    else
      var key := RedisKey(ks, s.upper(id));
      if key in redis then (Reply(OK, map[], []), redis - {key}) else (Failure(NOT_FOUND), redis)
  }
}
