/** The format-conversion pipeline. Zstandard, protobuf and protojson are
    parameters gathered in a `Codec`; `Lawful` says what is assumed of them. */
module Conversion {
  import opened Prelude
  import opened MagicBytes
  import opened RedisCrypto

  /** A decoded message: its known-field content and the raw bytes of the fields
      its schema does not know. */
  datatype Message<F> = Message(known: F, unknown: Bytes)

  datatype Codec<!F> = Codec(
    aead: Aead,
    zstdEncode: Bytes -> Bytes,
    zstdDecode: Bytes -> Option<Bytes>,
    registry: set<string>,
    unmarshalProto: (string, Bytes) -> Option<Message<F>>,
    unmarshalJson: (string, Bytes) -> Option<Message<F>>,
    marshalProto: Message<F> -> Option<Bytes>,
    marshalJson: Message<F> -> Option<Bytes>)

  /** A magic byte and the data it labels. */
  datatype Record = Record(mb: MagicByte, data: Bytes)

  /** What `Convert` returns: on an error the record is the input, unchanged. */
  datatype Converted = Converted(record: Record, error: Option<Error>) {
    predicate Succeeded() {
      error.None?
    }
  }

  // ---- single stages

  function Decrypt<F>(c: Codec<F>, encryption: bv8, data: Bytes): Result<Bytes> {
    if encryption == 0 then Ok(data)
    else if encryption == 1 then Unseal(c.aead, data)
    else Err(UnknownEncryption)
  }

  function Encrypt<F>(c: Codec<F>, encryption: bv8, rnd: Option<Nonce>, data: Bytes): Result<Bytes> {
    if encryption == 0 then Ok(data)
    else if encryption == 1 then Seal(c.aead, rnd, data)
    else Err(UnknownEncryption)
  }

  function Decompress<F>(c: Codec<F>, cev: bv8, data: Bytes): Result<Bytes> {
    if cev == CONTENT_ENCODING_NONE then Ok(data)
    else if cev == CONTENT_ENCODING_ZSTD then FromOption(c.zstdDecode(data), DecompressFailed)
    else Err(UnknownEncodingType)
  }

  function Compress<F>(c: Codec<F>, cev: bv8, data: Bytes): Result<Bytes> {
    if cev == CONTENT_ENCODING_NONE then Ok(data)
    else if cev == CONTENT_ENCODING_ZSTD then Ok(c.zstdEncode(data))
    else Err(UnknownEncodingType)
  }

  function Unmarshal<F>(c: Codec<F>, ks: string, ctv: bv8, data: Bytes): Result<Message<F>> {
    if ctv == CONTENT_TYPE_PROTOBUF then FromOption(c.unmarshalProto(ks, data), UnmarshalFailed)
    else if ctv == CONTENT_TYPE_JSON then FromOption(c.unmarshalJson(ks, data), UnmarshalFailed)
    else Err(UnknownContentType)
  }

  function Marshal<F>(c: Codec<F>, ctv: bv8, m: Message<F>): Result<Bytes> {
    if ctv == CONTENT_TYPE_PROTOBUF then FromOption(c.marshalProto(m), MarshalFailed)
    else if ctv == CONTENT_TYPE_JSON then FromOption(c.marshalJson(m), MarshalFailed)
    else Err(UnknownContentType)
  }

  // ---- composed stages

  function Unpack<F>(c: Codec<F>, ks: string, r: Record): Result<Message<F>> {
    if ks !in c.registry then Err(UnknownKeyspace)
    else
      var plain :- Decrypt(c, r.mb.encryption, r.data);
      var payload :- Decompress(c, r.mb.cev, plain);
      Unmarshal(c, ks, r.mb.ctv, payload)
  }

  function Pack<F>(c: Codec<F>, mb: MagicByte, rnd: Option<Nonce>, m: Message<F>): Result<Bytes> {
    var payload :- Marshal(c, mb.ctv, m);
    var compressed :- Compress(c, mb.cev, payload);
    Encrypt(c, mb.encryption, rnd, compressed)
  }

  /** An output content type of 0 asks for the input's type. */
  function Resolve(src: MagicByte, dst: MagicByte): MagicByte {
    if dst.ctv == 0 then MagicByte(dst.cev, src.ctv, dst.encryption) else dst
  }

  /** decrypt, decompress, unmarshal, marshal, compress, encrypt */
  function ChangeType<F>(c: Codec<F>, ks: string, r: Record, dst: MagicByte, rnd: Option<Nonce>): Result<Bytes> {
    var m :- Unpack(c, ks, r);
    Pack(c, dst, rnd, m)
  }

  /** decrypt, decompress, compress, encrypt */
  function ChangeEncoding<F>(c: Codec<F>, r: Record, dst: MagicByte, rnd: Option<Nonce>): Result<Bytes> {
    var plain :- Decrypt(c, r.mb.encryption, r.data);
    var payload :- Decompress(c, r.mb.cev, plain);
    var compressed :- Compress(c, dst.cev, payload);
    Encrypt(c, dst.encryption, rnd, compressed)
  }

  /** decrypt, encrypt */
  function ChangeEncryption<F>(c: Codec<F>, r: Record, dst: MagicByte, rnd: Option<Nonce>): Result<Bytes> {
    var plain :- Decrypt(c, r.mb.encryption, r.data);
    Encrypt(c, dst.encryption, rnd, plain)
  }

  function Finish(r: Record, dst: MagicByte, data: Result<Bytes>): Converted {
    match data
    case Ok(d) => Converted(Record(dst, d), None)
    case Err(e) => Converted(r, Some(e))
  }

  /** The four-path conversion. `rnd` is the nonce the random reader would deliver;
      no path encrypts twice. */
  function Convert<F>(c: Codec<F>, ks: string, r: Record, dst: MagicByte, rnd: Option<Nonce>): Converted {
    var out := Resolve(r.mb, dst);
    if r.mb.ctv != out.ctv && out.ctv != 0 then Finish(r, out, ChangeType(c, ks, r, out, rnd))
    else if r.mb.cev != out.cev then Finish(r, out, ChangeEncoding(c, r, out, rnd))
    else if r.mb.encryption != out.encryption then Finish(r, out, ChangeEncryption(c, r, out, rnd))
    else Converted(r, None)
  }

  // ---- the laws assumed of the codec

  ghost predicate LawfulZstd<F(!new)>(c: Codec<F>) {
    forall d: Bytes :: c.zstdDecode(c.zstdEncode(d)) == Some(d)
  }

  /** Reading back what was written gives the known fields of what was written. */
  ghost predicate RereadsAs<F(!new)>(c: Codec<F>, ks: string, m: Message<F>, ctv: bv8) {
    Marshal(c, ctv, m).Ok? ==>
      var again := Unmarshal(c, ks, ctv, Marshal(c, ctv, m).value);
      again.Ok? && again.value.known == m.known
  }

  ghost predicate LawfulMessages<F(!new)>(c: Codec<F>) {
    forall ks: string, from: bv8, data: Bytes, to: bv8 ::
      Unmarshal(c, ks, from, data).Ok? ==> RereadsAs(c, ks, Unmarshal(c, ks, from, data).value, to)
  }

  ghost predicate Lawful<F(!new)>(c: Codec<F>) {
    LawfulAead(c.aead) && LawfulZstd(c) && LawfulMessages(c)
  }

  /** Whatever can be read in one format can be written in the other. */
  ghost predicate MarshalsAll<F(!new)>(c: Codec<F>) {
    forall ks: string, from: bv8, data: Bytes, to: bv8 ::
      Unmarshal(c, ks, from, data).Ok? && to in {CONTENT_TYPE_JSON, CONTENT_TYPE_PROTOBUF} ==>
        Marshal(c, to, Unmarshal(c, ks, from, data).value).Ok?
  }

  // ---- meaning

  function Plaintext<F>(c: Codec<F>, r: Record): Result<Bytes> {
    Decrypt(c, r.mb.encryption, r.data)
  }

  function Payload<F>(c: Codec<F>, r: Record): Result<Bytes> {
    var plain :- Plaintext(c, r);
    Decompress(c, r.mb.cev, plain)
  }

  /** The most decoded view of a record that exists: a message's known fields; for
      data that is no message of its keyspace its typed payload; for a payload that
      cannot be decompressed its typed and encoded plaintext; else the record. */
  datatype Meaning<+F> =
    | Known(known: F)
    | Opaque(ctv: bv8, payload: Bytes)
    | Encoded(ctv: bv8, cev: bv8, plain: Bytes)
    | Sealed(record: Record)

  function MeaningOf<F>(c: Codec<F>, ks: string, r: Record): Meaning<F> {
    if Unpack(c, ks, r).Ok? then Known(Unpack(c, ks, r).value.known)
    else if Payload(c, r).Ok? then Opaque(r.mb.ctv, Payload(c, r).value)
    else if Plaintext(c, r).Ok? then Encoded(r.mb.ctv, r.mb.cev, Plaintext(c, r).value)
    else Sealed(r)
  }

  /** `r` says what `origin` says: always the same meaning, the same payload bytes
      when the types agree, the same plaintext when the encodings agree too. */
  ghost predicate Preserves<F(!new)>(c: Codec<F>, ks: string, r: Record, origin: Record) {
    && MeaningOf(c, ks, r) == MeaningOf(c, ks, origin)
    && (r.mb.ctv == origin.mb.ctv ==> Payload(c, r) == Payload(c, origin))
    && (r.mb.ctv == origin.mb.ctv && r.mb.cev == origin.mb.cev ==> Plaintext(c, r) == Plaintext(c, origin))
  }

  // ---- stage round trips

  lemma DecryptEncrypt<F(!new)>(c: Codec<F>, encryption: bv8, rnd: Option<Nonce>, data: Bytes)
    requires Lawful(c) && Encrypt(c, encryption, rnd, data).Ok?
    ensures Decrypt(c, encryption, Encrypt(c, encryption, rnd, data).value) == Ok(data)
  {
  }

  lemma DecompressCompress<F(!new)>(c: Codec<F>, cev: bv8, data: Bytes)
    requires Lawful(c) && Compress(c, cev, data).Ok?
    ensures Decompress(c, cev, Compress(c, cev, data).value) == Ok(data)
  {
  }

  /** Packing a message that was itself unpacked, and unpacking it again, keeps the
      known fields, whatever the two formats and for every nonce. */
  lemma UnpackPack<F(!new)>(c: Codec<F>, ks: string, r: Record, mb: MagicByte, rnd: Option<Nonce>)
    requires Lawful(c) && Unpack(c, ks, r).Ok?
    requires Pack(c, mb, rnd, Unpack(c, ks, r).value).Ok?
    ensures var again := Unpack(c, ks, Record(mb, Pack(c, mb, rnd, Unpack(c, ks, r).value).value));
            again.Ok? && again.value.known == Unpack(c, ks, r).value.known
  {
    var m := Unpack(c, ks, r).value;
    assert m == Unmarshal(c, ks, r.mb.ctv, Payload(c, r).value).value;
    assert RereadsAs(c, ks, m, mb.ctv);
    var payload := Marshal(c, mb.ctv, m).value;
    DecompressCompress(c, mb.cev, payload);
    DecryptEncrypt(c, mb.encryption, rnd, Compress(c, mb.cev, payload).value);
  }

  // ---- main results

  /** A successful conversion carries the label that was asked for and preserves
      the meaning for every nonce; a failed one returns its input. */
  lemma ConvertPreserves<F(!new)>(c: Codec<F>, ks: string, r: Record, dst: MagicByte, rnd: Option<Nonce>)
    requires Lawful(c)
    ensures var out := Convert(c, ks, r, dst, rnd);
            if out.Succeeded()
            then out.record.mb == Resolve(r.mb, dst) && Preserves(c, ks, out.record, r)
            else out.record == r
  {
    var out := Convert(c, ks, r, dst, rnd);
    if out.Succeeded() && out.record.mb != r.mb {
      var mb := out.record.mb;
      if r.mb.ctv != mb.ctv {
        UnpackPack(c, ks, r, mb, rnd);
      } else if r.mb.cev != mb.cev {
        var payload := Payload(c, r).value;
        DecompressCompress(c, mb.cev, payload);
        DecryptEncrypt(c, mb.encryption, rnd, Compress(c, mb.cev, payload).value);
      } else {
        DecryptEncrypt(c, mb.encryption, rnd, Plaintext(c, r).value);
      }
    }
  }

  /** The unoptimised form: every stage, whatever the two labels. */
  function FullConvert<F>(c: Codec<F>, ks: string, r: Record, dst: MagicByte, rnd: Option<Nonce>): Converted {
    var out := Resolve(r.mb, dst);
    Finish(r, out, ChangeType(c, ks, r, out, rnd))
  }

  /** The short cuts refine the full pipeline: wherever decoding and encoding
      everything succeeds, so does `Convert`, with the same label and meaning. */
  lemma ConvertRefinesFull<F(!new)>(c: Codec<F>, ks: string, r: Record, dst: MagicByte, rnd: Option<Nonce>)
    requires Lawful(c) && FullConvert(c, ks, r, dst, rnd).Succeeded()
    ensures var fast := Convert(c, ks, r, dst, rnd); var full := FullConvert(c, ks, r, dst, rnd);
            && fast.Succeeded() && fast.record.mb == full.record.mb
            && MeaningOf(c, ks, fast.record) == MeaningOf(c, ks, full.record)
            && MeaningOf(c, ks, full.record) == MeaningOf(c, ks, r)
  {
    UnpackPack(c, ks, r, Resolve(r.mb, dst), rnd);
    ConvertPreserves(c, ks, r, dst, rnd);
  }

  /** What a conversion to the (resolved) label `out` needs: the input must decode
      as far as the first field that changes, and `out` must be writable from there
      on. Encryption is at most 1 and zlib is never written. */
  predicate Reaches<F>(c: Codec<F>, ks: string, r: Record, out: MagicByte) {
    || out == r.mb
    || (out.encryption <= 1 &&
        if out.ctv != r.mb.ctv then
          (out.ctv == CONTENT_TYPE_JSON || out.ctv == CONTENT_TYPE_PROTOBUF)
          && out.cev <= CONTENT_ENCODING_ZSTD && Unpack(c, ks, r).Ok?
        else if out.cev != r.mb.cev then out.cev <= CONTENT_ENCODING_ZSTD && Payload(c, r).Ok?
        else Plaintext(c, r).Ok?)
  }

  lemma MarshalsUnpacked<F(!new)>(c: Codec<F>, ks: string, r: Record, to: bv8)
    requires MarshalsAll(c) && Unpack(c, ks, r).Ok?
    requires to == CONTENT_TYPE_JSON || to == CONTENT_TYPE_PROTOBUF
    ensures Marshal(c, to, Unpack(c, ks, r).value).Ok?
  {
  }

  /** When a conversion succeeds: the condition is necessary for every outcome of
      the random reader, and sufficient when it delivers a nonce. */
  lemma ConvertSucceedsWhen<F(!new)>(c: Codec<F>, ks: string, r: Record, dst: MagicByte, rnd: Option<Nonce>)
    requires MarshalsAll(c)
    ensures Convert(c, ks, r, dst, rnd).Succeeded() ==> Reaches(c, ks, r, Resolve(r.mb, dst))
    ensures Reaches(c, ks, r, Resolve(r.mb, dst)) && rnd.Some? ==> Convert(c, ks, r, dst, rnd).Succeeded()
  {
    var out := Resolve(r.mb, dst);
    if Reaches(c, ks, r, out) && out.ctv != r.mb.ctv {
      MarshalsUnpacked(c, ks, r, out.ctv);
    }
  }

  /** Decodability only grows along the levels, and equal meanings decode equally. */
  lemma DecodesTogether<F(!new)>(c: Codec<F>, ks: string, r: Record, origin: Record)
    requires Preserves(c, ks, r, origin)
    ensures Unpack(c, ks, r).Ok? <==> Unpack(c, ks, origin).Ok?
    ensures Payload(c, r).Ok? <==> Payload(c, origin).Ok?
    ensures r.mb != origin.mb && Plaintext(c, r).Ok? ==> Plaintext(c, origin).Ok?
  {
  }

  lemma ReachesComposes<F(!new)>(c: Codec<F>, ks: string, r: Record, mid: Record, d: MagicByte)
    requires Reaches(c, ks, r, mid.mb) && Reaches(c, ks, mid, Resolve(mid.mb, d))
    requires mid.mb == r.mb ==> mid == r
    requires Preserves(c, ks, mid, r)
    ensures Reaches(c, ks, r, Resolve(r.mb, d))
  {
  }

  /** Going through an intermediate format can be skipped: if r converts to b and
      the result to d, then r converts to d directly, with the same meaning. The
      labels agree too, unless d leaves the type open and b had changed it. */
  lemma PathIndependence<F(!new)>(
    c: Codec<F>, ks: string, r: Record, b: MagicByte, d: MagicByte, mid: Record, far: Record,
    rnd1: Option<Nonce>, rnd2: Option<Nonce>, nonce: Nonce)
    requires Lawful(c) && MarshalsAll(c)
    requires Convert(c, ks, r, b, rnd1) == Converted(mid, None)
    requires Convert(c, ks, mid, d, rnd2) == Converted(far, None)
    ensures var direct := Convert(c, ks, r, d, Some(nonce));
            && direct.Succeeded()
            && MeaningOf(c, ks, direct.record) == MeaningOf(c, ks, far)
            && (direct.record.mb == far.mb <==> d.ctv != 0 || mid.mb.ctv == r.mb.ctv)
  {
    assert Reaches(c, ks, r, mid.mb) && Preserves(c, ks, mid, r) && mid.mb == Resolve(r.mb, b) by {
      ConvertPreserves(c, ks, r, b, rnd1);
      ConvertSucceedsWhen(c, ks, r, b, rnd1);
    }
    assert mid.mb == r.mb ==> mid == r;
    assert Reaches(c, ks, mid, Resolve(mid.mb, d)) by {
      ConvertSucceedsWhen(c, ks, mid, d, rnd2);
    }
    assert Convert(c, ks, r, d, Some(nonce)).Succeeded() by {
      ReachesComposes(c, ks, r, mid, d);
      ConvertSucceedsWhen(c, ks, r, d, Some(nonce));
    }
    ConvertPreserves(c, ks, mid, d, rnd2);
    ConvertPreserves(c, ks, r, d, Some(nonce));
  }
}
