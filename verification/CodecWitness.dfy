/** A concrete codec that meets every assumption, so that the theorems about
    lawful codecs speak of something. */
module CodecWitness {
  import opened Prelude
  import opened MagicBytes
  import opened RedisCrypto
  import opened Conversion

  const TAG: Bytes := [0, 0, 0, 0, 0, 0, 0, 0, 0, 0, 0, 0, 0, 0, 0, 0]

  function Open(ciphertext: Bytes): Option<Bytes> {
    if |ciphertext| < TAG_SIZE || ciphertext[|ciphertext| - TAG_SIZE..] != TAG then None
    else Some(ciphertext[..|ciphertext| - TAG_SIZE])
  }

  /** One known field of one byte; whatever follows it is unknown. */
  function ReadProto(data: Bytes): Option<Message<Bytes>> {
    if data == [] then None else Some(Message(data[..1], data[1..]))
  }

  function ReadJson(data: Bytes): Option<Message<Bytes>> {
    if |data| >= 2 && data[0] == 0x7B then Some(Message(data[1..2], [])) else None
  }

  function Simple(registry: set<string>): Codec<Bytes> {
    Codec(
      Aead((nonce, p) => p + TAG, (nonce, ct) => Open(ct)),
      d => [0x28] + d,
      d => if d != [] && d[0] == 0x28 then Some(d[1..]) else None,
      registry,
      (ks, d) => ReadProto(d),
      (ks, d) => ReadJson(d),
      (m: Message<Bytes>) => if |m.known| == 1 then Some(m.known + m.unknown) else None,
      (m: Message<Bytes>) => if |m.known| == 1 then Some([0x7B] + m.known) else None)
  }

  lemma SimpleMessagesLawful(registry: set<string>)
    ensures LawfulMessages(Simple(registry)) && MarshalsAll(Simple(registry))
  {
    var c := Simple(registry);
    forall ks: string, from: bv8, data: Bytes, to: bv8 | Unmarshal(c, ks, from, data).Ok?
      ensures RereadsAs(c, ks, Unmarshal(c, ks, from, data).value, to)
      ensures to in {CONTENT_TYPE_JSON, CONTENT_TYPE_PROTOBUF} ==>
                Marshal(c, to, Unmarshal(c, ks, from, data).value).Ok?
    {
      var m := Unmarshal(c, ks, from, data).value;
      assert |m.known| == 1;
      assert (m.known + m.unknown)[..1] == m.known;
      assert ([0x7B] + m.known)[1..2] == m.known;
    }
  }

  /** The assumptions are consistent, for every registry. */
  lemma LawsHold(registry: set<string>)
    ensures Lawful(Simple(registry)) && MarshalsAll(Simple(registry))
  {
    var c := Simple(registry);
    forall n: Nonce, p: Bytes
      ensures |c.aead.seal(n, p)| == |p| + TAG_SIZE && c.aead.open(n, c.aead.seal(n, p)) == Some(p)
    {
      assert (p + TAG)[|p|..] == TAG;
      assert (p + TAG)[..|p|] == p;
    }
    forall d: Bytes
      ensures c.zstdDecode(c.zstdEncode(d)) == Some(d)
    {
      assert ([0x28] + d)[1..] == d;
    }
    SimpleMessagesLawful(registry);
  }

  /** Why meaning is known-field content: under a lawful codec a trip through JSON
      and back can lose payload bytes. */
  lemma JsonTripLosesBytes(ks: string)
    ensures var c := Simple({ks});
            var json := MagicByte(0, CONTENT_TYPE_JSON, 0);
            var r := Record(MagicByte(0, CONTENT_TYPE_PROTOBUF, 0), [7, 9]);
            var there := Convert(c, ks, r, json, None);
            var back := Convert(c, ks, there.record, r.mb, None);
            there.Succeeded() && back.Succeeded() && back.record.mb == r.mb && back.record.data != r.data
  {
  }
}
