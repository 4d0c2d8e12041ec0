/** AES-GCM framing at rest: `nonce ++ sealed text`. The cipher itself is a
    parameter; sizes are those of section 5.2 of RFC 5116 for AEAD_AES_256_GCM. */
module RedisCrypto {
  import opened Prelude

  const NONCE_SIZE: nat := 12
  const TAG_SIZE: nat := 16
  const OVERHEAD: nat := NONCE_SIZE + TAG_SIZE

  type Nonce = n: Bytes | |n| == NONCE_SIZE witness seq(NONCE_SIZE, _ => 0)

  /** An AEAD under a fixed key with no associated data. */
  datatype Aead = Aead(seal: (Nonce, Bytes) -> Bytes, open: (Nonce, Bytes) -> Option<Bytes>)

  /** Opening what was sealed under the same nonce gives the text back, and the
      tag is the only growth. */
  ghost predicate LawfulAead(a: Aead) {
    forall n: Nonce, p: Bytes ::
      |a.seal(n, p)| == |p| + TAG_SIZE && a.open(n, a.seal(n, p)) == Some(p)
  }

  /** What `Encrypt` returns, given what the random reader delivered: `None` is a
      failed read. */
  function Seal(a: Aead, rnd: Option<Nonce>, plaintext: Bytes): Result<Bytes> {
    match rnd
    case None => Err(EntropyFailed)
    case Some(nonce) => Ok(nonce + a.seal(nonce, plaintext))
  }

  function Unseal(a: Aead, ciphertext: Bytes): Result<Bytes> {
    if |ciphertext| < OVERHEAD then Err(DecryptFailed)
    else FromOption(a.open(ciphertext[..NONCE_SIZE], ciphertext[NONCE_SIZE..]), DecryptFailed)
  }

  /** Decrypting an encryption gives the plaintext, for every nonce, and the
      ciphertext is exactly the overhead longer. */
  lemma UnsealSeal(a: Aead, nonce: Nonce, plaintext: Bytes)
    requires LawfulAead(a)
    ensures Seal(a, Some(nonce), plaintext).Ok?
    ensures Unseal(a, Seal(a, Some(nonce), plaintext).value) == Ok(plaintext)
    ensures |Seal(a, Some(nonce), plaintext).value| == |plaintext| + OVERHEAD
  {
  }

  /** The buffer `Encrypt` allocates: `len` bytes in use out of `store.Length`. */
  class GrowBuffer {
    const store: array<bv8>
    var len: nat

    ghost predicate Valid()
      reads this
    {
      len <= store.Length
    }

    ghost function Contents(): Bytes
      reads this, store
      requires Valid()
    {
      store[..len]
    }

    constructor (length: nat, capacity: nat)
      requires length <= capacity
      ensures Valid() && fresh(store) && store.Length == capacity && len == length
    {
      store := new bv8[capacity];
      len := length;
    }

    /** Appends in place; the spare capacity must hold what is appended. */
    method Append(data: Bytes)
      requires Valid() && len + |data| <= store.Length
      modifies this, store
      ensures Valid() && Contents() == old(Contents()) + data
    {
      var i := 0;
      while i < |data|
        invariant i <= |data|
        invariant len == old(len)
        invariant store[..len + i] == old(Contents()) + data[..i]
      {
        store[len + i] := data[i];
        i := i + 1;
      }
      len := len + |data|;
    }
  }

  /** `AesGCM.Encrypt`: the nonce is read into a buffer that already has room for
      the whole record, and sealing appends behind it. The append never outgrows
      the buffer and leaves no capacity unused. */
  method Encrypt(a: Aead, rnd: Option<Nonce>, plaintext: Bytes) returns (out: Result<GrowBuffer>)
    requires LawfulAead(a)
    ensures out.Ok? <==> rnd.Some?
    ensures out.Err? ==> Seal(a, rnd, plaintext) == Err(out.error)
    ensures out.Ok? ==> fresh(out.value) && fresh(out.value.store) && out.value.Valid()
    ensures out.Ok? ==> Seal(a, rnd, plaintext) == Ok(out.value.Contents())
    ensures out.Ok? ==> out.value.len == out.value.store.Length == |plaintext| + OVERHEAD
  {
    var nonce := new GrowBuffer(NONCE_SIZE, |plaintext| + OVERHEAD);
    if rnd.None? {
      return Err(EntropyFailed);
    }
    var i := 0;
    while i < NONCE_SIZE
      invariant i <= NONCE_SIZE
      invariant nonce.Valid() && nonce.len == NONCE_SIZE
      invariant nonce.store[..i] == rnd.value[..i]
    {
      nonce.store[i] := rnd.value[i];
      i := i + 1;
    }
    assert nonce.Contents() == rnd.value;
    nonce.Append(a.seal(rnd.value, plaintext));
    assert nonce.Contents() == rnd.value + a.seal(rnd.value, plaintext);
    assert |nonce.Contents()| == nonce.len;
    out := Ok(nonce);
  }
}
