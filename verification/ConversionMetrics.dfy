/** The per-keyspace conversion counters, and `Convert` as it runs: branch by
    branch, bumping one counter on every return but the pass-through. */
module ConversionMetrics {
  import opened Prelude
  import opened MagicBytes
  import opened RedisCrypto
  import opened Conversion

  datatype Path = PassThrough | TypePath | EncodingPath | EncryptionPath

  function PathOf(src: MagicByte, dst: MagicByte): Path {
    var out := Resolve(src, dst);
    if src.ctv != out.ctv then TypePath
    else if src.cev != out.cev then EncodingPath
    else if src.encryption != out.encryption then EncryptionPath
    else PassThrough
  }

  /** A snapshot of the six counters of one keyspace. */
  datatype Counts = Counts(
    contentEncodingSuc: nat, contentEncodingFail: nat,
    contentTypeSuc: nat, contentTypeFail: nat,
    encryptionSuc: nat, encryptionFail: nat)
  {
    function Successes(): nat {
      contentEncodingSuc + contentTypeSuc + encryptionSuc
    }

    function Failures(): nat {
      contentEncodingFail + contentTypeFail + encryptionFail
    }

    /** The counters after one more call down `path`. */
    function Bump(path: Path, ok: bool): Counts {
      match path
      case PassThrough => this
      case TypePath =>
        if ok then this.(contentTypeSuc := contentTypeSuc + 1) else this.(contentTypeFail := contentTypeFail + 1)
      case EncodingPath =>
        if ok then this.(contentEncodingSuc := contentEncodingSuc + 1)
        else this.(contentEncodingFail := contentEncodingFail + 1)
      case EncryptionPath =>
        if ok then this.(encryptionSuc := encryptionSuc + 1) else this.(encryptionFail := encryptionFail + 1)
    }
  }

  const ZERO := Counts(0, 0, 0, 0, 0, 0)

  class CounterType {
    var contentEncodingSuc: nat
    var contentEncodingFail: nat
    var contentTypeSuc: nat
    var contentTypeFail: nat
    var encryptionSuc: nat
    var encryptionFail: nat

    constructor ()
      ensures Snapshot() == ZERO
    {
      contentEncodingSuc, contentEncodingFail := 0, 0;
      contentTypeSuc, contentTypeFail := 0, 0;
      encryptionSuc, encryptionFail := 0, 0;
    }

    function Snapshot(): Counts
      reads this
    {
      Counts(contentEncodingSuc, contentEncodingFail, contentTypeSuc, contentTypeFail, encryptionSuc, encryptionFail)
    }
  }

  /** Each keyspace is new to the registerer when its turn comes. */
  predicate Registers(taken: set<string>, keyspaces: seq<string>)
    decreases |keyspaces|
  {
    keyspaces == [] || (keyspaces[0] !in taken && Registers(taken + {keyspaces[0]}, keyspaces[1..]))
  }

  predicate Registrable(registered: Option<set<string>>, promNamespace: string, keyspaces: seq<string>) {
    registered.Some? && promNamespace != "" && Registers(registered.value, keyspaces)
  }

  lemma {:induction false} RegistersIff(taken: set<string>, keyspaces: seq<string>)
    ensures Registers(taken, keyspaces) <==>
              && (forall i :: 0 <= i < |keyspaces| ==> keyspaces[i] !in taken)
              && (forall i, j :: 0 <= i < j < |keyspaces| ==> keyspaces[i] != keyspaces[j])
    decreases |keyspaces|
  {
    if keyspaces != [] {
      RegistersIff(taken + {keyspaces[0]}, keyspaces[1..]);
      if Registers(taken, keyspaces) {
        forall j | 0 < j < |keyspaces|
          ensures keyspaces[j] !in taken && keyspaces[j] != keyspaces[0]
        {
          assert keyspaces[1..][j - 1] == keyspaces[j];
        }
        forall i, j | 0 < i < j < |keyspaces|
          ensures keyspaces[i] != keyspaces[j]
        {
          assert keyspaces[1..][i - 1] != keyspaces[1..][j - 1];
        }
      }
    }
  }

  /** The counters can be registered exactly with a registerer, a namespace, and keyspaces
      that are new to the registerer and listed once. */
  lemma RegistrableIff(registered: Option<set<string>>, promNamespace: string, keyspaces: seq<string>)
    ensures Registrable(registered, promNamespace, keyspaces) <==>
              && registered.Some? && promNamespace != ""
              && (forall i :: 0 <= i < |keyspaces| ==> keyspaces[i] !in registered.value)
              && (forall i, j :: 0 <= i < j < |keyspaces| ==> keyspaces[i] != keyspaces[j])
  {
    if registered.Some? {
      RegistersIff(registered.value, keyspaces);
    }
  }

  class PrometheusMetrics {
    var counters: map<string, CounterType>
    /** Never assigned by the program: a bump for a keyspace without counters
        would dereference it. */
    const unknown: CounterType? := null

    /** No two keyspaces share a counter record. */
    ghost predicate Valid()
      reads this
    {
      forall k1, k2 :: k1 in counters && k2 in counters && k1 != k2 ==> counters[k1] != counters[k2]
    }

    constructor ()
      ensures Valid() && counters == map[]
    {
      counters := map[];
    }

    /** Creates the counters of every keyspace. `registered` is what the registerer has
        already, if there is a registerer; registering a keyspace again is an error. */
    method Init(registered: Option<set<string>>, promNamespace: string, keyspaces: seq<string>) returns (ok: bool)
      modifies this
      ensures Valid()
      ensures ok <==> Registrable(registered, promNamespace, keyspaces)
      ensures ok ==> forall k :: k in counters <==> k in keyspaces
      ensures ok ==> forall k :: k in counters ==> fresh(counters[k]) && counters[k].Snapshot() == ZERO
    {
      counters := map[];
      if registered.None? || promNamespace == "" {
        return false;
      }
      var taken := registered.value;
      for i := 0 to |keyspaces|
        invariant Valid()
        invariant forall k :: k in counters ==> fresh(counters[k]) && counters[k].Snapshot() == ZERO
        invariant forall k :: k in counters <==> k in keyspaces[..i]
        invariant Registers(registered.value, keyspaces) == Registers(taken, keyspaces[i..])
      {
        var counter := new CounterType();
        counters := counters[keyspaces[i] := counter];
        if keyspaces[i] in taken {
          return false;
        }
        taken := taken + {keyspaces[i]};
        assert keyspaces[..i + 1] == keyspaces[..i] + [keyspaces[i]];
        assert keyspaces[i..][1..] == keyspaces[i + 1..];
      }
      assert keyspaces[..|keyspaces|] == keyspaces;
      ok := true;
    }

    /** The body shared by the six increment functions. */
    method Inc(ks: string, path: Path, ok: bool)
      requires Valid() && ks in counters && path != PassThrough
      modifies counters[ks]
      ensures counters[ks].Snapshot() == old(counters[ks].Snapshot()).Bump(path, ok)
    {
      var counter := counters[ks];
      match path {
        case TypePath =>
          if ok { counter.contentTypeSuc := counter.contentTypeSuc + 1; }
          else { counter.contentTypeFail := counter.contentTypeFail + 1; }
        case EncodingPath =>
          if ok { counter.contentEncodingSuc := counter.contentEncodingSuc + 1; }
          else { counter.contentEncodingFail := counter.contentEncodingFail + 1; }
        case EncryptionPath =>
          if ok { counter.encryptionSuc := counter.encryptionSuc + 1; }
          else { counter.encryptionFail := counter.encryptionFail + 1; }
      }
    }
  }

  /** One call of `Convert`. */
  datatype Call = Call(ks: string, r: Record, dst: MagicByte, rnd: Option<Nonce>)

  /** What a call does to the counters of `ks`. */
  function Counted<F>(c: Codec<F>, ks: string, before: Counts, call: Call): Counts {
    if call.ks != ks then before
    else
      before.Bump(PathOf(call.r.mb, call.dst), Conversion.Convert(c, ks, call.r, call.dst, call.rnd).Succeeded())
  }

  function BumpedAt(before: map<string, Counts>, ks: string, path: Path, ok: bool): map<string, Counts> {
    map k | k in before :: if k == ks then before[k].Bump(path, ok) else before[k]
  }

  /** What it does to the counters of all keyspaces. */
  function CountedAll<F>(c: Codec<F>, before: map<string, Counts>, call: Call): map<string, Counts> {
    map k | k in before :: Counted(c, k, before[k], call)
  }

  lemma BumpCounts<F>(c: Codec<F>, before: map<string, Counts>, call: Call, ok: bool)
    requires ok == Conversion.Convert(c, call.ks, call.r, call.dst, call.rnd).Succeeded()
    ensures CountedAll(c, before, call) == BumpedAt(before, call.ks, PathOf(call.r.mb, call.dst), ok)
    ensures PathOf(call.r.mb, call.dst) == PassThrough ==> CountedAll(c, before, call) == before
  {
  }

  /** Where the increments go: nowhere, or to the counters. */
  datatype Provider = NoMetrics | Prometheus(metrics: PrometheusMetrics) {
    ghost predicate Valid()
      reads if Prometheus? then {metrics} else {}
    {
      Prometheus? ==> metrics.Valid()
    }

    /** The counter records in use. */
    ghost function Records(): set<CounterType>
      reads if Prometheus? then {metrics} else {}
    {
      if Prometheus? then metrics.counters.Values else {}
    }

    /** The counters of every keyspace. */
    ghost function Snapshots(): map<string, Counts>
      reads if Prometheus? then {metrics} else {}, Records()
    {
      if Prometheus? then map k | k in metrics.counters :: metrics.counters[k].Snapshot() else map[]
    }

    /** A keyspace whose conversions can be counted. */
    predicate Covers(ks: string)
      reads if Prometheus? then {metrics} else {}
    {
      Prometheus? ==> ks in metrics.counters
    }

    method Inc(ks: string, path: Path, ok: bool)
      requires Valid() && Covers(ks) && path != PassThrough
      modifies Records()
      ensures Snapshots() == BumpedAt(old(Snapshots()), ks, path, ok)
    {
      if Prometheus? {
        metrics.Inc(ks, path, ok);
      }
    }
  }

  /** The provider the program ends up with: without a registerer, or when the counters
      cannot be registered, conversions go uncounted. */
  method Init(registered: Option<set<string>>, promNamespace: string, keyspaces: seq<string>) returns (p: Provider)
    ensures p.Valid()
    ensures p.Prometheus? <==> Registrable(registered, promNamespace, keyspaces)
    ensures p.Prometheus? ==> forall k :: k in p.metrics.counters <==> k in keyspaces
    ensures fresh(p.Records()) && p.Snapshots() == if p.Prometheus? then map k | k in keyspaces :: ZERO else map[]
  {
    p := NoMetrics;
    if registered.Some? {
      var metrics := new PrometheusMetrics();
      var ok := metrics.Init(registered, promNamespace, keyspaces);
      if ok {
        p := Prometheus(metrics);
      }
    }
  }

  /** `Convert` with its counters. The result is the pure conversion's; exactly the
      counter of the path taken moves, and only in the caller's keyspace. */
  method Convert<F>(p: Provider, c: Codec<F>, ks: string, r: Record, dst: MagicByte, rnd: Option<Nonce>)
    returns (out: Converted)
    requires p.Valid() && (PathOf(r.mb, dst) != PassThrough ==> p.Covers(ks))
    modifies p.Records()
    ensures out == Conversion.Convert(c, ks, r, dst, rnd)
    ensures p.Snapshots() == CountedAll(c, old(p.Snapshots()), Call(ks, r, dst, rnd))
  {
    var target := dst;
    if target.ctv == 0 {
      target := MagicByte(target.cev, r.mb.ctv, target.encryption);
    }
    if r.mb.ctv != target.ctv && target.ctv != 0 {
      var data := ChangeType(c, ks, r, target, rnd);
      p.Inc(ks, TypePath, data.Ok?);
      out := Finish(r, target, data);
    } else if r.mb.cev != target.cev {
      var data := ChangeEncoding(c, r, target, rnd);
      p.Inc(ks, EncodingPath, data.Ok?);
      out := Finish(r, target, data);
    } else if r.mb.encryption != target.encryption {
      var data := ChangeEncryption(c, r, target, rnd);
      p.Inc(ks, EncryptionPath, data.Ok?);
      out := Finish(r, target, data);
    } else {
      out := Converted(r, None);
    }
    BumpCounts(c, old(p.Snapshots()), Call(ks, r, dst, rnd), out.Succeeded());
  }

  // ---- accounting over runs

  /** The counters of `ks` after a run of calls on any keyspaces, from fresh counters:
      each call on `ks` does to them what `Convert` does. */
  function CountsAfter<F>(c: Codec<F>, ks: string, calls: seq<Call>): Counts {
    if calls == [] then ZERO
    else Counted(c, ks, CountsAfter(c, ks, calls[..|calls| - 1]), calls[|calls| - 1])
  }

  /** The counters of every keyspace are those of its calls. */
  ghost predicate Tallied<F>(p: Provider, c: Codec<F>, calls: seq<Call>)
    reads if p.Prometheus? then {p.metrics} else {}, p.Records()
  {
    forall k :: k in p.Snapshots() ==> p.Snapshots()[k] == CountsAfter(c, k, calls)
  }

  lemma CountsNext<F>(c: Codec<F>, ks: string, calls: seq<Call>, call: Call)
    ensures CountsAfter(c, ks, calls + [call]) == Counted(c, ks, CountsAfter(c, ks, calls), call)
  {
    assert (calls + [call])[..|calls|] == calls;
  }

  /** One more call keeps the tally. */
  method ConvertNext<F>(p: Provider, c: Codec<F>, ghost calls: seq<Call>, call: Call) returns (out: Converted)
    requires p.Valid() && p.Covers(call.ks) && Tallied(p, c, calls)
    modifies p.Records()
    ensures out == Conversion.Convert(c, call.ks, call.r, call.dst, call.rnd)
    ensures Tallied(p, c, calls + [call])
  {
    out := Convert(p, c, call.ks, call.r, call.dst, call.rnd);
    forall k | k in p.Snapshots()
      ensures p.Snapshots()[k] == CountsAfter(c, k, calls + [call])
    {
      CountsNext(c, k, calls, call);
    }
  }

  /** What a run of calls returns, call by call. */
  ghost predicate PureResults<F(!new)>(c: Codec<F>, calls: seq<Call>, outs: seq<Converted>) {
    && |outs| == |calls|
    && forall i :: 0 <= i < |calls| ==>
        outs[i] == Conversion.Convert(c, calls[i].ks, calls[i].r, calls[i].dst, calls[i].rnd)
  }

  /** A run of calls from fresh counters: each gives the pure result, and in the end the
      counters of every keyspace are those of its calls. */
  method ConvertAll<F(!new)>(p: Provider, c: Codec<F>, calls: seq<Call>) returns (outs: seq<Converted>)
    requires p.Valid() && forall i :: 0 <= i < |calls| ==> p.Covers(calls[i].ks)
    requires Tallied(p, c, [])
    modifies p.Records()
    ensures PureResults(c, calls, outs)
    ensures Tallied(p, c, calls)
  {
    outs := [];
    for i := 0 to |calls|
      invariant PureResults(c, calls[..i], outs)
      invariant Tallied(p, c, calls[..i])
    {
      assert calls[..i + 1] == calls[..i] + [calls[i]];
      var out := ConvertNext(p, c, calls[..i], calls[i]);
      outs := outs + [out];
    }
    assert calls[..|calls|] == calls;
  }

  /** The program's conversions from its start. */
  method InitAndConvertAll<F(!new)>(
    c: Codec<F>, registered: Option<set<string>>, promNamespace: string, keyspaces: seq<string>, calls: seq<Call>)
    returns (p: Provider, outs: seq<Converted>)
    requires forall i :: 0 <= i < |calls| ==> calls[i].ks in keyspaces
    ensures p.Prometheus? <==> Registrable(registered, promNamespace, keyspaces)
    ensures PureResults(c, calls, outs)
    ensures Tallied(p, c, calls) && (p.Prometheus? ==> forall k :: k in p.Snapshots() <==> k in keyspaces)
  {
    p := Init(registered, promNamespace, keyspaces);
    assert p.Prometheus? ==> forall k :: k in keyspaces ==> k in p.Snapshots();
    outs := ConvertAll(p, c, calls);
  }

  function CountIf(calls: seq<Call>, p: Call -> bool): nat {
    if calls == [] then 0
    else CountIf(calls[..|calls| - 1], p) + if p(calls[|calls| - 1]) then 1 else 0
  }

  /** What one call adds: one to the six exactly when another label was asked for, and
      to the failures exactly when it returned an error. */
  lemma CallCounts<F>(c: Codec<F>, counts: Counts, call: Call)
    ensures var out := Conversion.Convert(c, call.ks, call.r, call.dst, call.rnd);
            var after := counts.Bump(PathOf(call.r.mb, call.dst), out.Succeeded());
            && after.Failures() == counts.Failures() + (if out.Succeeded() then 0 else 1)
            && after.Successes() + after.Failures() ==
               counts.Successes() + counts.Failures() + (if Resolve(call.r.mb, call.dst) != call.r.mb then 1 else 0)
  {
  }

  /** Over any run of calls on configured keyspaces: the six counters of a keyspace add
      up to its calls that asked for another label, and the three failure counters to
      its calls that returned an error. */
  lemma {:induction false} Accounting<F>(c: Codec<F>, ks: string, calls: seq<Call>)
    ensures CountsAfter(c, ks, calls).Successes() + CountsAfter(c, ks, calls).Failures()
         == CountIf(calls, (call: Call) => call.ks == ks && Resolve(call.r.mb, call.dst) != call.r.mb)
    ensures CountsAfter(c, ks, calls).Failures()
         == CountIf(calls, (call: Call) =>
              call.ks == ks && !Conversion.Convert(c, ks, call.r, call.dst, call.rnd).Succeeded())
  {
    if calls != [] {
      Accounting(c, ks, calls[..|calls| - 1]);
      CallCounts(c, CountsAfter(c, ks, calls[..|calls| - 1]), calls[|calls| - 1]);
    }
  }

  // ---- each counter

  /** A call counts under the first thing it changes: another type that is named, else
      another encoding, else another encryption. */
  predicate ForType(call: Call) {
    call.dst.ctv != 0 && call.dst.ctv != call.r.mb.ctv
  }

  predicate ForEncoding(call: Call) {
    !ForType(call) && call.dst.cev != call.r.mb.cev
  }

  predicate ForEncryption(call: Call) {
    !ForType(call) && call.dst.cev == call.r.mb.cev && call.dst.encryption != call.r.mb.encryption
  }

  lemma CallMoves<F>(c: Codec<F>, ks: string, before: Counts, call: Call)
    ensures var after := Counted(c, ks, before, call);
            var ok := Conversion.Convert(c, call.ks, call.r, call.dst, call.rnd).Succeeded();
            var suc, fail := call.ks == ks && ok, call.ks == ks && !ok;
            && after.contentTypeSuc == before.contentTypeSuc + (if suc && ForType(call) then 1 else 0)
            && after.contentTypeFail == before.contentTypeFail + (if fail && ForType(call) then 1 else 0)
            && after.contentEncodingSuc == before.contentEncodingSuc + (if suc && ForEncoding(call) then 1 else 0)
            && after.contentEncodingFail == before.contentEncodingFail + (if fail && ForEncoding(call) then 1 else 0)
            && after.encryptionSuc == before.encryptionSuc + (if suc && ForEncryption(call) then 1 else 0)
            && after.encryptionFail == before.encryptionFail + (if fail && ForEncryption(call) then 1 else 0)
  {
  }

  /** The calls in a keyspace that count under `counts` and end well, or badly. */
  function Ended<F>(c: Codec<F>, ks: string, calls: seq<Call>, counts: Call -> bool, ok: bool): nat {
    if calls == [] then 0
    else
      var call := calls[|calls| - 1];
      Ended(c, ks, calls[..|calls| - 1], counts, ok) +
      if call.ks == ks && counts(call)
         && Conversion.Convert(c, call.ks, call.r, call.dst, call.rnd).Succeeded() == ok then 1 else 0
  }

  /** Over any run of calls each of the six counters is the number of its own calls. */
  lemma {:induction false} EachCounter<F>(c: Codec<F>, ks: string, calls: seq<Call>)
    ensures CountsAfter(c, ks, calls) == Counts(
              Ended(c, ks, calls, ForEncoding, true), Ended(c, ks, calls, ForEncoding, false),
              Ended(c, ks, calls, ForType, true), Ended(c, ks, calls, ForType, false),
              Ended(c, ks, calls, ForEncryption, true), Ended(c, ks, calls, ForEncryption, false))
  {
    if calls != [] {
      EachCounter(c, ks, calls[..|calls| - 1]);
      CallMoves(c, ks, CountsAfter(c, ks, calls[..|calls| - 1]), calls[|calls| - 1]);
    }
  }
}
