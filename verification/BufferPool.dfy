/** Ownership of pooled buffers under interleaved PUTs. Each step is one pool or
    buffer operation of one request; a step that is not enabled changes nothing, so
    every sequence of steps is an interleaving. */
module BufferPool {
  import opened Prelude
  import opened RedisCrypto
  import opened Handlers

  /** What the handlers compute: whether a request is admitted at all, and what its
      delivered body is prepared to. */
  datatype Handler = Handler(
    admits: (string, map<string, string>) -> bool,
    prepare: (PutRequest, Option<Nonce>) -> Prepared)

  /** The slice `Convert` returns: all of the read buffer, or bytes of its own. */
  datatype Slice = Alias(buffer: nat) | Own(bytes: Bytes)

  /** Where a PUT stands. It holds the first buffer until `Returning` is left and the
      second from `Fetched` to `Answered`; the deferred returns release the second
      first. */
  datatype Phase =
    | Idle | Taken | Reading | Converted
    | Fetched | Emptied | Tagged | Filled | Answered | Returning

  /** A request. `input` and `rnd` record what its body reader and the random reader
      delivered, and are history only. */
  datatype Request = Request(
    keyspace: string, id: string, headers: map<string, string>,
    phase: Phase, b1: nat, b2: nat, mb: bv8, data: Slice, input: Bytes, rnd: Option<Nonce>)

  /** A write handed to Redis: the request as delivered, the bytes found in its buffer,
      and whether Redis confirms. */
  datatype Write = Write(req: PutRequest, rnd: Option<Nonce>, up: bool, bytes: Bytes)

  datatype State = State(pool: set<nat>, contents: map<nat, Bytes>, requests: map<nat, Request>, log: seq<Write>)

  datatype Step =
    | Begin(r: nat, b: nat, keyspace: string, id: string, headers: map<string, string>) // bufPool.Get
    | ResetFirst(r: nat)
    | Read(r: nat, chunk: Bytes)
    | ReadFails(r: nat)
    | Convert(r: nat, rnd: Option<Nonce>, alias: bool) // validate and convert, or refuse
    | FetchSecond(r: nat, b: nat)                      // bufPool.Get in writeToBufPool
    | ResetSecond(r: nat)
    | WriteTag(r: nat)
    | WriteData(r: nat)
    | Send(r: nat, up: bool)
    | ReleaseSecond(r: nat)
    | ReleaseFirst(r: nat)
    | Drop(b: nat)                                     // the pool may forget a buffer

  const START := State({}, map[], map[], [])

  predicate HoldsTwo(phase: Phase) {
    phase == Fetched || phase == Emptied || phase == Tagged || phase == Filled || phase == Answered
  }

  /** The buffers a request has taken and not yet handed back. */
  predicate Holds(q: Request, b: nat) {
    (q.phase != Idle && b == q.b1) || (HoldsTwo(q.phase) && b == q.b2)
  }

  /** The request its body reader has delivered so far. */
  function Delivered(q: Request): PutRequest {
    PutRequest(q.keyspace, q.id, q.headers, Body(q.input))
  }

  predicate At(s: State, r: nat, phase: Phase) {
    r in s.requests && s.requests[r].phase == phase
    && s.requests[r].b1 in s.contents && s.requests[r].b2 in s.contents
  }

  /** The pool hands out a buffer it holds, or a new one. */
  predicate CanGet(s: State, b: nat) {
    b in s.pool || b !in s.contents
  }

  function AfterGet(s: State, b: nat): State {
    s.(pool := s.pool - {b}, contents := if b in s.contents then s.contents else s.contents[b := []])
  }

  function SliceBytes(s: State, d: Slice): Bytes {
    match d
    case Alias(b) => if b in s.contents then s.contents[b] else []
    case Own(bytes) => bytes
  }

  function Move(s: State, r: nat, phase: Phase): State
    requires r in s.requests
  {
    s.(requests := s.requests[r := s.requests[r].(phase := phase)])
  }

  function Fill(s: State, b: nat, bytes: Bytes): State {
    s.(contents := s.contents[b := bytes])
  }

  /** Validates and converts what is in the read buffer. The result may alias that
      buffer when it holds the same bytes. */
  function AfterConvert(h: Handler, q: Request, read: Bytes, rnd: Option<Nonce>, alias: bool): Request {
    match h.prepare(PutRequest(q.keyspace, q.id, q.headers, Body(read)), rnd)
    case Refuse(_) => q.(phase := Returning)
    case Accept(record) =>
      q.(phase := Converted, rnd := rnd, mb := record.mb.Get(),
         data := if alias && record.data == read then Alias(q.b1) else Own(record.data))
  }

  function Apply(h: Handler, s: State, e: Step): State {
    match e
    case Begin(r, b, keyspace, id, headers) =>
      if !h.admits(keyspace, headers) || (r in s.requests && s.requests[r].phase != Idle) || !CanGet(s, b) then s
      else
        var q := Request(keyspace, id, headers, Taken, b, b, 0, Own([]), [], None);
        AfterGet(s, b).(requests := s.requests[r := q])
    case ResetFirst(r) =>
      if !At(s, r, Taken) then s else Move(Fill(s, s.requests[r].b1, []), r, Reading)
    case Read(r, chunk) =>
      if !At(s, r, Reading) then s
      else
        var q := s.requests[r];
        Fill(s, q.b1, s.contents[q.b1] + chunk).(requests := s.requests[r := q.(input := q.input + chunk)])
    case ReadFails(r) =>
      if !At(s, r, Reading) then s else Move(s, r, Returning)
    case Convert(r, rnd, alias) =>
      if !At(s, r, Reading) then s
      else
        var q := s.requests[r];
        s.(requests := s.requests[r := AfterConvert(h, q, s.contents[q.b1], rnd, alias)])
    case FetchSecond(r, b) =>
      if !At(s, r, Converted) || !CanGet(s, b) then s
      else AfterGet(s, b).(requests := s.requests[r := s.requests[r].(phase := Fetched, b2 := b)])
    case ResetSecond(r) =>
      if !At(s, r, Fetched) then s else Move(Fill(s, s.requests[r].b2, []), r, Emptied)
    case WriteTag(r) =>
      if !At(s, r, Emptied) then s
      else
        var q := s.requests[r];
        Move(Fill(s, q.b2, s.contents[q.b2] + [q.mb]), r, Tagged)
    case WriteData(r) =>
      if !At(s, r, Tagged) then s
      else
        var q := s.requests[r];
        Move(Fill(s, q.b2, s.contents[q.b2] + SliceBytes(s, q.data)), r, Filled)
    case Send(r, up) =>
      if !At(s, r, Filled) then s
      else
        var q := s.requests[r];
        Move(s.(log := s.log + [Write(Delivered(q), q.rnd, up, s.contents[q.b2])]), r, Answered)
    case ReleaseSecond(r) =>
      if !At(s, r, Answered) then s else Move(s.(pool := s.pool + {s.requests[r].b2}), r, Returning)
    case ReleaseFirst(r) =>
      if !At(s, r, Returning) then s else Move(s.(pool := s.pool + {s.requests[r].b1}), r, Idle)
    case Drop(b) =>
      if b !in s.pool then s else s.(pool := s.pool - {b}, contents := s.contents - {b})
  }

  function Run(h: Handler, steps: seq<Step>): State {
    if steps == [] then START else Apply(h, Run(h, steps[..|steps| - 1]), steps[|steps| - 1])
  }

  // ---- the invariant

  /** From its conversion to its second buffer's filling, a request carries the record
      it was prepared to. */
  ghost predicate Carries(h: Handler, contents: map<nat, Bytes>, q: Request)
    requires q.b1 in contents
  {
    && contents[q.b1] == q.input
    && var prepared := h.prepare(Delivered(q), q.rnd);
       && prepared.Accept? && q.mb == prepared.record.mb.Get()
       && (q.data == Own(prepared.record.data) || (q.data == Alias(q.b1) && prepared.record.data == q.input))
  }

  /** A request's bytes are its prepared record, framed. */
  ghost predicate Framed(h: Handler, req: PutRequest, rnd: Option<Nonce>, bytes: Bytes) {
    var prepared := h.prepare(req, rnd);
    prepared.Accept? && bytes == Frame(prepared.record)
  }

  /** What a request's own buffers hold, phase by phase. */
  ghost predicate Coherent(h: Handler, contents: map<nat, Bytes>, q: Request) {
    && (q.phase != Idle ==> q.b1 in contents)
    && (HoldsTwo(q.phase) ==> q.b2 in contents && q.b1 != q.b2)
    && (q.phase == Taken ==> q.input == [])
    && (q.phase == Reading ==> contents[q.b1] == q.input)
    && (q.phase == Converted || q.phase == Fetched || q.phase == Emptied || q.phase == Tagged ==>
          Carries(h, contents, q))
    && (q.phase == Emptied ==> contents[q.b2] == [])
    && (q.phase == Tagged ==> contents[q.b2] == [q.mb])
    && (q.phase == Filled ==> Framed(h, Delivered(q), q.rnd, contents[q.b2]))
  }

  ghost predicate AllCoherent(h: Handler, s: State) {
    forall r :: r in s.requests ==> Coherent(h, s.contents, s.requests[r])
  }

  ghost predicate Owned(s: State, b: nat) {
    exists r :: r in s.requests && Holds(s.requests[r], b)
  }

  ghost predicate Exclusive(s: State) {
    && (forall r, b :: r in s.requests && Holds(s.requests[r], b) ==> b !in s.pool)
    && (forall r1, r2, b | r1 in s.requests && r2 in s.requests ::
          Holds(s.requests[r1], b) && Holds(s.requests[r2], b) ==> r1 == r2)
  }

  ghost predicate Accounted(s: State) {
    s.pool <= s.contents.Keys && forall b :: b in s.contents ==> b in s.pool || Owned(s, b)
  }

  ghost predicate Intact(h: Handler, log: seq<Write>) {
    forall i :: 0 <= i < |log| ==> Framed(h, log[i].req, log[i].rnd, log[i].bytes)
  }

  ghost predicate Inv(h: Handler, s: State) {
    AllCoherent(h, s) && Exclusive(s) && Accounted(s) && Intact(h, s.log)
  }

  // ---- what steps keep

  ghost predicate AgreeOff(c1: map<nat, Bytes>, c2: map<nat, Bytes>, b: nat) {
    forall b0 :: b0 in c1 && b0 != b ==> b0 in c2 && c2[b0] == c1[b0]
  }

  lemma CoherentElsewhere(h: Handler, c1: map<nat, Bytes>, c2: map<nat, Bytes>, q: Request, b: nat)
    requires Coherent(h, c1, q) && !Holds(q, b) && AgreeOff(c1, c2, b)
    ensures Coherent(h, c2, q)
  {
  }

  /** Only r became q, and only b's contents changed, which nobody else holds. */
  lemma CoherenceKept(h: Handler, s: State, t: State, r: nat, q: Request, b: nat)
    requires AllCoherent(h, s) && t.requests == s.requests[r := q] && AgreeOff(s.contents, t.contents, b)
    requires forall r0 :: r0 in s.requests && r0 != r ==> !Holds(s.requests[r0], b)
    requires Coherent(h, t.contents, q)
    ensures AllCoherent(h, t)
  {
    forall r0 | r0 in t.requests && r0 != r
      ensures Coherent(h, t.contents, t.requests[r0])
    {
      CoherentElsewhere(h, s.contents, t.contents, s.requests[r0], b);
    }
  }

  /** Only r became q, which still holds what r held, but for b. */
  lemma OwnersKept(s: State, t: State, r: nat, q: Request, b: nat)
    requires t.requests == s.requests[r := q]
    requires forall b0 :: b0 != b && r in s.requests && Holds(s.requests[r], b0) ==> Holds(q, b0)
    ensures forall b0 :: b0 != b && Owned(s, b0) ==> Owned(t, b0)
  {
    forall b0 | b0 != b && Owned(s, b0)
      ensures Owned(t, b0)
    {
      var r0 :| r0 in s.requests && Holds(s.requests[r0], b0);
      assert r0 in t.requests && Holds(t.requests[r0], b0);
    }
  }

  /** A step of r that keeps its holdings and writes at most into a buffer it holds. */
  lemma StaysKeeps(h: Handler, s: State, t: State, r: nat, q: Request, b: nat, bytes: Bytes)
    requires Inv(h, s) && r in s.requests && t.requests == s.requests[r := q]
    requires Holds(s.requests[r], b) && t.contents == s.contents[b := bytes] && t.pool == s.pool
    requires forall b0 :: Holds(q, b0) <==> Holds(s.requests[r], b0)
    requires Coherent(h, t.contents, q) && Intact(h, t.log)
    ensures Inv(h, t)
  {
    CoherenceKept(h, s, t, r, q, b);
    OwnersKept(s, t, r, q, b);
    assert Holds(t.requests[r], b);
  }

  lemma NobodyHolds(h: Handler, s: State, b: nat)
    requires Inv(h, s) && CanGet(s, b)
    ensures forall r :: r in s.requests ==> !Holds(s.requests[r], b)
  {
    forall r | r in s.requests
      ensures !Holds(s.requests[r], b)
    {
      assert Coherent(h, s.contents, s.requests[r]);
    }
  }

  lemma GotExclusive(s: State, t: State, r: nat, b: nat, q: Request)
    requires Exclusive(s) && t.requests == s.requests[r := q] && t.pool == s.pool - {b}
    requires forall r0 :: r0 in s.requests ==> !Holds(s.requests[r0], b)
    requires forall b0 :: Holds(q, b0) <==> b0 == b || (r in s.requests && Holds(s.requests[r], b0))
    ensures Exclusive(t)
  {
  }

  /** Taking a buffer out of the pool, or making one, gives it one owner. */
  lemma GetKeeps(h: Handler, s: State, t: State, r: nat, b: nat, q: Request)
    requires Inv(h, s) && CanGet(s, b) && t.requests == s.requests[r := q]
    requires t.pool == s.pool - {b} && t.contents == AfterGet(s, b).contents && t.log == s.log
    requires forall b0 :: Holds(q, b0) <==> b0 == b || (r in s.requests && Holds(s.requests[r], b0))
    requires Coherent(h, t.contents, q)
    ensures Inv(h, t)
  {
    NobodyHolds(h, s, b);
    CoherenceKept(h, s, t, r, q, b);
    OwnersKept(s, t, r, q, b);
    GotExclusive(s, t, r, b, q);
    assert Holds(t.requests[r], b);
  }

  lemma GivenExclusive(s: State, t: State, r: nat, b: nat, q: Request)
    requires Exclusive(s) && r in s.requests && Holds(s.requests[r], b) && t.requests == s.requests[r := q]
    requires t.pool == s.pool + {b}
    requires forall b0 :: Holds(q, b0) <==> b0 != b && Holds(s.requests[r], b0)
    ensures Exclusive(t)
  {
  }

  /** Handing a buffer back leaves it to the pool alone. */
  lemma PutKeeps(h: Handler, s: State, t: State, r: nat, b: nat, q: Request)
    requires Inv(h, s) && r in s.requests && Holds(s.requests[r], b) && t.requests == s.requests[r := q]
    requires t.pool == s.pool + {b} && t.contents == s.contents && t.log == s.log
    requires forall b0 :: Holds(q, b0) <==> b0 != b && Holds(s.requests[r], b0)
    requires Coherent(h, t.contents, q)
    ensures Inv(h, t)
  {
    assert Coherent(h, s.contents, s.requests[r]);
    CoherenceKept(h, s, t, r, q, b);
    OwnersKept(s, t, r, q, b);
    GivenExclusive(s, t, r, b, q);
  }

  lemma DropKeeps(h: Handler, s: State, b: nat)
    requires Inv(h, s)
    ensures Inv(h, Apply(h, s, Drop(b)))
  {
    var t := Apply(h, s, Drop(b));
    if b in s.pool {
      forall r | r in t.requests
        ensures Coherent(h, t.contents, t.requests[r])
      {
        assert Coherent(h, s.contents, s.requests[r]);
        CoherentElsewhere(h, s.contents, t.contents, s.requests[r], b);
      }
      assert forall b0 :: Owned(s, b0) ==> Owned(t, b0);
    }
  }

  /** Steps that fill a request's second buffer. */
  lemma SecondStepKeeps(h: Handler, s: State, e: Step, r: nat)
    requires Inv(h, s)
    requires e == ResetSecond(r) || e == WriteTag(r) || e == WriteData(r)
    ensures Inv(h, Apply(h, s, e))
  {
    var t := Apply(h, s, e);
    if t != s {
      var q := s.requests[r];
      assert Coherent(h, s.contents, q);
      StaysKeeps(h, s, t, r, t.requests[r], q.b2, t.contents[q.b2]);
    }
  }

  lemma FirstStepKeeps(h: Handler, s: State, e: Step, r: nat)
    requires Inv(h, s)
    requires e == ResetFirst(r) || e == ReadFails(r)
    ensures Inv(h, Apply(h, s, e))
  {
    var t := Apply(h, s, e);
    if t != s {
      var q := s.requests[r];
      assert Coherent(h, s.contents, q);
      StaysKeeps(h, s, t, r, t.requests[r], q.b1, t.contents[q.b1]);
    }
  }

  lemma SendKeeps(h: Handler, s: State, r: nat, up: bool)
    requires Inv(h, s)
    ensures Inv(h, Apply(h, s, Send(r, up)))
  {
    if At(s, r, Filled) {
      var t, q := Apply(h, s, Send(r, up)), s.requests[r];
      assert Coherent(h, s.contents, q);
      StaysKeeps(h, s, t, r, t.requests[r], q.b2, t.contents[q.b2]);
    }
  }

  lemma ReadKeeps(h: Handler, s: State, r: nat, chunk: Bytes)
    requires Inv(h, s)
    ensures Inv(h, Apply(h, s, Read(r, chunk)))
  {
    if At(s, r, Reading) {
      var t, q := Apply(h, s, Read(r, chunk)), s.requests[r];
      assert Coherent(h, s.contents, q);
      StaysKeeps(h, s, t, r, t.requests[r], q.b1, t.contents[q.b1]);
    }
  }

  lemma ConvertKeeps(h: Handler, s: State, r: nat, rnd: Option<Nonce>, alias: bool)
    requires Inv(h, s)
    ensures Inv(h, Apply(h, s, Convert(r, rnd, alias)))
  {
    if At(s, r, Reading) {
      var t, q := Apply(h, s, Convert(r, rnd, alias)), s.requests[r];
      assert Coherent(h, s.contents, q);
      StaysKeeps(h, s, t, r, t.requests[r], q.b1, t.contents[q.b1]);
    }
  }

  lemma BeginKeeps(h: Handler, s: State, e: Step)
    requires Inv(h, s) && e.Begin?
    ensures Inv(h, Apply(h, s, e))
  {
    var t := Apply(h, s, e);
    if t != s {
      GetKeeps(h, s, t, e.r, e.b, t.requests[e.r]);
    }
  }

  lemma FetchKeeps(h: Handler, s: State, r: nat, b: nat)
    requires Inv(h, s)
    ensures Inv(h, Apply(h, s, FetchSecond(r, b)))
  {
    if At(s, r, Converted) && CanGet(s, b) {
      var t := Apply(h, s, FetchSecond(r, b));
      assert Coherent(h, s.contents, s.requests[r]);
      GetKeeps(h, s, t, r, b, t.requests[r]);
    }
  }

  lemma ReleaseKeeps(h: Handler, s: State, e: Step, r: nat)
    requires Inv(h, s) && (e == ReleaseFirst(r) || e == ReleaseSecond(r))
    ensures Inv(h, Apply(h, s, e))
  {
    var t := Apply(h, s, e);
    if t != s {
      assert Coherent(h, s.contents, s.requests[r]);
      PutKeeps(h, s, t, r, if e.ReleaseSecond? then s.requests[r].b2 else s.requests[r].b1, t.requests[r]);
    }
  }

  lemma StepKeeps(h: Handler, s: State, e: Step)
    requires Inv(h, s)
    ensures Inv(h, Apply(h, s, e))
  {
    match e
    case Read(r, chunk) => ReadKeeps(h, s, r, chunk);
    case Convert(r, rnd, alias) => ConvertKeeps(h, s, r, rnd, alias);
    case Send(r, up) => SendKeeps(h, s, r, up);
    case Drop(b) => DropKeeps(h, s, b);
    case Begin(_, _, _, _, _) => BeginKeeps(h, s, e);
    case FetchSecond(r, b) => FetchKeeps(h, s, r, b);
    case ReleaseFirst(r) => ReleaseKeeps(h, s, e, r);
    case ReleaseSecond(r) => ReleaseKeeps(h, s, e, r);
    case ResetFirst(r) => FirstStepKeeps(h, s, e, r);
    case ReadFails(r) => FirstStepKeeps(h, s, e, r);
    case ResetSecond(r) => SecondStepKeeps(h, s, e, r);
    case WriteTag(r) => SecondStepKeeps(h, s, e, r);
    case WriteData(r) => SecondStepKeeps(h, s, e, r);
  }

  lemma {:induction false} RunKeeps(h: Handler, steps: seq<Step>)
    ensures Inv(h, Run(h, steps))
  {
    if steps != [] {
      RunKeeps(h, steps[..|steps| - 1]);
      StepKeeps(h, Run(h, steps[..|steps| - 1]), steps[|steps| - 1]);
    }
  }

  /** Some interleaving leads to s. */
  ghost predicate Reachable(h: Handler, s: State) {
    exists steps :: Run(h, steps) == s
  }

  lemma ReachableInv(h: Handler, s: State)
    requires Reachable(h, s)
    ensures Inv(h, s)
  {
    var steps :| Run(h, steps) == s;
    RunKeeps(h, steps);
  }

  /** In every interleaving, each buffer is in the pool or held by exactly one
      request, and no request's two buffers coincide. */
  lemma OneOwner(h: Handler, s: State)
    requires Reachable(h, s)
    ensures forall b :: b in s.contents ==> (b in s.pool) != Owned(s, b)
    ensures forall r1, r2, b | r1 in s.requests && r2 in s.requests ::
              Holds(s.requests[r1], b) && Holds(s.requests[r2], b) ==> r1 == r2
    ensures forall r :: r in s.requests && HoldsTwo(s.requests[r].phase) ==> s.requests[r].b1 != s.requests[r].b2
  {
    ReachableInv(h, s);
    assert forall r :: r in s.requests ==> Coherent(h, s.contents, s.requests[r]);
  }

  /** In every interleaving, the bytes handed to Redis are the framed record prepared
      from the request exactly as it was delivered, also when the converted value is an
      alias of the buffer the body was read into. */
  lemma WritesIntact(h: Handler, s: State)
    requires Reachable(h, s)
    ensures Intact(h, s.log)
    ensures forall r :: r in s.requests && s.requests[r].phase == Reading ==>
              s.requests[r].b1 in s.contents && s.contents[s.requests[r].b1] == s.requests[r].input
  {
    ReachableInv(h, s);
    assert forall r :: r in s.requests ==> Coherent(h, s.contents, s.requests[r]);
  }

  // ---- a request runs through

  ghost predicate AllAdmitted(h: Handler, s: State) {
    forall r :: r in s.requests && s.requests[r].phase != Idle ==>
      h.admits(s.requests[r].keyspace, s.requests[r].headers)
  }

  lemma StepAdmitted(h: Handler, s: State, e: Step)
    requires AllAdmitted(h, s)
    ensures AllAdmitted(h, Apply(h, s, e))
  {
  }

  /** Only admitted requests take buffers. */
  lemma {:induction false} OnlyAdmitted(h: Handler, steps: seq<Step>)
    ensures AllAdmitted(h, Run(h, steps))
  {
    if steps != [] {
      OnlyAdmitted(h, steps[..|steps| - 1]);
      StepAdmitted(h, Run(h, steps[..|steps| - 1]), steps[|steps| - 1]);
    }
  }

  /** From its delivered body to its second buffer. */
  lemma Converts(h: Handler, s: State, r: nat, rnd: Option<Nonce>, alias: bool, b: nat) returns (t: State)
    requires At(s, r, Reading) && CanGet(s, b) && h.prepare(Delivered(s.requests[r]), rnd).Accept?
    requires s.contents[s.requests[r].b1] == s.requests[r].input && b != s.requests[r].b1
    ensures t == Apply(h, Apply(h, Apply(h, s, Convert(r, rnd, alias)), FetchSecond(r, b)), ResetSecond(r))
    ensures At(t, r, Emptied) && t.contents[b] == [] && t.log == s.log
    ensures var q, record := t.requests[r], h.prepare(Delivered(s.requests[r]), rnd).record;
            && q.b1 == s.requests[r].b1 && q.b2 == b && Delivered(q) == Delivered(s.requests[r]) && q.rnd == rnd
            && q.mb == record.mb.Get() && SliceBytes(t, q.data) == record.data
            && q.data in {Own(record.data), Alias(q.b1)}
  {
    t := Apply(h, Apply(h, Apply(h, s, Convert(r, rnd, alias)), FetchSecond(r, b)), ResetSecond(r));
  }

  /** From there to Redis. */
  lemma Writes(h: Handler, s: State, r: nat, up: bool) returns (t: State)
    requires At(s, r, Emptied) && s.contents[s.requests[r].b2] == []
    requires s.requests[r].data.Alias? ==> s.requests[r].data.buffer == s.requests[r].b1 != s.requests[r].b2
    ensures t == Apply(h, Apply(h, Apply(h, s, WriteTag(r)), WriteData(r)), Send(r, up))
    ensures At(t, r, Answered) && t.requests[r].b1 == s.requests[r].b1 && t.requests[r].b2 == s.requests[r].b2
    ensures var q := s.requests[r];
            t.log == s.log + [Write(Delivered(q), q.rnd, up, [q.mb] + SliceBytes(s, q.data))]
  {
    t := Apply(h, Apply(h, Apply(h, s, WriteTag(r)), WriteData(r)), Send(r, up));
    assert [] + [s.requests[r].mb] == [s.requests[r].mb];
  }

  lemma Releases(h: Handler, s: State, r: nat) returns (t: State)
    requires At(s, r, Answered)
    ensures t == Apply(h, Apply(h, s, ReleaseSecond(r)), ReleaseFirst(r))
    ensures r in t.requests && t.requests[r].phase == Idle && t.log == s.log
    ensures t.pool == s.pool + {s.requests[r].b1, s.requests[r].b2}
  {
    t := Apply(h, Apply(h, s, ReleaseSecond(r)), ReleaseFirst(r));
  }

  /** Its eight steps from there, with nothing in between. */
  function Through(h: Handler, s: State, r: nat, rnd: Option<Nonce>, alias: bool, b: nat, up: bool): State {
    var converted := Apply(h, Apply(h, Apply(h, s, Convert(r, rnd, alias)), FetchSecond(r, b)), ResetSecond(r));
    var sent := Apply(h, Apply(h, Apply(h, converted, WriteTag(r)), WriteData(r)), Send(r, up));
    Apply(h, Apply(h, sent, ReleaseSecond(r)), ReleaseFirst(r))
  }

  /** A request whose body was delivered and is accepted can run through, in its own eight
      steps: exactly its framed record is handed to Redis, and both its buffers are back in
      the pool. */
  lemma RunsThrough(h: Handler, s: State, r: nat, rnd: Option<Nonce>, alias: bool, b: nat, up: bool)
    returns (t: State)
    requires Inv(h, s) && At(s, r, Reading) && CanGet(s, b)
    requires h.prepare(Delivered(s.requests[r]), rnd).Accept?
    ensures t == Through(h, s, r, rnd, alias, b, up)
    ensures r in t.requests && t.requests[r].phase == Idle && s.requests[r].b1 in t.pool && b in t.pool
    ensures t.log == s.log + [Write(Delivered(s.requests[r]), rnd, up,
                                    Frame(h.prepare(Delivered(s.requests[r]), rnd).record))]
  {
    assert Coherent(h, s.contents, s.requests[r]);
    assert Holds(s.requests[r], s.requests[r].b1);
    t := Converts(h, s, r, rnd, alias, b);
    t := Writes(h, t, r, up);
    t := Releases(h, t, r);
  }

  /** One that is refused, or whose body cannot be read, returns its buffer and writes
      nothing. */
  lemma RefusedReturns(h: Handler, s: State, r: nat, rnd: Option<Nonce>, alias: bool)
    requires Inv(h, s) && At(s, r, Reading)
    ensures var t := Apply(h, Apply(h, s, ReadFails(r)), ReleaseFirst(r));
            t.requests[r].phase == Idle && t.log == s.log && t.pool == s.pool + {s.requests[r].b1}
    ensures h.prepare(Delivered(s.requests[r]), rnd).Refuse? ==>
              var t := Apply(h, Apply(h, s, Convert(r, rnd, alias)), ReleaseFirst(r));
              t.requests[r].phase == Idle && t.log == s.log && t.pool == s.pool + {s.requests[r].b1}
  {
    assert Coherent(h, s.contents, s.requests[r]);
  }
}
