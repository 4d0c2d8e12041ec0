/** The FindX bounded queue and its workers as interleaved atomic steps. A step
    that is not enabled changes nothing, so every sequence of steps is an
    interleaving. `attempts`, `sends`, `dequeued` and `finished` are history. */
module FindXProtocol {
  import opened RedisKeys

  const DEFAULT_CHANNEL_BUFFER_SIZE: nat := 128
  const DEFAULT_THREAD: nat := 1

  datatype Worker = Idle | Holding(id: string) | Exited

  /** A call of Add past its enabled check; past its send or its refusal, but not
      yet counted. */
  datatype Adder = Checked(id: string) | Sent(id: string) | Refused(id: string)

  /** A call of Close: past its enabled check; with the flags cleared; with the channel
      closed, waiting for the workers. */
  datatype Closer = Passed | Disabled | Waiting

  datatype Response = TransportError | Status(code: int)

  datatype Outcome = Success | Rejected | Failed

  datatype Metrics = Metrics(addSuc: nat, addFail: nat, addRej: nat, sentSuc: nat, sentFail: nat, sentRej: nat) {
    function Finished(): nat {
      sentSuc + sentFail + sentRej
    }

    function Bump(o: Outcome): Metrics {
      match o
      case Success => this.(sentSuc := sentSuc + 1)
      case Rejected => this.(sentRej := sentRej + 1)
      case Failed => this.(sentFail := sentFail + 1)
    }
  }

  datatype State = State(
    keyspace: string,
    Enabled: bool,
    enabled: bool,
    cap: nat,
    ch: seq<string>,
    closed: bool,
    workers: seq<Worker>,
    adders: map<nat, Adder>,
    closers: map<nat, Closer>,
    panicked: bool,
    metrics: Metrics,
    attempts: nat,
    sends: seq<string>,
    dequeued: seq<string>,
    finished: seq<string>)

  datatype Step =
    | AddCheck(a: nat, id: string)
    | AddSend(a: nat)
    | AddCount(a: nat)
    | Reject
    | Take(w: nat)
    | Finish(w: nat, response: Response)
    | Exit(w: nat)
    | CloseCheck(c: nat)
    | CloseDisable(c: nat)
    | CloseChannel(c: nat)
    | CloseReturn(c: nat)

  /** Before Start, and after a Start that fails. */
  function Stopped(keyspace: string, Enabled: bool): State {
    State(keyspace, Enabled, false, 0, [], false, [], map[], map[], false, Metrics(0, 0, 0, 0, 0, 0), 0, [], [], [])
  }

  /** The settings Start reads; `validURL` is whether the URL parses. */
  datatype Settings = Settings(keyspace: string, Enabled: bool, validURL: bool, bufferSize: int, thread: int)

  /** What Start leaves behind. */
  function Started(f: Settings): State {
    if !f.Enabled || !f.validURL then Stopped(f.keyspace, false)
    else
      var threads := if f.thread < 1 then DEFAULT_THREAD else f.thread;
      Stopped(f.keyspace, true).(
        enabled := true,
        cap := if f.bufferSize < 1 then DEFAULT_CHANNEL_BUFFER_SIZE else f.bufferSize,
        workers := seq(threads, _ => Idle))
  }

  /** How one dequeued id is counted. The `dm` keyspace fails ids without a comma
      before any request is made. */
  function OutcomeOf(keyspace: string, id: string, response: Response): Outcome {
    if keyspace == "dm" && |Split(id, ',')| < 2 then Failed
    else
      match response
      case TransportError => Failed
      case Status(code) => if code < 300 then Success else if code < 500 then Rejected else Failed
  }

  function SetWorker(s: State, w: nat, worker: Worker): State
    requires w < |s.workers|
  {
    s.(workers := s.workers[w := worker])
  }

  function Apply(s: State, e: Step): State {
    if s.panicked then s
    else
      match e
      case AddCheck(a, id) =>
        if s.enabled && a !in s.adders then
          s.(adders := s.adders[a := Checked(id)], attempts := s.attempts + 1)
        else s
      case AddSend(a) =>
        if a !in s.adders || !s.adders[a].Checked? then s
        else
          var id := s.adders[a].id;
          if s.closed then s.(panicked := true)
          else if |s.ch| < s.cap then
            s.(ch := s.ch + [id], sends := s.sends + [id], adders := s.adders[a := Sent(id)])
          else s.(adders := s.adders[a := Refused(id)])
      case AddCount(a) =>
        if a !in s.adders || s.adders[a].Checked? then s
        else if s.adders[a].Sent? then
          s.(adders := s.adders - {a}, metrics := s.metrics.(addSuc := s.metrics.addSuc + 1))
        else s.(adders := s.adders - {a}, metrics := s.metrics.(addFail := s.metrics.addFail + 1))
      case Reject =>
        if s.enabled then s.(metrics := s.metrics.(addRej := s.metrics.addRej + 1)) else s
      case Take(w) =>
        if w < |s.workers| && s.workers[w].Idle? && s.ch != [] then
          SetWorker(s, w, Holding(s.ch[0])).(ch := s.ch[1..], dequeued := s.dequeued + [s.ch[0]])
        else s
      case Finish(w, response) =>
        if w < |s.workers| && s.workers[w].Holding? then
          var id := s.workers[w].id;
          SetWorker(s, w, Idle).(metrics := s.metrics.Bump(OutcomeOf(s.keyspace, id, response)),
                                 finished := s.finished + [id])
        else s
      case Exit(w) =>
        if w < |s.workers| && s.workers[w].Idle? && s.closed && s.ch == [] then SetWorker(s, w, Exited) else s
      case CloseCheck(c) =>
        if s.enabled && c !in s.closers then s.(closers := s.closers[c := Passed]) else s
      case CloseDisable(c) =>
        if c !in s.closers || !s.closers[c].Passed? then s
        else s.(Enabled := false, enabled := false, closers := s.closers[c := Disabled])
      case CloseChannel(c) =>
        if c !in s.closers || !s.closers[c].Disabled? then s
        else if s.closed then s.(panicked := true)
        else s.(closed := true, closers := s.closers[c := Waiting])
      case CloseReturn(c) =>
        if c !in s.closers || !s.closers[c].Waiting? || !AllExited(s) then s
        else s.(closers := s.closers - {c})
  }

  function Run(s: State, steps: seq<Step>): State {
    if steps == [] then s else Apply(Run(s, steps[..|steps| - 1]), steps[|steps| - 1])
  }

  predicate AllExited(s: State) {
    forall w :: 0 <= w < |s.workers| ==> s.workers[w].Exited?
  }

  // ---- counting workers and Adds

  function Held(workers: seq<Worker>): nat {
    if workers == [] then 0
    else Held(workers[..|workers| - 1]) + if workers[|workers| - 1].Holding? then 1 else 0
  }

  function Live(workers: seq<Worker>): nat {
    if workers == [] then 0
    else Live(workers[..|workers| - 1]) + if workers[|workers| - 1].Exited? then 0 else 1
  }

  /** The Adds between their send and their count. */
  function Uncounted(adders: map<nat, Adder>): set<nat> {
    set a | a in adders && adders[a].Sent?
  }

  lemma {:induction false} CountsAfterUpdate(workers: seq<Worker>, w: nat, worker: Worker)
    requires w < |workers|
    ensures Held(workers[w := worker]) ==
            Held(workers) + (if worker.Holding? then 1 else 0) - (if workers[w].Holding? then 1 else 0)
    ensures Live(workers[w := worker]) ==
            Live(workers) + (if worker.Exited? then 0 else 1) - (if workers[w].Exited? then 0 else 1)
  {
    var n := |workers| - 1;
    if w < n {
      assert workers[w := worker][..n] == workers[..n][w := worker];
      CountsAfterUpdate(workers[..n], w, worker);
    } else {
      assert workers[w := worker][..n] == workers[..n];
    }
  }

  lemma {:induction false} CountsBound(workers: seq<Worker>)
    ensures Held(workers) <= |workers|
    ensures (forall w :: 0 <= w < |workers| ==> workers[w].Exited?) <==> Live(workers) == 0
    ensures (forall w :: 0 <= w < |workers| ==> !workers[w].Holding?) <==> Held(workers) == 0
  {
    if workers != [] {
      CountsBound(workers[..|workers| - 1]);
      assert workers == workers[..|workers| - 1] + [workers[|workers| - 1]];
    }
  }

  // ---- the invariant

  ghost predicate Conserved(s: State) {
    && s.dequeued + s.ch == s.sends
    && |s.sends| == |s.ch| + Held(s.workers) + s.metrics.Finished()
    && |s.sends| == s.metrics.addSuc + |Uncounted(s.adders)|
    && s.attempts == s.metrics.addSuc + s.metrics.addFail + |s.adders|
  }

  ghost predicate Wired(s: State) {
    && |s.ch| <= s.cap
    && (s.closed ==> !s.enabled)
    && (forall c :: c in s.closers && s.closers[c].Disabled? ==> !s.enabled)
    && (forall c :: c in s.closers && s.closers[c].Waiting? ==> s.closed)
    && (s.cap == 0 ==> s.adders == map[] && s.closers == map[] && !s.enabled && !s.closed)
    && (s.workers == [] <==> s.cap == 0)
    && (forall w :: 0 <= w < |s.workers| && s.workers[w].Exited? ==> s.closed && s.ch == [])
  }

  ghost predicate Inv(s: State) {
    Conserved(s) && Wired(s)
  }

  lemma UncountedAfterSend(adders: map<nat, Adder>, a: nat, id: string)
    requires a in adders && adders[a].Checked?
    ensures |Uncounted(adders[a := Sent(id)])| == |Uncounted(adders)| + 1
    ensures |Uncounted(adders[a := Refused(id)])| == |Uncounted(adders)|
    ensures |adders[a := Sent(id)]| == |adders[a := Refused(id)]| == |adders|
  {
    assert Uncounted(adders[a := Sent(id)]) == Uncounted(adders) + {a};
    assert Uncounted(adders[a := Refused(id)]) == Uncounted(adders);
    assert adders[a := Sent(id)].Keys == adders[a := Refused(id)].Keys == adders.Keys;
  }

  lemma UncountedAfterCount(adders: map<nat, Adder>, a: nat)
    requires a in adders && !adders[a].Checked?
    ensures |Uncounted(adders - {a})| == |Uncounted(adders)| - if adders[a].Sent? then 1 else 0
    ensures |adders - {a}| == |adders| - 1
  {
    assert Uncounted(adders - {a}) == Uncounted(adders) - {a};
    assert (adders - {a}).Keys == adders.Keys - {a};
  }

  lemma AddSendConserves(s: State, a: nat)
    requires Conserved(s)
    ensures Conserved(Apply(s, AddSend(a)))
  {
    var t := Apply(s, AddSend(a));
    if t != s && !t.panicked {
      UncountedAfterSend(s.adders, a, s.adders[a].id);
      assert t.dequeued + t.ch == t.sends;
    }
  }

  lemma AddSendWires(s: State, a: nat)
    requires Wired(s)
    ensures Wired(Apply(s, AddSend(a)))
  {
  }

  lemma AddSendKeeps(s: State, a: nat)
    requires Inv(s)
    ensures Inv(Apply(s, AddSend(a)))
  {
    AddSendConserves(s, a);
    AddSendWires(s, a);
  }

  lemma AddCountKeeps(s: State, a: nat)
    requires Inv(s)
    ensures Inv(Apply(s, AddCount(a)))
  {
    if !s.panicked && a in s.adders && !s.adders[a].Checked? {
      UncountedAfterCount(s.adders, a);
    }
  }

  lemma AddCheckKeeps(s: State, a: nat, id: string)
    requires Inv(s)
    ensures Inv(Apply(s, AddCheck(a, id)))
  {
    assert Uncounted(Apply(s, AddCheck(a, id)).adders) == Uncounted(s.adders);
    assert a !in s.adders ==> s.adders[a := Checked(id)].Keys == s.adders.Keys + {a};
  }

  lemma TakeKeeps(s: State, w: nat)
    requires Inv(s)
    ensures Inv(Apply(s, Take(w)))
  {
    var t := Apply(s, Take(w));
    if t != s {
      CountsAfterUpdate(s.workers, w, t.workers[w]);
      assert t.dequeued + t.ch == s.dequeued + s.ch;
    }
  }

  lemma FinishKeeps(s: State, w: nat, response: Response)
    requires Inv(s)
    ensures Inv(Apply(s, Finish(w, response)))
  {
    if Apply(s, Finish(w, response)) != s {
      CountsAfterUpdate(s.workers, w, Idle);
    }
  }

  /** One turn of a worker's loop: take an id, make its request, count it. */
  lemma TurnKeeps(s: State, w: nat, response: Response)
    requires Inv(s) && !s.panicked && w < |s.workers| && s.workers[w].Idle? && s.ch != []
    ensures var t := Apply(Apply(s, Take(w)), Finish(w, response));
            && Inv(t)
            && t == s.(ch := s.ch[1..], dequeued := s.dequeued + [s.ch[0]], finished := s.finished + [s.ch[0]],
                       metrics := s.metrics.Bump(OutcomeOf(s.keyspace, s.ch[0], response)))
  {
    TakeKeeps(s, w);
    FinishKeeps(Apply(s, Take(w)), w, response);
    assert s.workers[w := Holding(s.ch[0])][w := Idle] == s.workers;
  }

  lemma ExitKeeps(s: State, w: nat)
    requires Inv(s)
    ensures Inv(Apply(s, Exit(w)))
  {
    if Apply(s, Exit(w)) != s {
      CountsAfterUpdate(s.workers, w, Exited);
    }
  }

  lemma StepKeeps(s: State, e: Step)
    requires Inv(s)
    ensures Inv(Apply(s, e))
  {
    match e
    case AddCheck(a, id) => AddCheckKeeps(s, a, id);
    case AddSend(a) => AddSendKeeps(s, a);
    case AddCount(a) => AddCountKeeps(s, a);
    case Take(w) => TakeKeeps(s, w);
    case Finish(w, response) => FinishKeeps(s, w, response);
    case Exit(w) => ExitKeeps(s, w);
    case _ =>
  }

  lemma {:induction false} StartedIdle(workers: seq<Worker>)
    requires forall w :: 0 <= w < |workers| ==> workers[w].Idle?
    ensures Held(workers) == 0 && Live(workers) == |workers|
  {
    if workers != [] {
      StartedIdle(workers[..|workers| - 1]);
    }
  }

  lemma UntouchedConserves(s: State)
    requires s.ch == [] && s.sends == [] && s.dequeued == [] && s.attempts == 0 && s.adders == map[]
    requires Held(s.workers) == 0
    requires s.metrics.addSuc == s.metrics.addFail == s.metrics.sentSuc == s.metrics.sentFail == s.metrics.sentRej == 0
    ensures Conserved(s)
  {
  }

  lemma StartConserves(f: Settings)
    ensures Conserved(Started(f))
  {
    StartedIdle(Started(f).workers);
    UntouchedConserves(Started(f));
  }

  lemma StartWires(f: Settings)
    ensures Wired(Started(f))
  {
  }

  lemma StartKeeps(f: Settings)
    ensures Inv(Started(f))
  {
    StartConserves(f);
    StartWires(f);
  }

  lemma {:induction false} RunKeeps(s: State, steps: seq<Step>)
    requires Inv(s)
    ensures Inv(Run(s, steps))
  {
    if steps != [] {
      RunKeeps(s, steps[..|steps| - 1]);
      StepKeeps(Run(s, steps[..|steps| - 1]), steps[|steps| - 1]);
    }
  }

  // ---- each id finished once

  predicate Holds(worker: Worker, id: string) {
    worker.Holding? && worker.id == id
  }

  /** How many workers hold the id. */
  function Holders(workers: seq<Worker>, id: string): nat {
    if workers == [] then 0
    else Holders(workers[..|workers| - 1], id) + if Holds(workers[|workers| - 1], id) then 1 else 0
  }

  lemma {:induction false} HoldersAfterUpdate(workers: seq<Worker>, w: nat, worker: Worker, id: string)
    requires w < |workers|
    ensures Holders(workers[w := worker], id) ==
            Holders(workers, id) + (if Holds(worker, id) then 1 else 0) - (if Holds(workers[w], id) then 1 else 0)
  {
    var n := |workers| - 1;
    if w < n {
      assert workers[w := worker][..n] == workers[..n][w := worker];
      HoldersAfterUpdate(workers[..n], w, worker, id);
    } else {
      assert workers[w := worker][..n] == workers[..n];
    }
  }

  lemma {:induction false} NoHolders(workers: seq<Worker>, id: string)
    requires forall w :: 0 <= w < |workers| ==> !workers[w].Holding?
    ensures Holders(workers, id) == 0
  {
    if workers != [] {
      NoHolders(workers[..|workers| - 1], id);
    }
  }

  /** The id was dequeued as often as it is held or finished, and every finished id is
      counted. */
  ghost predicate FinishedOnce(s: State, id: string) {
    && multiset(s.dequeued)[id] == Holders(s.workers, id) + multiset(s.finished)[id]
    && |s.finished| == s.metrics.Finished()
  }

  lemma OneMore(ids: seq<string>, more: string, id: string)
    ensures multiset(ids + [more])[id] == multiset(ids)[id] + if more == id then 1 else 0
  {
  }

  lemma TakeFinishesOnce(s: State, w: nat, id: string)
    requires FinishedOnce(s, id)
    ensures FinishedOnce(Apply(s, Take(w)), id)
  {
    if Apply(s, Take(w)) != s {
      HoldersAfterUpdate(s.workers, w, Holding(s.ch[0]), id);
      OneMore(s.dequeued, s.ch[0], id);
    }
  }

  lemma FinishFinishesOnce(s: State, w: nat, response: Response, id: string)
    requires FinishedOnce(s, id)
    ensures FinishedOnce(Apply(s, Finish(w, response)), id)
  {
    if Apply(s, Finish(w, response)) != s {
      HoldersAfterUpdate(s.workers, w, Idle, id);
      OneMore(s.finished, s.workers[w].id, id);
    }
  }

  lemma ExitFinishesOnce(s: State, w: nat, id: string)
    requires FinishedOnce(s, id)
    ensures FinishedOnce(Apply(s, Exit(w)), id)
  {
    if Apply(s, Exit(w)) != s {
      HoldersAfterUpdate(s.workers, w, Exited, id);
    }
  }

  lemma OthersFinishNothing(s: State, e: Step)
    requires !e.Take? && !e.Finish? && !e.Exit?
    ensures var t := Apply(s, e);
            && t.workers == s.workers && t.dequeued == s.dequeued && t.finished == s.finished
            && t.metrics.Finished() == s.metrics.Finished()
  {
  }

  lemma StepFinishesOnce(s: State, e: Step, id: string)
    requires FinishedOnce(s, id)
    ensures FinishedOnce(Apply(s, e), id)
  {
    match e
    case Take(w) => TakeFinishesOnce(s, w, id);
    case Finish(w, response) => FinishFinishesOnce(s, w, response, id);
    case Exit(w) => ExitFinishesOnce(s, w, id);
    case _ => OthersFinishNothing(s, e);
  }

  lemma {:induction false} RunFinishesOnce(f: Settings, steps: seq<Step>, id: string)
    ensures FinishedOnce(Run(Started(f), steps), id)
  {
    if steps == [] {
      NoHolders(Started(f).workers, id);
    } else {
      RunFinishesOnce(f, steps[..|steps| - 1], id);
      StepFinishesOnce(Run(Started(f), steps[..|steps| - 1]), steps[|steps| - 1], id);
    }
  }

  // ---- conservation and order

  /** Some interleaving of a FindX started with f leads to s. */
  ghost predicate Reachable(f: Settings, s: State) {
    exists steps :: Run(Started(f), steps) == s
  }

  lemma ReachableInv(f: Settings, s: State)
    requires Reachable(f, s)
    ensures Inv(s)
  {
    var steps :| Run(Started(f), steps) == s;
    StartKeeps(f);
    RunKeeps(Started(f), steps);
  }

  lemma StepKeepsSizes(s: State, e: Step)
    ensures Apply(s, e).cap == s.cap && |Apply(s, e).workers| == |s.workers|
  {
  }

  lemma {:induction false} SizesFixed(s: State, steps: seq<Step>)
    ensures Run(s, steps).cap == s.cap && |Run(s, steps).workers| == |s.workers|
  {
    if steps != [] {
      var before := Run(s, steps[..|steps| - 1]);
      SizesFixed(s, steps[..|steps| - 1]);
      StepKeepsSizes(before, steps[|steps| - 1]);
    }
  }

  /** In every interleaving, whatever the responses: the sent ids are queued, held or
      finished; they are counted as added or about to be; every Add past its check is
      counted as added or refused, or still under way; ids are dequeued exactly once
      and in order; and the unfinished never exceed the buffer and the workers
      together. */
  lemma Conservation(f: Settings, s: State)
    requires Reachable(f, s)
    ensures |s.sends| == |s.ch| + Held(s.workers) + s.metrics.Finished()
    ensures |s.sends| == s.metrics.addSuc + |Uncounted(s.adders)|
    ensures s.attempts == s.metrics.addSuc + s.metrics.addFail + |s.adders|
    ensures s.sends == s.dequeued + s.ch
    ensures |s.sends| - s.metrics.Finished() <= Started(f).cap + |Started(f).workers|
  {
    ReachableInv(f, s);
    var steps :| Run(Started(f), steps) == s;
    SizesFixed(Started(f), steps);
    CountsBound(s.workers);
  }

  /** And id by id: each is queued, held or finished exactly as often as it was sent, and
      each finish is counted. */
  lemma EachIdOnce(f: Settings, s: State, id: string)
    requires Reachable(f, s)
    ensures multiset(s.sends)[id] == multiset(s.ch)[id] + Holders(s.workers, id) + multiset(s.finished)[id]
    ensures |s.finished| == s.metrics.Finished()
  {
    ReachableInv(f, s);
    var steps :| Run(Started(f), steps) == s;
    RunFinishesOnce(f, steps, id);
  }

  /** Which counter a finished id moves: a transport error, a status of 500 or more,
      or a `dm` id without a comma is a failure; other statuses from 300 on are
      rejections; no other counter moves. */
  lemma FinishCounts(s: State, w: nat, response: Response)
    requires !s.panicked && w < |s.workers| && s.workers[w].Holding?
    ensures var before := s.metrics; var after := Apply(s, Finish(w, response)).metrics;
            var failed := (s.keyspace == "dm" && ',' !in s.workers[w].id)
                          || response.TransportError? || response.code >= 500;
            && after.sentFail == before.sentFail + (if failed then 1 else 0)
            && after.sentRej == before.sentRej + (if !failed && response.code >= 300 then 1 else 0)
            && after.sentSuc == before.sentSuc + (if !failed && response.code < 300 then 1 else 0)
            && after.addSuc == before.addSuc && after.addFail == before.addFail && after.addRej == before.addRej
  {
    CountZero(s.workers[w].id, ',');
  }

  /** While the channel is open, an Add past its check is refused exactly when the
      buffer is full. */
  lemma RefusedIffFull(s: State, a: nat)
    requires Inv(s) && !s.panicked && !s.closed && a in s.adders && s.adders[a].Checked?
    ensures Apply(s, AddSend(a)).adders[a].Refused? <==> |s.ch| == s.cap
  {
  }

  lemma RunExtends(s: State, steps: seq<Step>, e: Step)
    ensures Run(s, steps + [e]) == Apply(Run(s, steps), e)
  {
  }

  /** A whole Add with nothing in between: sent and counted as added if there is
      room, counted as refused if there is none, and nothing when disabled. */
  function AddResult(s: State, id: string): State {
    if !s.enabled then s
    else if |s.ch| < s.cap then
      s.(ch := s.ch + [id], sends := s.sends + [id], attempts := s.attempts + 1,
         metrics := s.metrics.(addSuc := s.metrics.addSuc + 1))
    else s.(attempts := s.attempts + 1, metrics := s.metrics.(addFail := s.metrics.addFail + 1))
  }

  lemma AddUninterrupted(s: State, id: string)
    requires s.adders == map[] && !s.panicked && (s.closed ==> !s.enabled)
    ensures Apply(Apply(Apply(s, AddCheck(0, id)), AddSend(0)), AddCount(0)) == AddResult(s, id)
  {
  }

  lemma AddResultKeeps(s: State, id: string)
    requires Inv(s) && s.adders == map[] && !s.panicked
    ensures Inv(AddResult(s, id))
  {
  }

  lemma AddOne(s0: State, steps: seq<Step>, id: string) returns (more: seq<Step>)
    requires var s := Run(s0, steps);
             s.enabled && !s.panicked && !s.closed && s.adders == map[] && |s.ch| < s.cap
    ensures var s := Run(s0, steps);
            Run(s0, more) == AddResult(s, id)
  {
    RunExtends(s0, steps, AddCheck(0, id));
    RunExtends(s0, steps + [AddCheck(0, id)], AddSend(0));
    RunExtends(s0, steps + [AddCheck(0, id)] + [AddSend(0)], AddCount(0));
    more := steps + [AddCheck(0, id)] + [AddSend(0)] + [AddCount(0)];
    AddUninterrupted(Run(s0, steps), id);
  }

  /** Nothing finished; the first n workers hold an id, k more ids are queued. */
  ghost predicate Loaded(f: Settings, s: State, n: nat, k: nat) {
    var s0 := Started(f);
    && s.enabled && !s.panicked && !s.closed && s.adders == map[]
    && s.cap == s0.cap && |s.workers| == |s0.workers| && |s.ch| == k
    && s.metrics.addSuc == n + k && s.metrics.Finished() == 0
    && n <= |s.workers|
    && (forall w :: 0 <= w < n ==> s.workers[w].Holding?)
    && (forall w :: n <= w < |s.workers| ==> s.workers[w].Idle?)
  }

  lemma {:induction false} LoadWorkers(f: Settings, n: nat) returns (steps: seq<Step>)
    requires f.Enabled && f.validURL && n <= |Started(f).workers|
    ensures Loaded(f, Run(Started(f), steps), n, 0)
  {
    if n == 0 {
      steps := [];
    } else {
      var before := LoadWorkers(f, n - 1);
      steps := AddOne(Started(f), before, "x");
      RunExtends(Started(f), steps, Take(n - 1));
      steps := steps + [Take(n - 1)];
    }
  }

  lemma {:induction false} LoadQueue(f: Settings, k: nat) returns (steps: seq<Step>)
    requires f.Enabled && f.validURL && k <= Started(f).cap
    ensures Loaded(f, Run(Started(f), steps), |Started(f).workers|, k)
  {
    if k == 0 {
      steps := LoadWorkers(f, |Started(f).workers|);
    } else {
      var before := LoadQueue(f, k - 1);
      steps := AddOne(Started(f), before, "x");
    }
  }

  /** The bound is met, for every setting: before anything is finished, as many Adds
      can succeed as the buffer and the workers hold together. So the buffer size
      alone never bounds the successful Adds. */
  lemma BoundAttained(f: Settings)
    requires f.Enabled && f.validURL
    ensures exists steps ::
              var s := Run(Started(f), steps);
              s.metrics.addSuc == s.cap + |s.workers| > s.cap && s.metrics.Finished() == 0
  {
    var steps := LoadQueue(f, Started(f).cap);
    assert Loaded(f, Run(Started(f), steps), |Started(f).workers|, Started(f).cap);
  }
}
