/** Closing a FindX: when a send or a second close hits the closed channel, how the
    workers drain it, and what the counters say when Close returns. */
module FindXShutdown {
  import opened FindXProtocol

  // ---- no send on a closed channel, no second close

  /** No Add is between its enabled check and its send. */
  ghost predicate NoneChecked(s: State) {
    forall a :: a in s.adders ==> !s.adders[a].Checked?
  }

  /** What shutdown is meant to establish: no Close passes its check while another is
      under way, and the flags are cleared when no Add is between its check and its
      send. */
  ghost predicate OrderlyStep(s: State, e: Step) {
    && (e.CloseCheck? && s.enabled ==> s.closers == map[])
    && (e.CloseDisable? && e.c in s.closers && s.closers[e.c].Passed? ==> NoneChecked(s))
  }

  ghost predicate Orderly(s: State, steps: seq<Step>) {
    steps == [] ||
    (Orderly(s, steps[..|steps| - 1]) && OrderlyStep(Run(s, steps[..|steps| - 1]), steps[|steps| - 1]))
  }

  /** Some orderly run leads from s0 to s. */
  ghost predicate Leads(s0: State, s: State) {
    exists steps :: Run(s0, steps) == s && Orderly(s0, steps)
  }

  lemma LeadsNowhere(s: State)
    ensures Leads(s, s)
  {
    assert Run(s, []) == s && Orderly(s, []);
  }

  lemma LeadsOn(s0: State, s: State, e: Step)
    requires Leads(s0, s) && OrderlyStep(s, e)
    ensures Leads(s0, Apply(s, e))
  {
    var steps :| Run(s0, steps) == s && Orderly(s0, steps);
    RunExtends(s0, steps, e);
    assert (steps + [e])[..|steps|] == steps;
    assert Orderly(s0, steps + [e]);
  }

  /** What every orderly step keeps; being reached by an orderly run is an instance. */
  ghost predicate Kept(p: State -> bool) {
    forall s, e :: p(s) && OrderlyStep(s, e) ==> p(Apply(s, e))
  }

  lemma LeadsKept(s0: State)
    ensures Kept(s => Leads(s0, s))
  {
    forall s, e | Leads(s0, s) && OrderlyStep(s, e)
      ensures Leads(s0, Apply(s, e))
    {
      LeadsOn(s0, s, e);
    }
  }

  /** One more orderly step. */
  lemma Follow(p: State -> bool, s: State, e: Step) returns (t: State)
    requires Kept(p) && p(s) && Inv(s) && OrderlyStep(s, e)
    ensures t == Apply(s, e) && p(t) && Inv(t)
  {
    StepKeeps(s, e);
    t := Apply(s, e);
  }

  ghost predicate Safe(s: State) {
    && !s.panicked && (!s.enabled ==> NoneChecked(s))
    && (forall c1, c2 :: c1 in s.closers && c2 in s.closers ==> c1 == c2)
    && (forall c :: c in s.closers && s.closers[c].Passed? ==> s.enabled)
    && (forall c :: c in s.closers && s.closers[c].Disabled? ==> !s.closed)
  }

  lemma StepStaysSafe(s: State, e: Step)
    requires Inv(s) && Safe(s) && OrderlyStep(s, e)
    ensures Safe(Apply(s, e))
  {
  }

  lemma {:induction false} OrderlyStaysSafe(s: State, steps: seq<Step>)
    requires Inv(s) && Safe(s) && Orderly(s, steps)
    ensures Safe(Run(s, steps))
  {
    if steps != [] {
      OrderlyStaysSafe(s, steps[..|steps| - 1]);
      RunKeeps(s, steps[..|steps| - 1]);
      StepStaysSafe(Run(s, steps[..|steps| - 1]), steps[|steps| - 1]);
    }
  }

  lemma StartSafe(f: Settings)
    ensures Safe(Started(f))
  {
  }

  /** No orderly run sends on the closed channel, or closes it twice. */
  lemma OrderlyNeverPanics(f: Settings, s: State)
    requires Leads(Started(f), s)
    ensures !s.panicked
  {
    var steps :| Run(Started(f), steps) == s && Orderly(Started(f), steps);
    StartKeeps(f);
    StartSafe(f);
    OrderlyStaysSafe(Started(f), steps);
  }

  lemma RunOfTwo(s: State, e1: Step, e2: Step)
    ensures Run(s, [e1, e2]) == Apply(Apply(s, e1), e2)
  {
    assert [e1, e2][..1] == [e1] && [e1][..0] == [];
    assert Run(s, [e1]) == Apply(s, e1);
  }

  /** The first half of the discipline is needed: from any state with an Add between its
      check and its send, a Close that clears the flags can be followed by a panic. */
  lemma DisorderlyCanPanic(s: State, c: nat, a: nat)
    requires Inv(s) && !s.panicked && s.enabled && c in s.closers && s.closers[c].Passed?
    requires a in s.adders && s.adders[a].Checked?
    ensures Run(Apply(s, CloseDisable(c)), [CloseChannel(c), AddSend(a)]).panicked
  {
    RunOfTwo(Apply(s, CloseDisable(c)), CloseChannel(c), AddSend(a));
  }

  /** And so is the second: two Closes past their checks can close the channel twice. */
  lemma OverlappingClosesCanPanic(s: State, c1: nat, c2: nat)
    requires Inv(s) && !s.panicked && s.enabled && c1 != c2
    requires c1 in s.closers && s.closers[c1].Passed? && c2 in s.closers && s.closers[c2].Passed?
    ensures Run(Apply(s, CloseDisable(c1)), [CloseChannel(c1), CloseDisable(c2)] + [CloseChannel(c2)]).panicked
  {
    var s0 := Apply(s, CloseDisable(c1));
    RunOfTwo(s0, CloseChannel(c1), CloseDisable(c2));
    RunExtends(s0, [CloseChannel(c1), CloseDisable(c2)], CloseChannel(c2));
  }

  /** What a Close keeps that cleared the flags with no other Close and no checked Add
      under way. */
  ghost predicate ClosesAlone(s: State, c: nat) {
    && !s.panicked && !s.enabled && NoneChecked(s)
    && (forall other :: other in s.closers ==> other == c && !s.closers[other].Passed?)
    && (c in s.closers && s.closers[c].Disabled? ==> !s.closed)
  }

  lemma StepClosesAlone(s: State, c: nat, e: Step)
    requires ClosesAlone(s, c)
    ensures ClosesAlone(Apply(s, e), c)
  {
  }

  lemma {:induction false} RunClosesAlone(s: State, c: nat, steps: seq<Step>)
    requires ClosesAlone(s, c)
    ensures ClosesAlone(Run(s, steps), c)
  {
    if steps != [] {
      RunClosesAlone(s, c, steps[..|steps| - 1]);
      StepClosesAlone(Run(s, steps[..|steps| - 1]), c, steps[|steps| - 1]);
    }
  }

  /** No interleaving from s panics. */
  ghost predicate NeverPanics(s: State) {
    forall steps :: !Run(s, steps).panicked
  }

  /** The exact condition, at the moment a Close clears the flags: no panic can follow
      if and only if no Add is between its check and its send and no other Close is under
      way. */
  lemma CloseSafeIff(s: State, c: nat)
    requires Inv(s) && !s.panicked && s.enabled && c in s.closers && s.closers[c].Passed?
    ensures NeverPanics(Apply(s, CloseDisable(c))) <==> NoneChecked(s) && s.closers.Keys == {c}
  {
    var s0 := Apply(s, CloseDisable(c));
    if NoneChecked(s) && s.closers.Keys == {c} {
      forall steps
        ensures !Run(s0, steps).panicked
      {
        RunClosesAlone(s0, c, steps);
      }
    } else if !NoneChecked(s) {
      var a :| a in s.adders && s.adders[a].Checked?;
      DisorderlyCanPanic(s, c, a);
    } else {
      var other :| other in s.closers && other != c;
      OverlappingClosesCanPanic(s, c, other);
    }
  }

  // ---- draining

  /** The work left once the channel is closed. */
  function Measure(s: State): nat {
    2 * |s.ch| + Held(s.workers) + Live(s.workers)
  }

  predicate WorkerStep(e: Step) {
    e.Take? || e.Finish? || e.Exit?
  }

  /** The worker steps of a run that did something. */
  function Progress(s: State, steps: seq<Step>): nat {
    if steps == [] then 0
    else
      var before := Run(s, steps[..|steps| - 1]);
      var e := steps[|steps| - 1];
      Progress(s, steps[..|steps| - 1]) + if WorkerStep(e) && Apply(before, e) != before then 1 else 0
  }

  lemma StepDrains(s: State, e: Step)
    requires Inv(s) && s.closed
    ensures Apply(s, e).closed
    ensures Measure(Apply(s, e)) + (if WorkerStep(e) && Apply(s, e) != s then 1 else 0) <= Measure(s)
  {
    var t := Apply(s, e);
    if WorkerStep(e) && t != s {
      CountsAfterUpdate(s.workers, e.w, t.workers[e.w]);
    }
  }

  /** After the channel is closed only so many worker steps can happen, in any
      interleaving. */
  lemma {:induction false} DrainBounded(s: State, steps: seq<Step>)
    requires Inv(s) && s.closed
    ensures Run(s, steps).closed
    ensures Progress(s, steps) + Measure(Run(s, steps)) <= Measure(s)
  {
    if steps != [] {
      DrainBounded(s, steps[..|steps| - 1]);
      RunKeeps(s, steps[..|steps| - 1]);
      StepDrains(Run(s, steps[..|steps| - 1]), steps[|steps| - 1]);
    }
  }

  /** And as long as a worker lives, it has a step to take, provided its request
      returns: Close cannot get stuck. */
  lemma DrainProgresses(s: State, w: nat, response: Response)
    requires Inv(s) && s.closed && !s.panicked && w < |s.workers| && !s.workers[w].Exited?
    ensures exists e :: WorkerStep(e) && Apply(s, e) != s
  {
    var e := if s.workers[w].Holding? then Finish(w, response) else if s.ch != [] then Take(w) else Exit(w);
    assert Apply(s, e).workers[w] != s.workers[w];
    assert WorkerStep(e);
  }

  /** When the last worker has exited, the queue is empty and every sent id was dequeued
      and finished; the added count lacks the Adds still to be counted. */
  lemma ExitedMeansDrained(s: State)
    requires Inv(s) && AllExited(s) && s.workers != []
    ensures s.closed && s.ch == [] && s.dequeued == s.sends && Held(s.workers) == 0
    ensures s.metrics.Finished() == |s.sends| == s.metrics.addSuc + |Uncounted(s.adders)|
  {
    CountsBound(s.workers);
    assert s.workers[0].Exited?;
    assert s.dequeued + [] == s.dequeued;
  }

  /** Then, in whatever interleaving, the finished ids are the sent ids, each as often. */
  lemma ExitedMeansFinished(f: Settings, s: State)
    requires Reachable(f, s) && AllExited(s) && s.workers != []
    ensures multiset(s.finished) == multiset(s.sends)
  {
    ReachableInv(f, s);
    ExitedMeansDrained(s);
    forall id
      ensures multiset(s.finished)[id] == multiset(s.sends)[id]
    {
      EachIdOnce(f, s, id);
      NoHolders(s.workers, id);
    }
  }

  /** Close returns exactly when the last worker has exited. */
  lemma CloseDrains(s: State, c: nat)
    requires Inv(s) && !s.panicked && c in s.closers && s.closers[c].Waiting?
    ensures c !in Apply(s, CloseReturn(c)).closers <==> Live(s.workers) == 0
    ensures Live(s.workers) == 0 ==>
              s.ch == [] && s.dequeued == s.sends && Held(s.workers) == 0 && s.metrics.Finished() == |s.sends|
  {
    CountsBound(s.workers);
    if AllExited(s) {
      ExitedMeansDrained(s);
    }
  }

  lemma DisabledStays(s: State, e: Step)
    requires !s.enabled
    ensures !Apply(s, e).enabled
  {
  }

  /** Once disabled, for good or from the start, every further Close does nothing. */
  lemma {:induction false} SecondCloseIdle(s: State, steps: seq<Step>, c: nat)
    requires !s.enabled
    ensures !Run(s, steps).enabled
    ensures Apply(Run(s, steps), CloseCheck(c)) == Run(s, steps)
  {
    if steps != [] {
      SecondCloseIdle(s, steps[..|steps| - 1], c);
      DisabledStays(Run(s, steps[..|steps| - 1]), steps[|steps| - 1]);
    }
  }

  // ---- the counters when Close returns

  /** From where Close c clears the flags, whatever happens: once it has returned, the
      added and the finished count agree. */
  ghost predicate CountsAgreeAtReturn(s: State, c: nat) {
    forall steps ::
      var t := Run(Apply(s, CloseDisable(c)), steps);
      c !in t.closers ==> t.metrics.addSuc == t.metrics.Finished()
  }

  /** Every Add under way was refused and has only its refusal to count. */
  predicate OnlyRefusals(s: State) {
    forall a :: a in s.adders ==> s.adders[a].Refused?
  }

  /** What a Close keeps once the flags are cleared with only refusals under way. */
  ghost predicate Settled(s: State, c: nat) {
    && !s.enabled && OnlyRefusals(s) && s.workers != []
    && (c in s.closers ==> !s.closers[c].Passed?)
    && (c !in s.closers ==> AllExited(s))
  }

  lemma StepStaysSettled(s: State, c: nat, e: Step)
    requires Inv(s) && Settled(s, c)
    ensures Settled(Apply(s, e), c)
  {
  }

  lemma {:induction false} StaysSettled(s: State, c: nat, steps: seq<Step>)
    requires Inv(s) && Settled(s, c)
    ensures Settled(Run(s, steps), c)
  {
    if steps != [] {
      StaysSettled(s, c, steps[..|steps| - 1]);
      RunKeeps(s, steps[..|steps| - 1]);
      StepStaysSettled(Run(s, steps[..|steps| - 1]), c, steps[|steps| - 1]);
    }
  }

  lemma SettledAgrees(s: State, c: nat)
    requires Inv(s) && Settled(s, c) && c !in s.closers
    ensures s.metrics.addSuc == s.metrics.Finished()
  {
    ExitedMeansDrained(s);
    assert Uncounted(s.adders) == {};
  }

  /** Only workers step, until all have exited. */
  lemma {:induction false} DrainRun(p: State -> bool, s: State) returns (t: State)
    requires Kept(p) && p(s) && Inv(s) && s.closed && !s.panicked
    ensures p(t) && Inv(t) && AllExited(t) && !t.panicked && t.closed
    ensures t.adders == s.adders && t.closers == s.closers && t.sends == s.sends
    ensures t.workers != [] && t.metrics.addSuc == s.metrics.addSuc
    decreases Measure(s)
  {
    if AllExited(s) {
      t := s;
    } else {
      var w: nat :| w < |s.workers| && !s.workers[w].Exited?;
      DrainProgresses(s, w, Status(200));
      var e :| WorkerStep(e) && Apply(s, e) != s;
      StepDrains(s, e);
      WorkerStepFrame(s, e);
      t := Follow(p, s, e);
      t := DrainRun(p, t);
    }
  }

  lemma WorkerStepFrame(s: State, e: Step)
    requires WorkerStep(e)
    ensures var t := Apply(s, e);
            && t.adders == s.adders && t.closers == s.closers && t.sends == s.sends
            && t.panicked == s.panicked && t.closed == s.closed && t.cap == s.cap
            && t.metrics.addSuc == s.metrics.addSuc
  {
  }

  lemma ChannelCloses(p: State -> bool, s: State, c: nat) returns (t: State)
    requires Kept(p) && p(s) && Inv(s) && !s.panicked && !s.closed && c in s.closers && s.closers[c].Disabled?
    ensures p(t) && Inv(t) && t == s.(closed := true, closers := s.closers[c := Waiting])
  {
    t := Follow(p, s, CloseChannel(c));
  }

  lemma CloseReturns(p: State -> bool, s: State, c: nat) returns (t: State)
    requires Kept(p) && p(s) && Inv(s) && !s.panicked && c in s.closers && s.closers[c].Waiting? && AllExited(s)
    ensures p(t) && Inv(t) && t == s.(closers := s.closers - {c})
  {
    t := Follow(p, s, CloseReturn(c));
  }

  /** A Close with the flags cleared can run to its return with nothing else stepping
      but the workers. */
  lemma CloseRun(p: State -> bool, s: State, c: nat) returns (t: State)
    requires Kept(p) && p(s) && Inv(s) && !s.panicked && !s.closed && c in s.closers && s.closers[c].Disabled?
    ensures p(t) && Inv(t) && AllExited(t) && !t.panicked && t.closed
    ensures t.adders == s.adders && t.closers == s.closers - {c} && t.sends == s.sends
    ensures t.workers != [] && t.metrics.addSuc == s.metrics.addSuc
  {
    var closed := ChannelCloses(p, s, c);
    var drained := DrainRun(p, closed);
    t := CloseReturns(p, drained, c);
    assert s.closers[c := Waiting] - {c} == s.closers - {c};
  }

  /** With an Add sent and not counted, the counts can disagree when Close returns. */
  lemma SentTrails(p: State -> bool, s: State, c: nat, a: nat) returns (t: State)
    requires Kept(p) && p(s) && Inv(s) && !s.panicked && !s.closed && c in s.closers && s.closers[c].Disabled?
    requires a in s.adders && s.adders[a].Sent?
    ensures p(t) && c !in t.closers && t.metrics.addSuc < t.metrics.Finished()
  {
    t := CloseRun(p, s, c);
    ExitedMeansDrained(t);
    assert a in Uncounted(t.adders);
  }

  lemma IdleAfterFinish(s: State, w: nat)
    requires w < |s.workers| && !s.workers[w].Exited? && !s.panicked
    ensures var t := Apply(s, Finish(w, Status(200)));
            |t.workers| == |s.workers| && t.workers[w].Idle? && t.ch == s.ch
  {
  }

  lemma RoomAfterTake(s: State, w: nat)
    requires w < |s.workers| && s.workers[w].Idle? && !s.panicked && s.ch != []
    ensures |Apply(s, Take(w)).ch| == |s.ch| - 1
  {
  }

  /** Room in the buffer can be made while the channel is open: one worker takes an id. */
  lemma MakeRoom(p: State -> bool, s: State) returns (t: State)
    requires Kept(p) && p(s) && Inv(s) && !s.panicked && !s.closed && s.cap > 0
    ensures p(t) && Inv(t) && !t.panicked && !t.closed && |t.ch| < t.cap
    ensures t.adders == s.adders && t.closers == s.closers
  {
    t := s;
    if |s.ch| == s.cap {
      IdleAfterFinish(s, 0);
      t := Follow(p, s, Finish(0, Status(200)));
      WorkerStepFrame(s, Finish(0, Status(200)));
      RoomAfterTake(t, 0);
      WorkerStepFrame(t, Take(0));
      t := Follow(p, t, Take(0));
    }
  }

  lemma SendGoesThrough(p: State -> bool, s: State, a: nat) returns (t: State)
    requires Kept(p) && p(s) && Inv(s) && !s.panicked && !s.closed && |s.ch| < s.cap
    requires a in s.adders && s.adders[a].Checked?
    ensures p(t) && Inv(t) && !t.panicked && !t.closed && t.closers == s.closers
    ensures a in t.adders && t.adders[a].Sent?
  {
    t := Follow(p, s, AddSend(a));
  }

  /** With an Add under way that may still be counted, an orderly run from where the
      flags are cleared ends with the Close returned and the added count trailing. */
  lemma UnsettledTrails(s: State, c: nat, a: nat) returns (t: State)
    requires Inv(s) && !s.panicked && !s.closed && c in s.closers && s.closers[c].Disabled?
    requires a in s.adders && !s.adders[a].Refused?
    ensures Leads(s, t) && c !in t.closers && t.metrics.addSuc < t.metrics.Finished()
  {
    LeadsNowhere(s);
    LeadsKept(s);
    var p := t => Leads(s, t);
    t := s;
    if s.adders[a].Checked? {
      t := MakeRoom(p, t);
      t := SendGoesThrough(p, t, a);
    }
    t := SentTrails(p, t, c, a);
  }

  lemma SettledAgreesAtReturn(s: State, c: nat)
    requires Inv(s) && !s.panicked && c in s.closers && s.closers[c].Passed? && OnlyRefusals(s)
    ensures CountsAgreeAtReturn(s, c)
  {
    var s0 := Apply(s, CloseDisable(c));
    StepKeeps(s, CloseDisable(c));
    forall steps | c !in Run(s0, steps).closers
      ensures Run(s0, steps).metrics.addSuc == Run(s0, steps).metrics.Finished()
    {
      StaysSettled(s0, c, steps);
      RunKeeps(s0, steps);
      SettledAgrees(Run(s0, steps), c);
    }
  }

  lemma OnlyRefusalsIff(s: State)
    ensures OnlyRefusals(s) <==> NoneChecked(s) && Uncounted(s.adders) == {}
  {
    if NoneChecked(s) && Uncounted(s.adders) == {} {
      forall a | a in s.adders
        ensures s.adders[a].Refused?
      {
        assert a !in Uncounted(s.adders);
      }
    }
  }

  /** The exact condition, at the moment a Close clears the flags: the added and the
      finished count agree when it returns, in every interleaving, if and only if every
      Add then under way has already been refused. Otherwise they disagree after some
      orderly run. */
  lemma CloseCountsAgreeIff(s: State, c: nat)
    requires Inv(s) && !s.panicked && s.enabled && c in s.closers && s.closers[c].Passed?
    ensures CountsAgreeAtReturn(s, c) <==> OnlyRefusals(s)
    ensures NoneChecked(s) ==> (CountsAgreeAtReturn(s, c) <==> Uncounted(s.adders) == {})
    ensures !OnlyRefusals(s) ==>
              exists t :: Leads(Apply(s, CloseDisable(c)), t) && c !in t.closers
                && t.metrics.addSuc < t.metrics.Finished()
  {
    OnlyRefusalsIff(s);
    if OnlyRefusals(s) {
      SettledAgreesAtReturn(s, c);
    } else {
      var a :| a in s.adders && !s.adders[a].Refused?;
      var s0 := Apply(s, CloseDisable(c));
      StepKeeps(s, CloseDisable(c));
      var t := UnsettledTrails(s0, c, a);
      var steps :| Run(s0, steps) == t && Orderly(s0, steps);
    }
  }

  /** An Add up to its send. */
  lemma Sends(p: State -> bool, s: State) returns (t: State)
    requires Kept(p) && p(s) && Inv(s) && s.enabled && !s.panicked && s.adders == map[] && s.ch == []
    ensures p(t) && Inv(t)
    ensures t == s.(adders := map[0 := Sent("x")], attempts := s.attempts + 1, ch := ["x"], sends := s.sends + ["x"])
  {
    t := Follow(p, s, AddCheck(0, "x"));
    t := Follow(p, t, AddSend(0));
  }

  /** A Close up to clearing the flags. */
  lemma Disables(p: State -> bool, s: State) returns (t: State)
    requires Kept(p) && p(s) && Inv(s) && s.enabled && !s.panicked && s.closers == map[] && NoneChecked(s)
    ensures p(t) && Inv(t) && t == s.(Enabled := false, enabled := false, closers := map[0 := Disabled])
  {
    t := Follow(p, s, CloseCheck(0));
    t := Follow(p, t, CloseDisable(0));
  }

  /** Nothing has happened yet. */
  ghost predicate Fresh(s: State) {
    && s.enabled && !s.panicked && s.adders == map[] && s.closers == map[]
    && s.ch == [] && s.sends == [] && s.metrics.addSuc == 0
  }

  lemma StartedFresh(f: Settings)
    requires f.Enabled && f.validURL
    ensures Fresh(Started(f))
  {
  }

  /** An Add, and a Close from its check to its return before the Add is counted. */
  lemma TrailingRun(p: State -> bool, s: State) returns (t: State)
    requires Kept(p) && p(s) && Inv(s) && Fresh(s)
    ensures p(t) && !t.panicked && t.closed && t.closers == map[]
    ensures t.metrics.addSuc == 0 && t.metrics.Finished() == 1
  {
    t := Sends(p, s);
    t := Disables(p, t);
    t := CloseRun(p, t, 0);
    ExitedMeansDrained(t);
    assert t.closers == map[];
  }

  /** An orderly run from s ends with Close returned, one id finished, and none counted
      as added. */
  ghost predicate Trails(s: State) {
    exists t :: Leads(s, t) && !t.panicked && t.closed && t.closers == map[]
      && t.metrics.addSuc == 0 && t.metrics.Finished() == 1
  }

  lemma FreshTrails(s: State)
    requires Inv(s) && Fresh(s)
    ensures Trails(s)
  {
    LeadsNowhere(s);
    LeadsKept(s);
    var t := TrailingRun(t => Leads(s, t), s);
  }

  /** It does happen, on every FindX just started. */
  lemma CloseCanTrail(f: Settings)
    requires f.Enabled && f.validURL
    ensures Trails(Started(f))
  {
    StartedFresh(f);
    StartKeeps(f);
    FreshTrails(Started(f));
  }

  /** An Add and a Close can pass their checks together. */
  lemma AddMeetsClose(s: State)
    requires Inv(s) && Fresh(s)
    ensures var t := Run(s, [AddCheck(0, "x"), CloseCheck(0)]);
            t.closers == map[0 := Passed] && !NeverPanics(Apply(t, CloseDisable(0)))
  {
    RunOfTwo(s, AddCheck(0, "x"), CloseCheck(0));
    var t := Run(s, [AddCheck(0, "x"), CloseCheck(0)]);
    RunKeeps(s, [AddCheck(0, "x"), CloseCheck(0)]);
    assert t.adders == map[0 := Checked("x")];
    DisorderlyCanPanic(t, 0, 0);
  }

  /** And so can two Closes. */
  lemma ClosesMeet(s: State)
    requires Inv(s) && Fresh(s)
    ensures var t := Run(s, [CloseCheck(0), CloseCheck(1)]);
            t.adders == map[] && !NeverPanics(Apply(t, CloseDisable(0)))
  {
    RunOfTwo(s, CloseCheck(0), CloseCheck(1));
    var t := Run(s, [CloseCheck(0), CloseCheck(1)]);
    RunKeeps(s, [CloseCheck(0), CloseCheck(1)]);
    assert t.closers == map[0 := Passed, 1 := Passed];
    OverlappingClosesCanPanic(t, 0, 1);
  }

  /** Both panics happen: on every FindX just started the checks can meet, with a panic
      after the flags are cleared. */
  lemma CloseCanPanic(f: Settings)
    requires f.Enabled && f.validURL
    ensures var t := Run(Started(f), [AddCheck(0, "x"), CloseCheck(0)]);
            t.closers == map[0 := Passed] && !NeverPanics(Apply(t, CloseDisable(0)))
    ensures var t := Run(Started(f), [CloseCheck(0), CloseCheck(1)]);
            t.adders == map[] && !NeverPanics(Apply(t, CloseDisable(0)))
  {
    StartedFresh(f);
    StartKeeps(f);
    AddMeetsClose(Started(f));
    ClosesMeet(Started(f));
  }
}
