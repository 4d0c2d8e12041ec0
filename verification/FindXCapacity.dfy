/** What the configured numbers mean: how many Adds a started FindX takes, how many ids
    its workers hold, in which order, and what each counter says. */
module FindXCapacity {
  import opened FindXProtocol

  /** The buffer size and the number of workers, with their defaults. */
  function Room(f: Settings): nat {
    if f.bufferSize >= 1 then f.bufferSize else 128
  }

  function Crew(f: Settings): nat {
    if f.thread >= 1 then f.thread else 1
  }

  lemma StartedAs(f: Settings)
    ensures var s := Started(f);
            if f.Enabled && f.validURL then
              && s.enabled && s.Enabled && s.keyspace == f.keyspace
              && s.cap == (if f.bufferSize < 1 then 128 else f.bufferSize) == Room(f)
              && |s.workers| == (if f.thread < 1 then 1 else f.thread) == Crew(f)
              && forall w :: 0 <= w < |s.workers| ==> s.workers[w].Idle?
            else !s.enabled && !s.Enabled && s.workers == []
    ensures var s := Started(f);
            !s.closed && !s.panicked && s.ch == s.sends == s.dequeued == s.finished == []
            && s.adders == map[] && s.closers == map[] && s.attempts == 0
            && s.metrics == Metrics(0, 0, 0, 0, 0, 0)
  {
  }

  // ---- the buffer

  /** Adds one after the other, with nothing in between. */
  function AddAll(s: State, ids: seq<string>): State {
    if ids == [] then s else AddResult(AddAll(s, ids[..|ids| - 1]), ids[|ids| - 1])
  }

  lemma {:induction false} AddAllFills(s: State, ids: seq<string>)
    requires s.enabled && s.ch == [] && s.sends == [] && s.metrics.addSuc == 0 && s.metrics.addFail == 0
    ensures var t := AddAll(s, ids); var n := if |ids| <= s.cap then |ids| else s.cap;
            && t.enabled && t.cap == s.cap && t.ch == t.sends == ids[..n]
            && t.metrics.addSuc == n && t.metrics.addFail == |ids| - n
  {
    if ids != [] {
      AddAllFills(s, ids[..|ids| - 1]);
    }
  }

  /** On a FindX just started, exactly as many Adds succeed as the buffer is configured
      for; the rest are refused, and the queue holds the first ones in order. A FindX that
      did not start takes none. */
  lemma AddsFillBuffer(f: Settings, ids: seq<string>)
    ensures var t := AddAll(Started(f), ids);
            if f.Enabled && f.validURL then
              var n := if |ids| <= Room(f) then |ids| else Room(f);
              t.ch == ids[..n] && t.metrics.addSuc == n && t.metrics.addFail == |ids| - n
            else t == Started(f)
  {
    StartedAs(f);
    if f.Enabled && f.validURL {
      AddAllFills(Started(f), ids);
    } else {
      DisabledAddsNothing(Started(f), ids);
    }
  }

  lemma {:induction false} DisabledAddsNothing(s: State, ids: seq<string>)
    requires !s.enabled
    ensures AddAll(s, ids) == s
  {
    if ids != [] {
      DisabledAddsNothing(s, ids[..|ids| - 1]);
    }
  }

  /** Only Take steps dequeue. */
  lemma {:induction false} UntakenStays(s: State, steps: seq<Step>)
    requires forall i :: 0 <= i < |steps| ==> !steps[i].Take?
    ensures Run(s, steps).dequeued == s.dequeued
  {
    if steps != [] {
      UntakenStays(s, steps[..|steps| - 1]);
      UntakenStep(Run(s, steps[..|steps| - 1]), steps[|steps| - 1]);
    }
  }

  lemma UntakenStep(s: State, e: Step)
    requires !e.Take?
    ensures Apply(s, e).dequeued == s.dequeued
  {
  }

  lemma RefusedWhenFull(s: State, a: nat)
    requires Inv(s) && s.dequeued == []
    ensures |s.sends| <= s.cap
    ensures !s.panicked && !s.closed && a in s.adders && s.adders[a].Checked? ==>
              (Apply(s, AddSend(a)).adders[a].Refused? <==> |s.sends| == s.cap)
  {
    assert [] + s.ch == s.ch;
    if !s.panicked && !s.closed && a in s.adders && s.adders[a].Checked? {
      RefusedIffFull(s, a);
    }
  }

  /** In every interleaving in which no worker takes an id: at most as many ids are sent
      as the buffer is configured for, and the next Add is refused exactly then. */
  lemma UntakenBound(f: Settings, steps: seq<Step>, s: State, a: nat)
    requires f.Enabled && f.validURL && forall i :: 0 <= i < |steps| ==> !steps[i].Take?
    requires s == Run(Started(f), steps)
    ensures |s.sends| <= Room(f)
    ensures !s.panicked && !s.closed && a in s.adders && s.adders[a].Checked? ==>
              (Apply(s, AddSend(a)).adders[a].Refused? <==> |s.sends| == Room(f))
  {
    StartedAs(f);
    UntakenStays(Started(f), steps);
    assert Reachable(f, s);
    ReachableInv(f, s);
    SizesFixed(Started(f), steps);
    RefusedWhenFull(s, a);
  }

  // ---- the workers

  /** In every interleaving at most as many ids are held as workers are configured, and
      at most that many more than the buffer holds are unfinished. */
  lemma CrewBound(f: Settings, s: State)
    requires f.Enabled && f.validURL && Reachable(f, s)
    ensures Held(s.workers) <= Crew(f)
    ensures |s.sends| - s.metrics.Finished() <= Room(f) + Crew(f)
  {
    Conservation(f, s);
    StartedAs(f);
    var steps :| Run(Started(f), steps) == s;
    SizesFixed(Started(f), steps);
    CountsBound(s.workers);
  }

  lemma {:induction false} AllHold(workers: seq<Worker>)
    requires forall w :: 0 <= w < |workers| ==> workers[w].Holding?
    ensures Held(workers) == |workers|
  {
    if workers != [] {
      AllHold(workers[..|workers| - 1]);
    }
  }

  /** Both bounds are met together. */
  lemma CrewAttained(f: Settings)
    requires f.Enabled && f.validURL
    ensures exists s ::
              && Reachable(f, s) && Held(s.workers) == Crew(f) && |s.ch| == Room(f)
              && s.metrics.addSuc == Room(f) + Crew(f) && s.metrics.Finished() == 0
  {
    StartedAs(f);
    var steps := LoadQueue(f, Started(f).cap);
    var s := Run(Started(f), steps);
    assert Loaded(f, s, |Started(f).workers|, Started(f).cap);
    AllHold(s.workers);
    assert Reachable(f, s);
  }

  // ---- order

  lemma SendAppends(s: State, e: Step)
    ensures var t := Apply(s, e);
            t.sends == s.sends || (e.AddSend? && e.a in s.adders && t.sends == s.sends + [s.adders[e.a].id])
  {
  }

  lemma TakeTakesNext(s: State, e: Step)
    requires Inv(s)
    ensures var t := Apply(s, e); var n := |s.dequeued|;
            t.dequeued == s.dequeued
            || (e.Take? && n < |s.sends| && t.dequeued == s.dequeued + [s.sends[n]]
                && e.w < |t.workers| && t.workers[e.w] == Holding(s.sends[n]))
  {
    if Apply(s, e).dequeued != s.dequeued {
      assert s.sends[|s.dequeued|] == s.ch[0];
    }
  }

  lemma FinishAppends(s: State, e: Step)
    ensures var t := Apply(s, e);
            t.finished == s.finished
            || (e.Finish? && e.w < |s.workers| && s.workers[e.w].Holding?
                && t.finished == s.finished + [s.workers[e.w].id])
  {
  }

  /** A step sends at most the id of its own Add, behind all others; takes at most the id
      that was sent next, and hands it to its own worker; and finishes at most the id its
      own worker holds. */
  lemma StepAppends(s: State, e: Step)
    requires Inv(s)
    ensures var t := Apply(s, e); var n := |s.dequeued|;
            && (t.sends == s.sends
                || (e.AddSend? && e.a in s.adders && t.sends == s.sends + [s.adders[e.a].id]))
            && (t.dequeued == s.dequeued
                || (e.Take? && n < |s.sends| && t.dequeued == s.dequeued + [s.sends[n]]
                    && e.w < |t.workers| && t.workers[e.w] == Holding(s.sends[n])))
            && (t.finished == s.finished
                || (e.Finish? && e.w < |s.workers| && s.workers[e.w].Holding?
                    && t.finished == s.finished + [s.workers[e.w].id]))
  {
    SendAppends(s, e);
    TakeTakesNext(s, e);
    FinishAppends(s, e);
  }

  /** First in, first out: whatever is sent later stands behind, and ids are dequeued in
      the order they were sent. */
  lemma {:induction false} Fifo(s: State, steps: seq<Step>)
    requires Inv(s)
    ensures s.sends <= Run(s, steps).sends && s.dequeued <= Run(s, steps).dequeued
    ensures Run(s, steps).dequeued <= Run(s, steps).sends && s.finished <= Run(s, steps).finished
  {
    if steps != [] {
      var before := Run(s, steps[..|steps| - 1]);
      Fifo(s, steps[..|steps| - 1]);
      RunKeeps(s, steps[..|steps| - 1]);
      RunKeeps(s, steps);
      StepAppends(before, steps[|steps| - 1]);
    } else {
      assert s.dequeued <= s.sends;
    }
  }

  // ---- the counters of Adds

  /** Which counter an Add or a rejection moves: a sent Add counts as a success, a refused
      one as a failure, a rejection while enabled as such; nothing else moves them. */
  lemma AddCounts(s: State, e: Step)
    requires !s.panicked
    ensures var before := s.metrics; var after := Apply(s, e).metrics;
            var counted := e.AddCount? && e.a in s.adders;
            && after.addSuc == before.addSuc + (if counted && s.adders[e.a].Sent? then 1 else 0)
            && after.addFail == before.addFail + (if counted && s.adders[e.a].Refused? then 1 else 0)
            && after.addRej == before.addRej + (if e.Reject? && s.enabled then 1 else 0)
            && (!e.Finish? ==> after.Finished() == before.Finished())
  {
  }

  /** The rejections made while enabled. */
  function Rejections(s: State, steps: seq<Step>): nat {
    if steps == [] then 0
    else
      var before := Run(s, steps[..|steps| - 1]);
      Rejections(s, steps[..|steps| - 1]) +
      if steps[|steps| - 1] == Reject && before.enabled && !before.panicked then 1 else 0
  }

  /** In every interleaving the rejections counted are the rejections made. */
  lemma {:induction false} RejectionsCounted(f: Settings, steps: seq<Step>)
    ensures Run(Started(f), steps).metrics.addRej == Rejections(Started(f), steps)
  {
    if steps == [] {
      StartedAs(f);
    } else {
      var before := Run(Started(f), steps[..|steps| - 1]);
      RejectionsCounted(f, steps[..|steps| - 1]);
      if !before.panicked {
        AddCounts(before, steps[|steps| - 1]);
      }
    }
  }

  /** The outcome counters follow the keyspace the FindX was started for. */
  lemma {:induction false} KeyspaceStays(s: State, steps: seq<Step>)
    ensures Run(s, steps).keyspace == s.keyspace
  {
    if steps != [] {
      KeyspaceStays(s, steps[..|steps| - 1]);
      KeyspaceStep(Run(s, steps[..|steps| - 1]), steps[|steps| - 1]);
    }
  }

  lemma KeyspaceStep(s: State, e: Step)
    ensures Apply(s, e).keyspace == s.keyspace
  {
  }

  lemma FlagsStep(s: State, e: Step)
    requires s.Enabled == s.enabled
    ensures Apply(s, e).Enabled == Apply(s, e).enabled
  {
  }

  /** The public flag and the private one agree throughout, so a Start that follows a Close
      does nothing. */
  lemma {:induction false} FlagsAgree(f: Settings, steps: seq<Step>)
    ensures Run(Started(f), steps).Enabled == Run(Started(f), steps).enabled
  {
    if steps == [] {
      StartedAs(f);
    } else {
      FlagsAgree(f, steps[..|steps| - 1]);
      FlagsStep(Run(Started(f), steps[..|steps| - 1]), steps[|steps| - 1]);
    }
  }
}
