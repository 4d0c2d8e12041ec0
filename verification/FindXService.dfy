/** The FindX object. Each method, when nothing interleaves with it, is the
    corresponding path through the protocol. */
module FindXService {
  import opened FindXProtocol
  import opened FindXShutdown

  /** The id a worker has taken and not finished, if any. */
  function HeldBy(worker: Worker): seq<string> {
    if worker.Holding? then [worker.id] else []
  }

  /** The counters after these ids were finished. */
  function FinishAll(m: Metrics, keyspace: string, ids: seq<string>, respond: string -> Response): Metrics
    decreases |ids|
  {
    if ids == [] then m
    else FinishAll(m.Bump(OutcomeOf(keyspace, ids[0], respond(ids[0]))), keyspace, ids[1..], respond)
  }

  lemma {:induction false} FinishesKeepAdds(
    m: Metrics, keyspace: string, ids: seq<string>, respond: string -> Response)
    ensures var after := FinishAll(m, keyspace, ids, respond);
            && after.addSuc == m.addSuc && after.addFail == m.addFail && after.addRej == m.addRej
            && after.Finished() == m.Finished() + |ids|
    decreases |ids|
  {
    if ids != [] {
      FinishesKeepAdds(m.Bump(OutcomeOf(keyspace, ids[0], respond(ids[0]))), keyspace, ids[1..], respond);
    }
  }

  lemma FirstMoves(done: seq<string>, queue: seq<string>)
    requires queue != []
    ensures done + [queue[0]] + queue[1..] == done + queue
  {
  }

  class FindX {
    var Enabled: bool
    var keyspace: string
    var channelBufferSize: int
    var thread: int
    var metrics: Metrics
    var enabled: bool
    var ch: seq<string>
    var cap: nat
    var closed: bool
    var workers: seq<Worker>
    ghost var attempts: nat
    ghost var sends: seq<string>
    ghost var dequeued: seq<string>
    ghost var finished: seq<string>

    /** The protocol state between method calls: no Add or Close is under way. */
    ghost function View(): State
      reads this
    {
      State(keyspace, Enabled, enabled, cap, ch, closed, workers, map[], map[], false, metrics,
            attempts, sends, dequeued, finished)
    }

    ghost predicate Valid()
      reads this
    {
      Inv(View())
    }

    constructor (keyspace: string, Enabled: bool, channelBufferSize: int, thread: int)
      ensures View() == Stopped(keyspace, Enabled)
      ensures this.channelBufferSize == channelBufferSize && this.thread == thread
    {
      this.keyspace, this.Enabled := keyspace, Enabled;
      this.channelBufferSize, this.thread := channelBufferSize, thread;
      metrics := Metrics(0, 0, 0, 0, 0, 0);
      enabled, ch, cap, closed, workers := false, [], 0, false, [];
      attempts, sends, dequeued, finished := 0, [], [], [];
    }

    /** The channel and the workers, with the defaults where a setting is missing. */
    method Launch()
      requires View() == Stopped(keyspace, true)
      modifies this
      ensures View() == Started(Settings(old(keyspace), true, true, old(channelBufferSize), old(thread)))
    {
      if channelBufferSize < 1 {
        channelBufferSize := DEFAULT_CHANNEL_BUFFER_SIZE;
      }
      if thread < 1 {
        thread := DEFAULT_THREAD;
      }
      cap := channelBufferSize;
      workers := seq(thread, _ => Idle);
      enabled := true;
    }

    /** Start on an object that is not running; after a Close, or a Start that failed,
        it changes nothing. */
    method Start(validURL: bool) returns (ok: bool)
      requires Enabled ==> View() == Stopped(keyspace, true)
      modifies this
      ensures ok <==> old(Enabled) && validURL
      ensures !old(Enabled) ==> View() == old(View())
      ensures old(Enabled) ==> Valid()
      ensures old(Enabled) ==>
        View() == Started(Settings(old(keyspace), true, validURL, old(channelBufferSize), old(thread)))
    {
      if !Enabled {
        return false;
      }
      StartKeeps(Settings(keyspace, true, validURL, channelBufferSize, thread));
      if !validURL {
        Enabled := false;
        return false;
      }
      Launch();
      ok := true;
    }

    /** A non-blocking Add: check, send or refuse, count. */
    method Add(id: string)
      modifies this
      ensures View() == AddResult(old(View()), id)
      ensures old(Valid()) ==> Valid()
    {
      if Inv(View()) {
        AddResultKeeps(View(), id);
      }
      if !enabled {
        return;
      }
      attempts := attempts + 1;
      if |ch| < cap {
        ch := ch + [id];
        sends := sends + [id];
        metrics := metrics.(addSuc := metrics.addSuc + 1);
      } else {
        metrics := metrics.(addFail := metrics.addFail + 1);
      }
    }

    method Reject()
      modifies this`metrics
      ensures View() == Apply(old(View()), FindXProtocol.Reject)
      ensures old(Valid()) ==> Valid()
    {
      if Inv(View()) {
        StepKeeps(View(), FindXProtocol.Reject);
      }
      if enabled {
        metrics := metrics.(addRej := metrics.addRej + 1);
      }
    }

    /** The end of a turn: the held id is finished and counted. */
    method FinishTurn(w: nat, response: Response)
      requires Valid() && w < |workers| && workers[w].Holding?
      modifies this`metrics, this`workers, this`finished
      ensures Valid() && View() == Apply(old(View()), Finish(w, response))
    {
      FinishKeeps(View(), w, response);
      var id := workers[w].id;
      metrics, workers := metrics.Bump(OutcomeOf(keyspace, id, response)), workers[w := Idle];
      finished := finished + [id];
    }

    /** The start of a turn: an idle worker takes an id. */
    method TakeTurn(w: nat)
      requires Valid() && w < |workers| && workers[w].Idle? && ch != []
      modifies this`ch, this`workers, this`dequeued
      ensures Valid() && View() == Apply(old(View()), Take(w))
    {
      TakeKeeps(View(), w);
      ch, workers, dequeued := ch[1..], workers[w := Holding(ch[0])], dequeued + [ch[0]];
    }

    method Leave(w: nat)
      requires Valid() && w < |workers| && workers[w].Idle? && closed && ch == []
      modifies this`workers
      ensures Valid() && View() == Apply(old(View()), Exit(w))
    {
      ExitKeeps(View(), w);
      workers := workers[w := Exited];
    }

    /** A whole turn of an idle worker: take an id, make its request, count it. */
    method Turn(w: nat, respond: string -> Response)
      requires Valid() && w < |workers| && workers[w].Idle? && ch != []
      modifies this`ch, this`metrics, this`workers, this`dequeued, this`finished
      ensures Valid() && ch == old(ch)[1..] && workers == old(workers) && finished == old(finished) + [old(ch)[0]]
      ensures metrics == old(metrics).Bump(OutcomeOf(keyspace, old(ch)[0], respond(old(ch)[0])))
    {
      var id := ch[0];
      TurnKeeps(View(), w, respond(id));
      TakeTurn(w);
      FinishTurn(w, respond(id));
    }

    /** A worker finishes the id it holds, if any. */
    method FinishHeld(w: nat, respond: string -> Response)
      requires Valid() && w < |workers| && !workers[w].Exited?
      modifies this`metrics, this`workers, this`finished
      ensures Valid() && workers == old(workers)[w := Idle]
      ensures finished == old(finished) + HeldBy(old(workers)[w])
      ensures FinishAll(metrics, keyspace, ch, respond)
           == FinishAll(old(metrics), keyspace, HeldBy(old(workers)[w]) + ch, respond)
    {
      ghost var ids := HeldBy(workers[w]) + ch;
      if workers[w].Holding? {
        assert ids[1..] == ch;
        FinishTurn(w, respond(workers[w].id));
      } else {
        assert workers[w := Idle] == workers && ids == ch;
      }
    }

    /** An idle worker's turns until the channel is empty. */
    method EmptyChannel(w: nat, respond: string -> Response)
      requires Valid() && w < |workers| && workers[w].Idle?
      modifies this`ch, this`metrics, this`workers, this`dequeued, this`finished
      ensures Valid() && ch == [] && workers == old(workers)
      ensures finished == old(finished) + old(ch)
      ensures metrics == FinishAll(old(metrics), keyspace, old(ch), respond)
    {
      while ch != []
        invariant Valid() && workers == old(workers)
        invariant finished + ch == old(finished) + old(ch)
        invariant FinishAll(metrics, keyspace, ch, respond) == FinishAll(old(metrics), keyspace, old(ch), respond)
        decreases |ch|
      {
        FirstMoves(finished, ch);
        Turn(w, respond);
      }
      assert finished + ch == finished;
    }

    /** A worker, alone, from wherever it stands: it finishes the id it holds, then one
        after the other those it takes, until the channel is empty; then it exits if the
        channel is closed, and waits for an id otherwise. `respond` is what each request
        gets. */
    method RunWorker(w: nat, respond: string -> Response)
      requires Valid() && w < |workers| && !workers[w].Exited?
      modifies this`ch, this`metrics, this`workers, this`dequeued, this`finished
      ensures Valid() && ch == [] && workers == old(workers)[w := if closed then Exited else Idle]
      ensures finished == old(finished) + HeldBy(old(workers)[w]) + old(ch)
      ensures metrics == FinishAll(old(metrics), keyspace, HeldBy(old(workers)[w]) + old(ch), respond)
      ensures metrics.addSuc == old(metrics).addSuc
    {
      ghost var ids := HeldBy(workers[w]) + ch;
      FinishesKeepAdds(metrics, keyspace, ids, respond);
      FinishHeld(w, respond);
      EmptyChannel(w, respond);
      if closed {
        Leave(w);
      }
    }

    /** Any one step of a worker that has not exited, whatever its request gets. */
    method StepWorker(w: nat)
      requires Valid() && closed && w < |workers| && !workers[w].Exited?
      modifies this`ch, this`metrics, this`workers, this`dequeued, this`finished
      ensures Valid() && |workers| == |old(workers)| && metrics.addSuc == old(metrics).addSuc
      ensures Measure(View()) < Measure(old(View()))
    {
      if workers[w].Holding? {
        var response: Response := *;
        StepDrains(View(), Finish(w, response));
        FinishTurn(w, response);
      } else if ch != [] {
        StepDrains(View(), Take(w));
        TakeTurn(w);
      } else {
        StepDrains(View(), Exit(w));
        Leave(w);
      }
    }

    /** Close with no Add under way: the flags, the channel, and the wait, during which
        the workers step in any order until the last has exited. */
    method Close()
      requires enabled ==> Valid()
      modifies this
      ensures !enabled
      ensures !old(enabled) ==> View() == old(View())
      ensures old(enabled) ==>
        && Valid() && closed && !Enabled && ch == [] && AllExited(View())
        && metrics.addSuc == old(metrics).addSuc == metrics.Finished()
    {
      if !enabled {
        return;
      }
      Enabled := false;
      enabled := false;
      closed := true;
      while exists w :: 0 <= w < |workers| && !workers[w].Exited?
        invariant Valid() && closed && !enabled && !Enabled && |workers| == |old(workers)|
        invariant metrics.addSuc == old(metrics).addSuc
        decreases Measure(View())
      {
        var w :| 0 <= w < |workers| && !workers[w].Exited?;
        StepWorker(w);
      }
      ExitedMeansDrained(View());
      assert Uncounted(View().adders) == {};
    }
  }
}
