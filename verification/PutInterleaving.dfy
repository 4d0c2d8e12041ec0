/** Interleaved PUTs over shared buffers, joined to the runs of the store: the bytes
    the requests hand to Redis act as whole PUT events. */
module PutInterleaving {
  import opened RedisKeys
  import opened Handlers
  import opened StoreRefinement
  import opened BufferPool

  /** The pool's requests are those of this service. */
  function HandlerOf<F>(s: Service<F>): Handler {
    Handler(
      (keyspace, headers) => Admits(s, keyspace, headers),
      (req, rnd) => PreparePut(s, req, rnd))
  }

  /** What Redis is asked to do, in its order: the write of an interleaved PUT, or an
      event of another handler. */
  datatype Operation = Written(w: Write) | Other(e: Event)

  /** What Redis does: a write stores the bytes it was handed. */
  function Perform<F>(s: Service<F>, redis: Redis, op: Operation): Redis {
    match op
    case Written(w) => if w.up then redis[RedisKey(w.req.keyspace, s.upper(w.req.id)) := w.bytes] else redis
    case Other(e) => StoreRefinement.Step(s, redis, e)
  }

  function Replay<F>(s: Service<F>, redis: Redis, ops: seq<Operation>): Redis {
    if ops == [] then redis else Perform(s, Replay(s, redis, ops[..|ops| - 1]), ops[|ops| - 1])
  }

  /** The same operation as a whole event. */
  function EventOf(op: Operation): Event {
    match op
    case Written(w) => PutEvent(w.req, w.rnd, w.up)
    case Other(e) => e
  }

  function EventsOf(ops: seq<Operation>): seq<Event> {
    if ops == [] then [] else EventsOf(ops[..|ops| - 1]) + [EventOf(ops[|ops| - 1])]
  }

  /** Every write among the operations was handed over by the pool's requests. */
  ghost predicate FromPool(ops: seq<Operation>, log: seq<Write>) {
    forall i :: 0 <= i < |ops| && ops[i].Written? ==> ops[i].w in log
  }

  /** The handed-over bytes are what the whole PUT stores. */
  lemma WriteIsPut<F>(s: Service<F>, redis: Redis, w: Write)
    requires Framed(HandlerOf(s), w.req, w.rnd, w.bytes)
    ensures Perform(s, redis, Written(w)) == Put(s, redis, w.req, w.rnd, w.up).1
  {
  }

  lemma {:induction false} ReplayIsRun<F>(s: Service<F>, redis: Redis, ops: seq<Operation>, log: seq<Write>)
    requires Intact(HandlerOf(s), log) && FromPool(ops, log)
    ensures Replay(s, redis, ops) == StoreRefinement.Run(s, redis, EventsOf(ops))
  {
    if ops != [] {
      var before, op := ops[..|ops| - 1], ops[|ops| - 1];
      ReplayIsRun(s, redis, before, log);
      assert EventsOf(ops)[..|EventsOf(ops)| - 1] == EventsOf(before);
      if op.Written? {
        WriteIsPut(s, Replay(s, redis, before), op.w);
      }
    }
  }

  /** In every interleaving of PUTs over shared buffers, with the other handlers' events
      in between in any order, Redis represents the plain map in which every confirmed
      write is one whole PUT of what its client sent. */
  lemma InterleavedPutsRefine<F(!new)>(
    s: Service<F>, t: State, redis: Redis, a: Contents, ops: seq<Operation>)
    requires Deployed(s) && Refines(s, redis, a)
    requires Reachable(HandlerOf(s), t) && FromPool(ops, t.log)
    ensures Replay(s, redis, ops) == StoreRefinement.Run(s, redis, EventsOf(ops))
    ensures Refines(s, Replay(s, redis, ops), SpecRun(s, a, EventsOf(ops)))
  {
    WritesIntact(HandlerOf(s), t);
    ReplayIsRun(s, redis, ops, t.log);
    RunRefines(s, redis, a, EventsOf(ops));
  }
}
