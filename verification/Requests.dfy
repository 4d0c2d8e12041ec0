/** The server as a function of its requests: what each is answered, and what it does to
    the state the server keeps. Runs of it are runs of the store. */
module Requests {
  import opened Prelude
  import opened MagicBytes
  import opened RedisCrypto
  import opened Conversion
  import opened ConversionMetrics
  import opened ConversionCalls
  import opened RedisKeys
  import opened KeyspaceConfigs
  import opened Handlers
  import opened StoreRefinement
  import opened MultiGet
  import opened MultiGetReply
  import opened Reading
  import opened TTLs
  import FindXProtocol
  import opened FindXAsks

  /** A request with what its environment does: the nonce, whether Redis answers, and
      whether it answers the look-up in `pa`. */
  datatype Request =
    | PutRequested(req: PutRequest, rnd: Option<Nonce>, up: bool)
    | GetRequested(ks: string, id: string, format: string, nofindx: bool, up: bool, existsUp: bool)
    | DelRequested(ks: string, id: string, up: bool)
    | MultiRequested(q: Query, up: bool, existsUp: bool)

  datatype Response = Single(reply: Reply) | Multi(parts: MultiReply)

  /** What the server keeps: the Redis map, the lifetime each key was last stored with,
      the conversions counted, the missing ids handed over, and the FindX of each
      keyspace. */
  datatype World = World(
    redis: Redis, expiries: map<string, int>, conversions: seq<Call>,
    asked: seq<Ask>, findXs: map<string, FindXProtocol.State>)
  {
    function Handing(asks: seq<Ask>): World {
      this.(asked := asked + asks, findXs := TellAll(findXs, asks))
    }
  }

  /** A server that has answered nothing yet. */
  function Opening(redis: Redis, findXs: map<string, FindXProtocol.State>): World {
    World(redis, map[], [], [], findXs)
  }

  /** What a GET hands over. */
  function GetAsks<F>(
    s: Service<F>, redis: Redis, ks: string, id: string, nofindx: bool, up: bool, existsUp: bool): seq<Ask>
  {
    if LooksUp(s, redis, ks, id, nofindx, up)
    then [Ask(ks, s.upper(id), Looked(redis, ks, s.upper(id), existsUp))]
    else []
  }

  function Answer<F>(s: Service<F>, l: Lifetimes, w: World, r: Request): (Response, World) {
    match r
    case PutRequested(req, rnd, up) =>
      var (reply, redis) := Put(s, w.redis, req, rnd, up);
      var key := RedisKey(req.keyspace, s.upper(req.id));
      (Single(reply), w.(
        redis := redis,
        expiries := if reply.status == OK then w.expiries[key := TTLFor(l, req.keyspace, req.headers)] else w.expiries,
        conversions := w.conversions + PutConversion(s, req, rnd)))
    case GetRequested(ks, id, format, nofindx, up, existsUp) =>
      var after := w.Handing(GetAsks(s, w.redis, ks, id, nofindx, up, existsUp));
      (Single(Get(s, w.redis, ks, id, format, up)),
       after.(conversions := w.conversions + GetConversion(s, w.redis, ks, id, format, up)))
    case DelRequested(ks, id, up) =>
      var (reply, redis) := Del(s, w.redis, ks, id, up);
      (Single(reply), w.(redis := redis))
    case MultiRequested(q, up, existsUp) =>
      var reply := MultiReplyOf(s, w.redis, q, up);
      var after := w.Handing(AsksFor(w.redis, reply.lookups, existsUp));
      (Multi(reply), after.(conversions := w.conversions + MultiConversions(s, w.redis, q, up)))
  }

  function AnswerAll<F>(s: Service<F>, l: Lifetimes, w: World, rs: seq<Request>): (seq<Response>, World) {
    if rs == [] then ([], w)
    else
      var (before, v) := AnswerAll(s, l, w, rs[..|rs| - 1]);
      var (response, after) := Answer(s, l, v, rs[|rs| - 1]);
      (before + [response], after)
  }

  /** The store's event; a multi-GET is none. */
  function EventOf(r: Request): seq<Event> {
    match r
    case PutRequested(req, rnd, up) => [PutEvent(req, rnd, up)]
    case GetRequested(ks, id, format, _, up, _) => [GetEvent(ks, id, format, up)]
    case DelRequested(ks, id, up) => [DelEvent(ks, id, up)]
    case MultiRequested(_, _, _) => []
  }

  function EventsOf(rs: seq<Request>): seq<Event> {
    if rs == [] then [] else EventsOf(rs[..|rs| - 1]) + EventOf(rs[|rs| - 1])
  }

  lemma AnswersNext<F>(s: Service<F>, l: Lifetimes, w: World, rs: seq<Request>, i: nat)
    requires i < |rs|
    ensures var before := AnswerAll(s, l, w, rs[..i]);
            var next := Answer(s, l, before.1, rs[i]);
            AnswerAll(s, l, w, rs[..i + 1]) == (before.0 + [next.0], next.1)
  {
    assert rs[..i + 1][..i] == rs[..i];
  }

  lemma {:induction false} AnswersCount<F>(s: Service<F>, l: Lifetimes, w: World, rs: seq<Request>)
    ensures |AnswerAll(s, l, w, rs).0| == |rs|
  {
    if rs != [] {
      AnswersCount(s, l, w, rs[..|rs| - 1]);
    }
  }

  lemma {:induction false} AnswerAt<F>(s: Service<F>, l: Lifetimes, w: World, rs: seq<Request>, i: nat)
    requires i < |rs|
    ensures |AnswerAll(s, l, w, rs).0| == |rs|
    ensures AnswerAll(s, l, w, rs).0[i] == Answer(s, l, AnswerAll(s, l, w, rs[..i]).1, rs[i]).0
  {
    var before := rs[..|rs| - 1];
    AnswersCount(s, l, w, before);
    if i < |before| {
      AnswerAt(s, l, w, before, i);
      assert before[..i] == rs[..i];
    }
  }

  /** What a request does to the Redis map is what its event does. */
  lemma AnswerSteps<F>(s: Service<F>, l: Lifetimes, w: World, r: Request)
    ensures Answer(s, l, w, r).1.redis == if r.MultiRequested? then w.redis else Step(s, w.redis, EventOf(r)[0])
  {
  }

  lemma RunOn<F>(s: Service<F>, redis: Redis, es: seq<Event>, r: Request)
    ensures Run(s, redis, es + EventOf(r)) ==
            if r.MultiRequested? then Run(s, redis, es) else Step(s, Run(s, redis, es), EventOf(r)[0])
  {
    if r.MultiRequested? {
      assert es + EventOf(r) == es;
    } else {
      assert (es + EventOf(r))[..|es|] == es;
    }
  }

  /** The Redis map after any requests is that of the store's run. */
  lemma {:induction false} AnswersRun<F>(s: Service<F>, l: Lifetimes, w: World, rs: seq<Request>)
    ensures AnswerAll(s, l, w, rs).1.redis == Run(s, w.redis, EventsOf(rs))
  {
    if rs != [] {
      var before := rs[..|rs| - 1];
      AnswersRun(s, l, w, before);
      AnswerSteps(s, l, AnswerAll(s, l, w, before).1, rs[|rs| - 1]);
      RunOn(s, w.redis, EventsOf(before), rs[|rs| - 1]);
    }
  }

  lemma AnswerHands<F>(s: Service<F>, l: Lifetimes, w: World, r: Request)
    ensures exists asks :: Answer(s, l, w, r).1.asked == w.asked + asks
              && Answer(s, l, w, r).1.findXs == TellAll(w.findXs, asks)
  {
    var none: seq<Ask> := [];
    match r
    case GetRequested(ks, id, _, nofindx, up, existsUp) =>
      var asks := GetAsks(s, w.redis, ks, id, nofindx, up, existsUp);
      assert Answer(s, l, w, r).1.asked == w.asked + asks;
    case MultiRequested(q, up, existsUp) =>
      var asks := AsksFor(w.redis, MultiReplyOf(s, w.redis, q, up).lookups, existsUp);
      assert Answer(s, l, w, r).1.asked == w.asked + asks;
    case PutRequested(_, _, _) =>
      assert Answer(s, l, w, r).1.asked == w.asked + none;
    case DelRequested(_, _, _) =>
      assert Answer(s, l, w, r).1.asked == w.asked + none;
  }

  /** After any requests every FindX has been told all that was handed over, and so holds
      the history of exactly its own keyspace's missing ids, in order. */
  lemma {:induction false} AnswersHand<F>(s: Service<F>, l: Lifetimes, w: World, rs: seq<Request>)
    requires w.asked == []
    ensures AnswerAll(s, l, w, rs).1.findXs == TellAll(w.findXs, AnswerAll(s, l, w, rs).1.asked)
    ensures forall ks :: ks in w.findXs ==>
              ks in AnswerAll(s, l, w, rs).1.findXs
              && AnswerAll(s, l, w, rs).1.findXs[ks]
                 == ToldAll(w.findXs[ks], Of(AnswerAll(s, l, w, rs).1.asked, ks))
  {
    var after := AnswerAll(s, l, w, rs).1;
    if rs != [] {
      AnswersHand(s, l, w, rs[..|rs| - 1]);
      var before := AnswerAll(s, l, w, rs[..|rs| - 1]).1;
      AnswerHands(s, l, before, rs[|rs| - 1]);
      var asks :| after.asked == before.asked + asks && after.findXs == TellAll(before.findXs, asks);
      TellJoin(w.findXs, before.asked, asks);
    }
    forall ks | ks in w.findXs
      ensures ks in after.findXs && after.findXs[ks] == ToldAll(w.findXs[ks], Of(after.asked, ks))
    {
      OwnAsks(w.findXs, after.asked, ks);
    }
  }

  /** In any sequence of requests, from any Redis map that represents a plain one: a
      default GET of a regular keyspace is answered 404 exactly when nothing is there, and
      otherwise with what was last put, if it is answered at all. */
  lemma ServedGet<F(!new)>(s: Service<F>, l: Lifetimes, w: World, a: Contents, rs: seq<Request>, i: nat)
    requires Deployed(s) && Refines(s, w.redis, a) && i < |rs|
    requires rs[i].GetRequested? && rs[i].up && rs[i].format == "" && Regular(s, rs[i].ks)
    ensures |AnswerAll(s, l, w, rs).0| == |rs|
    ensures var put := SpecRun(s, a, EventsOf(rs[..i])); var p := (rs[i].ks, s.upper(rs[i].id));
            var response := AnswerAll(s, l, w, rs).0[i];
            && response.Single?
            && (response.reply.status == NOT_FOUND <==> p !in put)
            && (response.reply.status == OK ==>
                  p in put && MeaningOf(s.codec, p.0, Received(response.reply)) == MeaningOf(s.codec, p.0, put[p]))
  {
    AnswerAt(s, l, w, rs, i);
    AnswersRun(s, l, w, rs[..i]);
    var es := EventsOf(rs[..i]);
    assert Reached(s, Run(s, w.redis, es), SpecRun(s, a, es));
    GetAfterRun(s, Run(s, w.redis, es), SpecRun(s, a, es), rs[i].ks, rs[i].id);
  }

  /** The lifetime changes for the key of an accepted PUT, and for nothing else. */
  lemma LifetimesKept<F>(s: Service<F>, l: Lifetimes, w: World, r: Request)
    ensures var (response, after) := Answer(s, l, w, r);
            if r.PutRequested? && response.reply.status == 200 then
              var key := r.req.keyspace + ":{" + s.upper(r.req.id) + "}";
              after.expiries == w.expiries[key := TTLFor(l, r.req.keyspace, r.req.headers)]
            else after.expiries == w.expiries
  {
  }

  /** What a GET of a regular keyspace does to the server: it hands its id over, once,
      exactly when it is answered 404 and that is not suppressed; it converts once exactly
      when it is answered 200 or 500 by converting; and it changes nothing else. */
  lemma GetServed<F(!new)>(s: Service<F>, l: Lifetimes, w: World, a: Contents, r: Request)
    requires Deployed(s) && MarshalsAll(s.codec) && Refines(s, w.redis, a)
    requires r.GetRequested? && Regular(s, r.ks)
    ensures var (response, after) := Answer(s, l, w, r);
            var id := s.upper(r.id); var status := Get(s, w.redis, r.ks, r.id, r.format, r.up).status;
            var ask := Ask(r.ks, id, LookedFor(w.redis, r.ks, id, r.existsUp));
            && response == Single(Get(s, w.redis, r.ks, r.id, r.format, r.up))
            && after.redis == w.redis && after.expiries == w.expiries
            && after.asked == w.asked + (if status == 404 && !r.nofindx then [ask] else [])
            && w.conversions <= after.conversions
            && |after.conversions| - |w.conversions| ==
               if r.up && r.format != "raw" && status in {200, 500} then 1 else 0
  {
    LooksUpIff(s, w.redis, a, r.ks, r.id, r.format, r.nofindx, r.up);
    GetStatus(s, w.redis, a, r.ks, r.id, r.format, r.up);
    GetConverts(s, w.redis, r.ks, r.id, r.format, r.up);
    var p := (r.ks, s.upper(r.id));
    assert "pa" + ":{" == "pa:{";
    if p in a {
      StoredReads(s, w.redis, a, p.0, p.1);
    }
  }

  /** A PUT converts at most once, and hands nothing over. */
  lemma PutServed<F>(s: Service<F>, l: Lifetimes, w: World, r: Request)
    requires r.PutRequested?
    ensures var (response, after) := Answer(s, l, w, r);
            var prepared := PreparePut(s, r.req, r.rnd);
            && response == Single(Put(s, w.redis, r.req, r.rnd, r.up).0)
            && after.asked == w.asked && after.findXs == w.findXs
            && w.conversions <= after.conversions
            && |after.conversions| - |w.conversions| == if prepared.Accept? || prepared.status == 500 then 1 else 0
  {
    PutConverts(s, r.req, r.rnd);
  }

  lemma DelServed<F>(s: Service<F>, l: Lifetimes, w: World, r: Request)
    requires r.DelRequested?
    ensures var (response, after) := Answer(s, l, w, r);
            var (reply, redis) := Del(s, w.redis, r.ks, r.id, r.up);
            response == Single(reply) && after == w.(redis := redis)
  {
  }

  /** A multi-GET hands over its missing ids, in order, each to be added or rejected, and
      converts what it finds. */
  lemma MultiServed<F>(s: Service<F>, l: Lifetimes, w: World, r: Request, kss: seq<string>)
    requires r.MultiRequested? && Names(s, r.q, kss)
    ensures var (response, after) := Answer(s, l, w, r);
            var reply := MultiReplyOf(s, w.redis, r.q, r.up);
            && response == Multi(reply) && after.redis == w.redis && after.expiries == w.expiries
            && after.conversions == w.conversions + (if r.up then Converting(s, w.redis, r.q, kss) else [])
            && w.asked <= after.asked && |after.asked| == |w.asked| + |reply.lookups|
            && forall i :: 0 <= i < |reply.lookups| ==>
                var (ks, id) := reply.lookups[i];
                after.asked[|w.asked| + i] == Ask(ks, id, LookedFor(w.redis, ks, id, r.existsUp))
  {
    MultiConverts(s, w.redis, r.q, kss, r.up);
    var reply := MultiReplyOf(s, w.redis, r.q, r.up);
    var asks := AsksFor(w.redis, reply.lookups, r.existsUp);
    forall i | 0 <= i < |reply.lookups|
      ensures var (ks, id) := reply.lookups[i];
              (w.asked + asks)[|w.asked| + i] == Ask(ks, id, LookedFor(w.redis, ks, id, r.existsUp))
    {
      AsksAre(w.redis, reply.lookups, r.existsUp, i);
    }
  }
}
