/** The handlers as they run: pooled buffers, slices that may alias the read buffer,
    the Redis map and the conversion counters, updated in place. */
module Server {
  import opened Prelude
  import opened MagicBytes
  import opened RedisCrypto
  import opened Conversion
  import ConversionMetrics
  import opened ConversionCalls
  import opened RedisKeys
  import opened KeyspaceConfigs
  import opened Handlers
  import opened TTLs
  import MultiGet
  import StoreRefinement
  import opened Requests
  import opened FindXAsks
  import FindXProtocol
  import FindXService

  lemma ChunkJoins(before: Bytes, data: Bytes, i: nat, j: nat)
    requires i <= j <= |data|
    ensures before + data[..i] + data[i..j] == before + data[..j]
  {
    assert data[..i] + data[i..j] == data[..j];
  }

  class Buffer {
    var bytes: Bytes

    constructor ()
      ensures bytes == []
    {
      bytes := [];
    }

    /** Appends a body that arrives in chunks of any size, up to its end or a failure;
        after a failure the buffer holds what had arrived. */
    method ReadFrom(body: Body) returns (failure: Option<nat>)
      modifies this
      ensures failure == ReadFailure(body)
      ensures body.Body? ==> bytes == old(bytes) + body.data
    {
      match body {
        case Body(data) =>
          var arrived := 0;
          while arrived < |data|
            invariant 0 <= arrived <= |data| && bytes == old(bytes) + data[..arrived]
          {
            var size :| 1 <= size <= |data| - arrived;
            ChunkJoins(old(bytes), data, arrived, arrived + size);
            bytes := bytes + data[arrived..arrived + size];
            arrived := arrived + size;
          }
          assert data[..|data|] == data;
          failure := None;
        case TooLarge =>
          bytes := *;
          failure := Some(TOO_LARGE);
        case Unreadable =>
          bytes := *;
          failure := Some(BAD_REQUEST);
      }
    }
  }

  /** The status a body that cannot be read is answered with. */
  function ReadFailure(body: Body): Option<nat> {
    match body
    case TooLarge => Some(TOO_LARGE)
    case Unreadable => Some(BAD_REQUEST)
    case Body(_) => None
  }

  /** All of a buffer, without a copy, or bytes that stand alone. */
  datatype Slice = Whole(buffer: Buffer) | Own(bytes: Bytes)

  function Value(d: Slice): Bytes
    reads if d.Whole? then {d.buffer} else {}
  {
    match d
    case Whole(b) => b.bytes
    case Own(bytes) => bytes
  }

  class Pool {
    var free: set<Buffer>

    constructor ()
      ensures free == {}
    {
      free := {};
    }

    /** Any pooled buffer, with whatever it still holds, or a new one. */
    method Get() returns (b: Buffer)
      modifies this
      ensures b in old(free) || fresh(b)
      ensures free == old(free) - {b}
    {
      if * {
        b := new Buffer();
      } else if free == {} {
        b := new Buffer();
      } else {
        b :| b in free;
      }
      free := free - {b};
    }

    /** Hands a buffer back, once. */
    method Put(b: Buffer)
      requires b !in free
      modifies this
      ensures free == old(free) + {b}
    {
      free := free + {b};
    }
  }

  /** Reads a body into the buffer; the result aliases the buffer. */
  method ReadAll(body: Body, buf: Buffer) returns (data: Slice, failure: Option<nat>)
    modifies buf
    ensures data == Whole(buf)
    ensures failure == ReadFailure(body)
    ensures body.Body? ==> buf.bytes == old(buf.bytes) + body.data
  {
    failure := buf.ReadFrom(body);
    data := Whole(buf);
  }

  /** A pooled buffer holding the magic byte and the data. The data may alias a buffer,
      as long as that one is not in the pool. */
  method WriteToBufPool(pool: Pool, mb: bv8, data: Slice) returns (b: Buffer)
    requires data.Whole? ==> data.buffer !in pool.free
    modifies pool, pool.free
    ensures b in old(pool.free) || fresh(b)
    ensures pool.free == old(pool.free) - {b}
    ensures b.bytes == [mb] + old(Value(data))
    ensures forall b0 :: b0 in pool.free ==> b0.bytes == old(b0.bytes)
  {
    b := pool.Get();
    b.bytes := [];
    b.bytes := b.bytes + [mb];
    b.bytes := b.bytes + Value(data);
  }

  ghost function Views(findXs: map<string, FindXService.FindX>): map<string, FindXProtocol.State>
    reads findXs.Values
  {
    map ks | ks in findXs :: findXs[ks].View()
  }

  class Server<!F> {
    const svc: Service<F>
    const pool: Pool
    const metrics: ConversionMetrics.Provider
    const lifetimes: Lifetimes
    /** The FindX of every keyspace. */
    const findXs: map<string, FindXService.FindX>
    var redis: Redis
    /** The lifetime each key was last stored with. */
    var expiries: map<string, int>
    /** Every conversion, and every id handed over, so far and in order. */
    ghost var conversions: seq<ConversionMetrics.Call>
    ghost var asked: seq<Ask>

    /** Every configured keyspace has counters, and they are those of the conversions. */
    ghost predicate Valid()
      reads this, if metrics.Prometheus? then {metrics.metrics} else {}, metrics.Records()
    {
      && metrics.Valid() && (metrics.Prometheus? ==> metrics.metrics.counters.Keys == svc.keyspaces.Keys)
      && ConversionMetrics.Tallied(metrics, svc.codec, conversions)
    }

    /** Every configured keyspace has a FindX of its own. */
    predicate HasFindXs() {
      && (forall ks :: ks in svc.keyspaces ==> ks in findXs)
      && (forall k1, k2 :: k1 in findXs && k2 in findXs && k1 != k2 ==> findXs[k1] != findXs[k2])
    }

    ghost function FindXViews(): map<string, FindXProtocol.State>
      reads findXs.Values
    {
      Views(findXs)
    }

    ghost function View(): World
      reads this, findXs.Values
    {
      World(redis, expiries, conversions, asked, FindXViews())
    }

    constructor (svc: Service<F>, pool: Pool, metrics: ConversionMetrics.Provider, lifetimes: Lifetimes,
                 findXs: map<string, FindXService.FindX>, redis: Redis)
      requires metrics.Valid() && (metrics.Prometheus? ==> metrics.metrics.counters.Keys == svc.keyspaces.Keys)
      requires ConversionMetrics.Tallied(metrics, svc.codec, [])
      ensures this.svc == svc && this.pool == pool && this.metrics == metrics
      ensures this.lifetimes == lifetimes && this.findXs == findXs
      ensures Valid() && View() == World(redis, map[], [], [], Views(findXs))
    {
      this.svc, this.pool, this.metrics, this.lifetimes, this.findXs := svc, pool, metrics, lifetimes, findXs;
      this.redis, expiries, conversions, asked := redis, map[], [], [];
    }

    /** The conversion of a PUT. The result aliases the input on the pass-through path. */
    method ConvertForStore(ks: string, mb: MagicByte, data: Slice, rnd: Option<Nonce>)
      returns (out: MagicByte, converted: Slice, ok: bool)
      requires Valid() && ks in svc.keyspaces
      modifies metrics.Records(), this`conversions
      ensures var spec := Convert(svc.codec, ks, Record(mb, old(Value(data))), svc.keyspaces[ks].store, rnd);
              && ok == spec.Succeeded()
              && (ok ==> out == spec.record.mb && Value(converted) == spec.record.data)
      ensures converted.Whole? ==> converted == data
      ensures Value(data) == old(Value(data))
      ensures Valid()
      ensures var r := Record(mb, old(Value(data)));
              conversions == old(conversions) + [ConversionMetrics.Call(ks, r, svc.keyspaces[ks].store, rnd)]
    {
      var r := Record(mb, Value(data));
      var call := ConversionMetrics.Call(ks, r, svc.keyspaces[ks].store, rnd);
      var result := ConversionMetrics.ConvertNext(metrics, svc.codec, conversions, call);
      conversions := conversions + [call];
      ok := result.Succeeded();
      out := result.record.mb;
      converted := if result.record == r then data else Own(result.record.data);
    }

    /** The two checks of a PUT's content, each of which may unpack it. */
    method CheckContent(ks: string, r: Record) returns (ok: bool)
      requires ks in svc.keyspaces
      ensures ok == ContentPasses(svc, ks, r)
    {
      if svc.validateContent {
        var unpacked := Unpack(svc.codec, ks, r);
        if unpacked.Err? {
          return false;
        }
      }
      if svc.keyspaces[ks].store.cev == 0 && r.mb.cev != 0 {
        var unpacked := Unpack(svc.codec, ks, r);
        if unpacked.Err? {
          return false;
        }
      }
      ok := true;
    }

    /** A PUT between taking its first buffer and its second: read, validate, convert. */
    method Receive(req: PutRequest, mb: MagicByte, b1: Buffer, rnd: Option<Nonce>)
      returns (out: MagicByte, converted: Slice, refused: Option<nat>)
      requires Valid() && req.keyspace in svc.keyspaces && mb == FromHeaders(req.headers)
      requires TakesLabel(svc.keyspaces[req.keyspace], mb)
      modifies b1, metrics.Records(), this`conversions
      ensures PreparePut(svc, req, rnd) == match refused
                case None => Accept(Record(out, Value(converted)))
                case Some(status) => Refuse(status)
      ensures converted.Whole? ==> converted.buffer == b1
      ensures Valid()
      ensures conversions == old(conversions) + PutConversion(svc, req, rnd)
    {
      out, converted := mb, Own([]);
      b1.bytes := [];
      var data, failure := ReadAll(req.body, b1);
      if failure.Some? {
        return mb, Own([]), failure;
      }
      assert Value(data) == req.body.data;
      var passes := CheckContent(req.keyspace, Record(mb, Value(data)));
      if !passes {
        return mb, Own([]), Some(BAD_REQUEST);
      }
      var ok;
      out, converted, ok := ConvertForStore(req.keyspace, mb, data, rnd);
      refused := if ok then None else Some(SERVER_ERROR);
    }

    /** The write, from a second pooled buffer. */
    method Store(key: string, mb: MagicByte, data: Slice, ttl: int, up: bool) returns (reply: Reply)
      requires Valid() && (data.Whole? ==> data.buffer !in pool.free)
      modifies this`redis, this`expiries, pool, pool.free
      ensures Valid()
      ensures expiries == if up then old(expiries)[key := ttl] else old(expiries)
      ensures redis == if up then old(redis)[key := Frame(Record(mb, old(Value(data))))] else old(redis)
      ensures reply == if up then Reply(OK, map[], []) else Failure(SERVER_ERROR)
      ensures old(pool.free) <= pool.free && fresh(pool.free - old(pool.free))
    {
      var b2 := WriteToBufPool(pool, mb.Get(), data);
      if !up {
        reply := Failure(SERVER_ERROR);
      } else {
        redis, expiries := redis[key := b2.bytes], expiries[key := ttl];
        reply := Reply(OK, map[], []);
      }
      pool.Put(b2);
    }

    function Extended(expiries: map<string, int>, req: PutRequest): map<string, int> {
      expiries[RedisKey(req.keyspace, svc.upper(req.id)) := TTLFor(lifetimes, req.keyspace, req.headers)]
    }

    /** A PUT that was admitted, from its first buffer. */
    method PutAdmitted(req: PutRequest, b1: Buffer, rnd: Option<Nonce>, up: bool) returns (reply: Reply)
      requires Valid() && Admits(svc, req.keyspace, req.headers) && b1 !in pool.free
      modifies this`redis, this`expiries, b1, pool, pool.free, metrics.Records(), this`conversions
      ensures Valid()
      ensures (reply, redis) == Put(svc, old(redis), req, rnd, up)
      ensures expiries == if reply.status == OK then Extended(old(expiries), req) else old(expiries)
      ensures conversions == old(conversions) + PutConversion(svc, req, rnd)
      ensures old(pool.free) <= pool.free && fresh(pool.free - old(pool.free))
    {
      var out, converted, refused := Receive(req, FromHeaders(req.headers), b1, rnd);
      if refused.Some? {
        return Failure(refused.value);
      }
      var ttl := TTLFor(lifetimes, req.keyspace, req.headers);
      reply := Store(RedisKey(req.keyspace, svc.upper(req.id)), out, converted, ttl, up);
    }

    /** Takes the first buffer, and hands it back whatever happens. */
    method PutWithBuffer(req: PutRequest, rnd: Option<Nonce>, up: bool) returns (reply: Reply)
      requires Valid() && Admits(svc, req.keyspace, req.headers)
      modifies this`redis, this`expiries, pool, pool.free, metrics.Records(), this`conversions
      ensures Valid()
      ensures (reply, redis) == Put(svc, old(redis), req, rnd, up)
      ensures expiries == if reply.status == OK then Extended(old(expiries), req) else old(expiries)
      ensures conversions == old(conversions) + PutConversion(svc, req, rnd)
      ensures old(pool.free) <= pool.free && fresh(pool.free - old(pool.free))
    {
      var b1 := pool.Get();
      reply := PutAdmitted(req, b1, rnd, up);
      pool.Put(b1);
    }

    method HandlePut(req: PutRequest, rnd: Option<Nonce>, up: bool) returns (reply: Reply)
      requires Valid()
      modifies this`redis, this`expiries, pool, pool.free, metrics.Records(), this`conversions
      ensures Valid()
      ensures (reply, redis) == Put(svc, old(redis), req, rnd, up)
      ensures expiries == if reply.status == OK then Extended(old(expiries), req) else old(expiries)
      ensures conversions == old(conversions) + PutConversion(svc, req, rnd)
      ensures old(pool.free) <= pool.free && fresh(pool.free - old(pool.free))
    {
      if req.keyspace !in svc.keyspaces {
        return Failure(BAD_REQUEST);
      }
      if !TakesLabel(svc.keyspaces[req.keyspace], FromHeaders(req.headers)) {
        return Failure(BAD_REQUEST);
      }
      reply := PutWithBuffer(req, rnd, up);
    }

    /** Hands a missing id to the keyspace's FindX. A `pld` id that `pa` does not have,
        or that cannot be looked up there, is rejected instead. */
    method HandOver(findX: FindXService.FindX, ks: string, id: string, up: bool)
      modifies findX
      ensures old(findX.Valid()) ==> findX.Valid()
      ensures findX.View() == Told(old(findX.View()), Ask(ks, id, Looked(redis, ks, id, up)))
    {
      if ks == "pld" {
        if !up || RedisKey("pa", id) !in redis {
          findX.Reject();
          return;
        }
      }
      findX.Add(id);
    }

    /** Hands it to the FindX the server has for the keyspace, and to no other. */
    method TellOwn(ks: string, id: string, up: bool, ghost after: FindXProtocol.State)
      requires HasFindXs() && ks in findXs
      requires after == Told(findXs[ks].View(), Ask(ks, id, Looked(redis, ks, id, up)))
      modifies findXs[ks]
      ensures FindXViews() == old(FindXViews())[ks := after]
    {
      HandOver(findXs[ks], ks, id, up);
    }

    method HandOverIn(ks: string, id: string, up: bool)
      requires Valid() && HasFindXs() && ks in svc.keyspaces
      modifies this`asked, findXs[ks]
      ensures Valid()
      ensures var ask := Ask(ks, id, Looked(redis, ks, id, up));
              asked == old(asked) + [ask] && FindXViews() == Tell(old(FindXViews()), ask)
    {
      ghost var ask := Ask(ks, id, Looked(redis, ks, id, up));
      TellOwn(ks, id, up, Told(findXs[ks].View(), ask));
      asked := asked + [ask];
    }

    /** The one ask of a GET that misses. */
    method Miss(ks: string, id: string, up: bool)
      requires Valid() && HasFindXs() && ks in svc.keyspaces
      modifies this`asked, findXs[ks]
      ensures Valid()
      ensures var asks := [Ask(ks, id, Looked(redis, ks, id, up))];
              asked == old(asked) + asks && FindXViews() == TellAll(old(FindXViews()), asks)
    {
      TellOne(FindXViews(), Ask(ks, id, Looked(redis, ks, id, up)));
      HandOverIn(ks, id, up);
    }

    /** The reply for what is stored. */
    method RenderStored(ks: string, value: Bytes, format: string) returns (reply: Reply)
      requires Valid() && ks in svc.keyspaces
      modifies metrics.Records(), this`conversions
      ensures Valid()
      ensures reply == Render(svc, ks, value, format)
      ensures conversions == old(conversions) + RenderConversion(svc, ks, value, format)
    {
      var conf := svc.keyspaces[ks];
      var parsed := ParseResult(value);
      if parsed.None? {
        return Failure(SERVER_ERROR);
      }
      if format == "raw" {
        var h := map[CONTENT_TYPE_HEADER := "application/octet-stream"];
        return Reply(OK, h, [parsed.value.mb.Get()] + parsed.value.data);
      }
      var target := conf.output;
      if format != "" {
        target := New("", format, 0);
        if target.ctv == 0 {
          return Failure(BAD_REQUEST);
        }
      }
      var call := ConversionMetrics.Call(ks, parsed.value, target, None);
      var out := ConversionMetrics.ConvertNext(metrics, svc.codec, conversions, call);
      conversions := conversions + [call];
      if !out.Succeeded() {
        return Failure(SERVER_ERROR);
      }
      reply := Reply(OK, SetContentHeaders(out.record.mb, map[]), out.record.data);
    }

    /** A GET that Redis answers, in a configured keyspace that is not atomic. */
    method GetRegular(ks: string, id: string, format: string, nofindx: bool, existsUp: bool) returns (reply: Reply)
      requires Valid() && HasFindXs() && ks in svc.keyspaces && svc.keyspaces[ks].kind != KSAtomic
      modifies metrics.Records(), this`conversions, this`asked, findXs.Values
      ensures Valid()
      ensures reply == Get(svc, redis, ks, id, format, true)
      ensures conversions == old(conversions) + GetConversion(svc, redis, ks, id, format, true)
      ensures var asks := GetAsks(svc, redis, ks, id, nofindx, true, existsUp);
              asked == old(asked) + asks && FindXViews() == TellAll(old(FindXViews()), asks)
    {
      var key := RedisKey(ks, svc.upper(id));
      if key !in redis {
        if !nofindx {
          Miss(ks, svc.upper(id), existsUp);
        }
        return Failure(NOT_FOUND);
      }
      reply := RenderStored(ks, redis[key], format);
    }

    /** A GET; `existsUp` is whether Redis answers the look-up in `pa`. */
    method HandleGet(ks: string, id: string, format: string, nofindx: bool, up: bool, existsUp: bool)
      returns (reply: Reply)
      requires Valid() && HasFindXs()
      modifies metrics.Records(), this`conversions, this`asked, findXs.Values
      ensures Valid()
      ensures reply == Get(svc, redis, ks, id, format, up)
      ensures conversions == old(conversions) + GetConversion(svc, redis, ks, id, format, up)
      ensures var asks := GetAsks(svc, redis, ks, id, nofindx, up, existsUp);
              asked == old(asked) + asks && FindXViews() == TellAll(old(FindXViews()), asks)
    {
      if ks !in svc.keyspaces {
        return Failure(BAD_REQUEST);
      }
      var conf := svc.keyspaces[ks];
      var key := RedisKey(ks, svc.upper(id));
      if !up {
        return Failure(SERVER_ERROR);
      }
      if conf.kind == KSAtomic {
        reply := if key in redis then Reply(OK, map[], redis[key]) else Failure(NOT_FOUND);
        return;
      }
      reply := GetRegular(ks, id, format, nofindx, existsUp);
    }

    method HandleDel(ks: string, id: string, up: bool) returns (reply: Reply)
      requires Valid()
      modifies this`redis
      ensures Valid()
      ensures (reply, redis) == Del(svc, old(redis), ks, id, up)
    {
      if ks !in svc.keyspaces {
        return Failure(BAD_REQUEST);
      }
      var key := RedisKey(ks, svc.upper(id));
      if !up {
        return Failure(SERVER_ERROR);
      }
      if key !in redis {
        return Failure(NOT_FOUND);
      }
      redis := redis - {key};
      reply := Reply(OK, map[], []);
    }

    /** Hands over missing ids, in order. */
    method HandOverAll(lookups: seq<(string, string)>, existsUp: bool)
      requires Valid() && HasFindXs() && forall lookup :: lookup in lookups ==> lookup.0 in svc.keyspaces
      modifies this`asked, findXs.Values
      ensures Valid()
      ensures var asks := AsksFor(redis, lookups, existsUp);
              asked == old(asked) + asks && FindXViews() == TellAll(old(FindXViews()), asks)
    {
      for i := 0 to |lookups|
        invariant Valid()
        invariant asked == old(asked) + AsksFor(redis, lookups[..i], existsUp)
        invariant FindXViews() == TellAll(old(FindXViews()), AsksFor(redis, lookups[..i], existsUp))
      {
        assert lookups[i] in lookups;
        ghost var ask := Ask(lookups[i].0, lookups[i].1, Looked(redis, lookups[i].0, lookups[i].1, existsUp));
        AsksNext(old(FindXViews()), old(asked), redis, lookups, existsUp, i, ask);
        HandOverIn(lookups[i].0, lookups[i].1, existsUp);
      }
      assert lookups[..|lookups|] == lookups;
    }

    method ReadMulti(q: MultiGet.Query, up: bool) returns (reply: MultiGet.MultiReply)
      requires Valid()
      modifies metrics.Records(), this`conversions
      ensures Valid()
      ensures reply == MultiGet.MultiReplyOf(svc, redis, q, up)
      ensures conversions == old(conversions) + MultiGet.MultiConversions(svc, redis, q, up)
      ensures forall lookup :: lookup in reply.lookups ==> lookup.0 in svc.keyspaces
    {
      MultiGet.LookupsConfigured(svc, redis, q, MultiGet.Configured(svc, MultiGet.Requested(svc, q)));
      ghost var after;
      reply, after := MultiGet.HandleMultiGet(metrics, conversions, svc, redis, q, up);
      conversions := after;
    }

    /** A multi-GET; the missing ids are handed over in order. */
    method HandleMulti(q: MultiGet.Query, up: bool, existsUp: bool) returns (reply: MultiGet.MultiReply)
      requires Valid() && HasFindXs()
      modifies metrics.Records(), this`conversions, this`asked, findXs.Values
      ensures Valid()
      ensures reply == MultiGet.MultiReplyOf(svc, redis, q, up)
      ensures conversions == old(conversions) + MultiGet.MultiConversions(svc, redis, q, up)
      ensures var asks := AsksFor(redis, reply.lookups, existsUp);
              asked == old(asked) + asks && FindXViews() == TellAll(old(FindXViews()), asks)
    {
      reply := ReadMulti(q, up);
      HandOverAll(reply.lookups, existsUp);
    }

    method AnswerPut(r: Request) returns (response: Response)
      requires r.PutRequested? && Valid()
      modifies this`redis, this`expiries, this`conversions, pool, pool.free, metrics.Records()
      ensures Valid()
      ensures (response, View()) == Answer(svc, lifetimes, old(View()), r)
      ensures old(pool.free) <= pool.free && fresh(pool.free - old(pool.free))
    {
      var reply := HandlePut(r.req, r.rnd, r.up);
      response := Single(reply);
    }

    method AnswerGet(r: Request) returns (response: Response)
      requires r.GetRequested? && Valid() && HasFindXs()
      modifies this`conversions, this`asked, metrics.Records(), findXs.Values
      ensures Valid()
      ensures (response, View()) == Answer(svc, lifetimes, old(View()), r)
    {
      var reply := HandleGet(r.ks, r.id, r.format, r.nofindx, r.up, r.existsUp);
      response := Single(reply);
    }

    method AnswerDel(r: Request) returns (response: Response)
      requires r.DelRequested? && Valid()
      modifies this`redis
      ensures Valid()
      ensures (response, View()) == Answer(svc, lifetimes, old(View()), r)
    {
      var reply := HandleDel(r.ks, r.id, r.up);
      response := Single(reply);
    }

    method AnswerMulti(r: Request) returns (response: Response)
      requires r.MultiRequested? && Valid() && HasFindXs()
      modifies this`conversions, this`asked, metrics.Records(), findXs.Values
      ensures Valid()
      ensures (response, View()) == Answer(svc, lifetimes, old(View()), r)
    {
      var reply := HandleMulti(r.q, r.up, r.existsUp);
      response := Multi(reply);
    }

    /** One request, of whatever kind. */
    method Handle(r: Request) returns (response: Response)
      requires Valid() && HasFindXs()
      modifies this`redis, this`expiries, this`conversions, this`asked
      modifies pool, pool.free, metrics.Records(), findXs.Values
      ensures Valid()
      ensures (response, View()) == Answer(svc, lifetimes, old(View()), r)
      ensures old(pool.free) <= pool.free && fresh(pool.free - old(pool.free))
    {
      match r {
        case PutRequested(_, _, _) => response := AnswerPut(r);
        case GetRequested(_, _, _, _, _, _) => response := AnswerGet(r);
        case DelRequested(_, _, _) => response := AnswerDel(r);
        case MultiRequested(_, _, _) => response := AnswerMulti(r);
      }
    }

    /** Any sequence of requests. */
    method HandleAll(rs: seq<Request>) returns (responses: seq<Response>)
      requires Valid() && HasFindXs()
      modifies this`redis, this`expiries, this`conversions, this`asked
      modifies pool, pool.free, metrics.Records(), findXs.Values
      ensures Valid()
      ensures (responses, View()) == AnswerAll(svc, lifetimes, old(View()), rs)
    {
      responses := [];
      for i := 0 to |rs|
        invariant Valid()
        invariant (responses, View()) == AnswerAll(svc, lifetimes, old(View()), rs[..i])
        invariant old(pool.free) <= pool.free && fresh(pool.free - old(pool.free))
      {
        AnswersNext(svc, lifetimes, old(View()), rs, i);
        var response := Handle(rs[i]);
        responses := responses + [response];
      }
      assert rs[..|rs|] == rs;
    }
  }

  /** The server, with its counters registered. */
  method Begin<F>(
    svc: Service<F>, lifetimes: Lifetimes, registered: Option<set<string>>, promNamespace: string,
    keyspaces: seq<string>, findXs: map<string, FindXService.FindX>, redis: Redis)
    returns (server: Server<F>)
    requires forall ks :: ks in keyspaces <==> ks in svc.keyspaces
    ensures fresh(server) && fresh(server.pool) && fresh(server.pool.free) && fresh(server.metrics.Records())
    ensures server.Valid() && server.svc == svc && server.lifetimes == lifetimes && server.findXs == findXs
    ensures server.metrics.Prometheus? <==> ConversionMetrics.Registrable(registered, promNamespace, keyspaces)
    ensures server.View() == Opening(redis, Views(findXs))
  {
    var metrics := ConversionMetrics.Init(registered, promNamespace, keyspaces);
    var pool := new Pool();
    assert metrics.Prometheus? ==> metrics.metrics.counters.Keys == svc.keyspaces.Keys;
    server := new Server(svc, pool, metrics, lifetimes, findXs, redis);
  }

  /** The server from its start: the counters are registered, the server is made, and any
      requests are served. Responses, Redis and the tally are the specification's; the
      Redis map is that of the store's run. */
  method Serve<F>(
    svc: Service<F>, lifetimes: Lifetimes, registered: Option<set<string>>, promNamespace: string,
    keyspaces: seq<string>, findXs: map<string, FindXService.FindX>, redis: Redis, rs: seq<Request>)
    returns (server: Server<F>, responses: seq<Response>)
    requires forall ks :: ks in keyspaces <==> ks in svc.keyspaces
    requires forall ks :: ks in svc.keyspaces ==> ks in findXs
    requires forall k1, k2 :: k1 in findXs && k2 in findXs && k1 != k2 ==> findXs[k1] != findXs[k2]
    modifies findXs.Values
    ensures server.Valid() && server.svc == svc && server.findXs == findXs
    ensures server.metrics.Prometheus? <==> ConversionMetrics.Registrable(registered, promNamespace, keyspaces)
    ensures (responses, server.View()) == AnswerAll(svc, lifetimes, Opening(redis, old(Views(findXs))), rs)
    ensures server.redis == StoreRefinement.Run(svc, redis, EventsOf(rs))
    ensures ConversionMetrics.Tallied(server.metrics, svc.codec, server.conversions)
    ensures forall ks :: ks in findXs ==>
      findXs[ks].View() == ToldAll(old(findXs[ks].View()), Of(server.asked, ks))
  {
    ghost var w := Opening(redis, Views(findXs));
    server := Begin(svc, lifetimes, registered, promNamespace, keyspaces, findXs, redis);
    responses := server.HandleAll(rs);
    AnswersRun(svc, lifetimes, w, rs);
    AnswersHand(svc, lifetimes, w, rs);
  }
}
