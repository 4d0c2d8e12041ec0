/** The multi-keyspace GET: compaction of the requested keyspaces into three
    aligned arrays, one MGET, and one part per record that converts. */
module MultiGet {
  import opened Prelude
  import opened MagicBytes
  import opened RedisCrypto
  import opened Conversion
  import opened ConversionMetrics
  import opened ConversionCalls
  import opened RedisKeys
  import opened KeyspaceConfigs
  import opened Handlers
  import opened StoreRefinement

  const NAMESPACE_HEADER := "Namespace"
  const CT := "ct"

  datatype Query = Query(id: string, ks: string, ctHour: string, ctQuarter: string, nofindx: bool)

  datatype Part = Part(headers: map<string, string>, body: Bytes)

  /** `lookups` are the (keyspace, id) pairs handed to FindX, in order. */
  datatype MultiReply = MultiReply(status: nat, parts: seq<Part>, lookups: seq<(string, string)>)

  function Requested<F>(s: Service<F>, q: Query): seq<string> {
    if q.ks == "" then s.multipart else Split(q.ks, ',')
  }

  /** The configured ones among the requested keyspaces, in request order. */
  function Configured<F>(s: Service<F>, requested: seq<string>): (kss: seq<string>)
    ensures forall ks :: ks in kss ==> ks in s.keyspaces
  {
    if requested == [] then []
    else
      var ks := requested[|requested| - 1];
      Configured(s, requested[..|requested| - 1]) + if ks in s.keyspaces then [ks] else []
  }

  function KeyFor<F>(s: Service<F>, q: Query, ks: string): string {
    if ks != CT then RedisKey(ks, s.upper(q.id)) else RedisKeyCT(ks, s.upper(q.id), q.ctHour, q.ctQuarter)
  }

  function MGet(redis: Redis, keys: seq<string>): seq<Option<Bytes>> {
    seq(|keys|, i requires 0 <= i < |keys| => if keys[i] in redis then Some(redis[keys[i]]) else None)
  }

  /** The part a stored value becomes, or none when it has no magic byte, does not
      convert, or its `ct` key has no Namespace. */
  function PartFor<F>(s: Service<F>, ks: string, key: string, value: Bytes): seq<Part>
    requires ks in s.keyspaces
  {
    match ParseResult(value)
    case None => []
    case Some(r) =>
      var out := Conversion.Convert(s.codec, ks, r, s.keyspaces[ks].output, None);
      if !out.Succeeded() then []
      else
        var h := SetContentHeaders(out.record.mb, map[]);
        if ks != CT then [Part(h[NAMESPACE_HEADER := ks], out.record.data)]
        else
          match CTNamespace(ks, key)
          case None => []
          case Some(namespace) => [Part(h[NAMESPACE_HEADER := namespace], out.record.data)]
  }

  /** The part and the lookup one configured keyspace gives. */
  function PartOf<F>(s: Service<F>, redis: Redis, q: Query, ks: string): seq<Part>
    requires ks in s.keyspaces
  {
    var key := KeyFor(s, q, ks);
    if key in redis then PartFor(s, ks, key, redis[key]) else []
  }

  function LookupOf<F>(s: Service<F>, redis: Redis, q: Query, ks: string): seq<(string, string)> {
    if KeyFor(s, q, ks) in redis || q.nofindx then [] else [(ks, s.upper(q.id))]
  }

  /** And the conversion its record gets to: that of a single default GET. */
  function ConversionOf<F>(s: Service<F>, redis: Redis, q: Query, ks: string): seq<Call>
    requires ks in s.keyspaces
  {
    var key := KeyFor(s, q, ks);
    if key in redis then RenderConversion(s, ks, redis[key], "") else []
  }

  /** The parts and lookups for a list of configured keyspaces. */
  function Collect<F>(s: Service<F>, redis: Redis, q: Query, kss: seq<string>): (seq<Part>, seq<(string, string)>)
    requires forall i :: 0 <= i < |kss| ==> kss[i] in s.keyspaces
  {
    if kss == [] then ([], [])
    else
      var ks := kss[|kss| - 1];
      var before := Collect(s, redis, q, kss[..|kss| - 1]);
      (before.0 + PartOf(s, redis, q, ks), before.1 + LookupOf(s, redis, q, ks))
  }

  lemma {:induction false} ConfiguredAre<F>(s: Service<F>, requested: seq<string>)
    ensures forall i :: 0 <= i < |Configured(s, requested)| ==> Configured(s, requested)[i] in s.keyspaces
    ensures |Configured(s, requested)| <= |requested|
  {
    if requested != [] {
      ConfiguredAre(s, requested[..|requested| - 1]);
    }
  }

  lemma CollectNext<F>(s: Service<F>, redis: Redis, q: Query, kss: seq<string>, i: nat)
    requires i < |kss| && forall j :: 0 <= j < |kss| ==> kss[j] in s.keyspaces
    ensures var before := Collect(s, redis, q, kss[..i]);
            Collect(s, redis, q, kss[..i + 1]) ==
            (before.0 + PartOf(s, redis, q, kss[i]), before.1 + LookupOf(s, redis, q, kss[i]))
    ensures PartConversions(s, redis, q, kss[..i + 1]) ==
            PartConversions(s, redis, q, kss[..i]) + ConversionOf(s, redis, q, kss[i])
  {
    assert kss[..i + 1][..i] == kss[..i];
  }

  /** The first loop of the handler: three arrays with room for every requested
      keyspace, filled with the configured ones and sharing an index. */
  method Compact<F>(s: Service<F>, q: Query, requested: seq<string>)
    returns (keys: seq<string>, keyspaces: seq<string>, confs: seq<Keyspace>)
    ensures keyspaces == Configured(s, requested)
    ensures |keys| == |confs| == |keyspaces|
    ensures forall j :: 0 <= j < |keyspaces| ==>
      keyspaces[j] in s.keyspaces && keys[j] == KeyFor(s, q, keyspaces[j]) && confs[j] == s.keyspaces[keyspaces[j]]
  {
    var keyArray := new string[|requested|];
    var keyspaceArray := new string[|requested|];
    var confArray := new Keyspace[|requested|];
    var count := 0;
    for i := 0 to |requested|
      invariant count <= i
      invariant keyspaceArray[..count] == Configured(s, requested[..i])
      invariant forall j :: 0 <= j < count ==>
        && keyspaceArray[j] in s.keyspaces
        && keyArray[j] == KeyFor(s, q, keyspaceArray[j])
        && confArray[j] == s.keyspaces[keyspaceArray[j]]
    {
      assert requested[..i + 1][..i] == requested[..i];
      if requested[i] !in s.keyspaces {
        continue;
      }
      keyArray[count] := KeyFor(s, q, requested[i]);
      keyspaceArray[count] := requested[i];
      confArray[count] := s.keyspaces[requested[i]];
      assert keyspaceArray[..count + 1] == keyspaceArray[..count] + [requested[i]];
      count := count + 1;
    }
    assert requested[..|requested|] == requested;
    keys, keyspaces, confs := keyArray[..count], keyspaceArray[..count], confArray[..count];
  }

  /** The whole reply. */
  function MultiReplyOf<F>(s: Service<F>, redis: Redis, q: Query, up: bool): MultiReply {
    var kss := Configured(s, Requested(s, q));
    if kss == [] then MultiReply(NOT_FOUND, [], [])
    else if !up then MultiReply(SERVER_ERROR, [], [])
    else
      var (parts, lookups) := Collect(s, redis, q, kss);
      MultiReply(if parts == [] then NOT_FOUND else OK, parts, lookups)
  }

  /** The conversions of the records found, in order. */
  function PartConversions<F>(s: Service<F>, redis: Redis, q: Query, kss: seq<string>): seq<Call>
    requires forall i :: 0 <= i < |kss| ==> kss[i] in s.keyspaces
  {
    if kss == [] then []
    else
      PartConversions(s, redis, q, kss[..|kss| - 1]) + ConversionOf(s, redis, q, kss[|kss| - 1])
  }

  function MultiConversions<F>(s: Service<F>, redis: Redis, q: Query, up: bool): seq<Call> {
    if up then PartConversions(s, redis, q, Configured(s, Requested(s, q))) else []
  }

  lemma {:induction false} LookupsConfigured<F>(s: Service<F>, redis: Redis, q: Query, kss: seq<string>)
    requires forall i :: 0 <= i < |kss| ==> kss[i] in s.keyspaces
    ensures forall lookup :: lookup in Collect(s, redis, q, kss).1 ==> lookup.0 in s.keyspaces
  {
    if kss != [] {
      LookupsConfigured(s, redis, q, kss[..|kss| - 1]);
    }
  }

  /** The body of the second loop for one result. `calls` are the conversions counted
      so far. */
  method Convey<F>(p: Provider, ghost calls: seq<Call>, s: Service<F>, ks: string, key: string, conf: Keyspace,
                   value: Bytes)
    returns (parts: seq<Part>, ghost after: seq<Call>)
    requires ks in s.keyspaces && conf == s.keyspaces[ks]
    requires p.Valid() && p.Covers(ks) && Tallied(p, s.codec, calls)
    modifies p.Records()
    ensures parts == PartFor(s, ks, key, value)
    ensures after == calls + RenderConversion(s, ks, value, "") && Tallied(p, s.codec, after)
  {
    var parsed := ParseResult(value);
    if parsed.None? {
      return [], calls;
    }
    var call := Call(ks, parsed.value, conf.output, None);
    var out := ConvertNext(p, s.codec, calls, call);
    after := calls + [call];
    if !out.Succeeded() {
      return [], after;
    }
    var h := SetContentHeaders(out.record.mb, map[]);
    if ks != CT {
      h := h[NAMESPACE_HEADER := ks];
    } else {
      var namespace := CTNamespace(ks, key);
      if namespace.None? {
        return [], after;
      }
      h := h[NAMESPACE_HEADER := namespace.value];
    }
    parts := [Part(h, out.record.data)];
  }

  /** One turn of the second loop: a look-up for a missing result, else its part. */
  method Turn<F>(p: Provider, ghost calls: seq<Call>, s: Service<F>, redis: Redis, q: Query,
                 ks: string, key: string, conf: Keyspace, result: Option<Bytes>)
    returns (part: seq<Part>, lookup: seq<(string, string)>, ghost after: seq<Call>)
    requires ks in s.keyspaces && conf == s.keyspaces[ks] && key == KeyFor(s, q, ks)
    requires result == if key in redis then Some(redis[key]) else None
    requires p.Valid() && p.Covers(ks) && Tallied(p, s.codec, calls)
    modifies p.Records()
    ensures part == PartOf(s, redis, q, ks) && lookup == LookupOf(s, redis, q, ks)
    ensures after == calls + ConversionOf(s, redis, q, ks) && Tallied(p, s.codec, after)
  {
    part, lookup, after := [], [], calls;
    if result.None? {
      if !q.nofindx {
        lookup := [(ks, s.upper(q.id))];
      }
      return;
    }
    part, after := Convey(p, calls, s, ks, key, conf, result.value);
  }

  lemma Joined(a: seq<Call>, b: seq<Call>, c: seq<Call>)
    ensures a + b + c == a + (b + c)
  {
  }

  /** The second loop. */
  method ConveyAll<F>(p: Provider, ghost calls: seq<Call>, s: Service<F>, redis: Redis, q: Query,
                      keys: seq<string>, keyspaces: seq<string>, confs: seq<Keyspace>)
    returns (parts: seq<Part>, lookups: seq<(string, string)>, ghost after: seq<Call>)
    requires |keys| == |confs| == |keyspaces|
    requires forall j :: 0 <= j < |keyspaces| ==>
      keyspaces[j] in s.keyspaces && keys[j] == KeyFor(s, q, keyspaces[j]) && confs[j] == s.keyspaces[keyspaces[j]]
    requires p.Valid() && Tallied(p, s.codec, calls) && forall ks :: ks in s.keyspaces ==> p.Covers(ks)
    modifies p.Records()
    ensures (parts, lookups) == Collect(s, redis, q, keyspaces)
    ensures after == calls + PartConversions(s, redis, q, keyspaces) && Tallied(p, s.codec, after)
  {
    var results := MGet(redis, keys);
    parts, lookups, after := [], [], calls;
    for i := 0 to |results|
      invariant (parts, lookups) == Collect(s, redis, q, keyspaces[..i])
      invariant after == calls + PartConversions(s, redis, q, keyspaces[..i]) && Tallied(p, s.codec, after)
    {
      CollectNext(s, redis, q, keyspaces, i);
      Joined(calls, PartConversions(s, redis, q, keyspaces[..i]), ConversionOf(s, redis, q, keyspaces[i]));
      var part, lookup;
      part, lookup, after := Turn(p, after, s, redis, q, keyspaces[i], keys[i], confs[i], results[i]);
      parts, lookups := parts + part, lookups + lookup;
    }
    assert keyspaces[..|results|] == keyspaces;
  }

  /** The handler: result, key, keyspace and configuration keep one index from the
      compaction to the last part. */
  method HandleMultiGet<F>(p: Provider, ghost calls: seq<Call>, s: Service<F>, redis: Redis, q: Query, up: bool)
    returns (reply: MultiReply, ghost after: seq<Call>)
    requires p.Valid() && Tallied(p, s.codec, calls) && forall ks :: ks in s.keyspaces ==> p.Covers(ks)
    modifies p.Records()
    ensures reply == MultiReplyOf(s, redis, q, up)
    ensures after == calls + MultiConversions(s, redis, q, up) && Tallied(p, s.codec, after)
  {
    after := calls;
    var keys, keyspaces, confs := Compact(s, q, Requested(s, q));
    if |keyspaces| < 1 {
      return MultiReply(NOT_FOUND, [], []), after;
    }
    if !up {
      return MultiReply(SERVER_ERROR, [], []), after;
    }
    var parts, lookups;
    parts, lookups, after := ConveyAll(p, calls, s, redis, q, keys, keyspaces, confs);
    reply := MultiReply(if parts == [] then NOT_FOUND else OK, parts, lookups);
  }

  // ---- agreement with single GETs

  /** What a client would collect with one default GET per requested keyspace. */
  function SingleGets<F>(s: Service<F>, redis: Redis, q: Query, requested: seq<string>)
    : (seq<Part>, seq<(string, string)>)
  {
    if requested == [] then ([], [])
    else
      var ks := requested[|requested| - 1];
      var before := SingleGets(s, redis, q, requested[..|requested| - 1]);
      var reply := Get(s, redis, ks, q.id, "", true);
      (before.0 + (if reply.status == OK then [Part(reply.headers[NAMESPACE_HEADER := ks], reply.body)] else []),
       before.1 + if LooksUp(s, redis, ks, q.id, q.nofindx, true) then [(ks, s.upper(q.id))] else [])
  }

  lemma PartOfGet<F>(s: Service<F>, redis: Redis, q: Query, ks: string)
    requires ks in s.keyspaces && ks != CT && s.keyspaces[ks].kind != KSAtomic && RedisKey(ks, s.upper(q.id)) in redis
    ensures var key := RedisKey(ks, s.upper(q.id));
            var reply := Get(s, redis, ks, q.id, "", true);
            PartFor(s, ks, key, redis[key]) ==
            if reply.status == OK then [Part(reply.headers[NAMESPACE_HEADER := ks], reply.body)] else []
  {
  }

  /** For keyspaces that are neither atomic nor `ct`, a multi-GET gives, in request
      order, exactly the bodies, headers and lookups of the single GETs on the same
      snapshot, each body under its keyspace's name. */
  lemma {:induction false} AgreesWithSingleGets<F>(s: Service<F>, redis: Redis, q: Query, requested: seq<string>)
    requires forall i :: 0 <= i < |requested| && requested[i] in s.keyspaces ==>
               requested[i] != CT && s.keyspaces[requested[i]].kind != KSAtomic
    ensures forall ks :: ks in Configured(s, requested) ==> ks in s.keyspaces
    ensures Collect(s, redis, q, Configured(s, requested)) == SingleGets(s, redis, q, requested)
  {
    ConfiguredAre(s, requested);
    if requested != [] {
      var ks := requested[|requested| - 1];
      var before := requested[..|requested| - 1];
      AgreesWithSingleGets(s, redis, q, before);
      var kss := Configured(s, requested);
      var gets := SingleGets(s, redis, q, before);
      assert gets.0 + [] == gets.0 && gets.1 + [] == gets.1;
      if ks in s.keyspaces {
        assert kss[..|kss| - 1] == Configured(s, before) && kss[|kss| - 1] == ks;
        if RedisKey(ks, s.upper(q.id)) in redis {
          PartOfGet(s, redis, q, ks);
        }
      } else {
        assert kss == Configured(s, before);
      }
    }
  }

  // ---- what a client observes

  /** A part, read by its own headers, means what was last put in the keyspace it names. */
  ghost predicate PartSays<F(!new)>(s: Service<F>, a: Contents, id: string, part: Part) {
    NAMESPACE_HEADER in part.headers &&
    var ks := part.headers[NAMESPACE_HEADER];
    (ks, id) in a &&
    MeaningOf(s.codec, ks, Record(FromHeaders(part.headers), part.body)) == MeaningOf(s.codec, ks, a[(ks, id)])
  }

  /** The configured keyspaces that hold nothing for the id, in request order. */
  function Missing<F>(s: Service<F>, a: Contents, id: string, requested: seq<string>): seq<(string, string)> {
    if requested == [] then []
    else
      var ks := requested[|requested| - 1];
      Missing(s, a, id, requested[..|requested| - 1]) +
      if ks in s.keyspaces && (ks, id) !in a then [(ks, id)] else []
  }

  lemma NamedPartSays<F(!new)>(s: Service<F>, redis: Redis, a: Contents, ks: string, id: string)
    requires Deployed(s) && Reached(s, redis, a) && Regular(s, ks)
    ensures var reply := Get(s, redis, ks, id, "", true);
            && (reply.status == NOT_FOUND <==> (ks, s.upper(id)) !in a)
            && (reply.status == OK ==>
                  PartSays(s, a, s.upper(id), Part(reply.headers[NAMESPACE_HEADER := ks], reply.body)))
  {
    var reply := Get(s, redis, ks, id, "", true);
    GetAfterRun(s, redis, a, ks, id);
    assert FromHeaders(reply.headers[NAMESPACE_HEADER := ks]) == FromHeaders(reply.headers);
  }

  lemma {:induction false} SingleGetsSay<F(!new)>(
    s: Service<F>, redis: Redis, a: Contents, q: Query, requested: seq<string>)
    requires Deployed(s) && Reached(s, redis, a)
    requires forall i :: 0 <= i < |requested| && requested[i] in s.keyspaces ==> Regular(s, requested[i])
    ensures var gets := SingleGets(s, redis, q, requested);
            && (forall part :: part in gets.0 ==> PartSays(s, a, s.upper(q.id), part))
            && gets.1 == if q.nofindx then [] else Missing(s, a, s.upper(q.id), requested)
  {
    if requested != [] {
      var ks := requested[|requested| - 1];
      SingleGetsSay(s, redis, a, q, requested[..|requested| - 1]);
      if ks in s.keyspaces {
        NamedPartSays(s, redis, a, ks, q.id);
      }
    }
  }

  /** After any run: every part of a multi-GET over regular keyspaces means what was last
      put in the keyspace it names, and FindX is asked, in request order, for exactly the
      configured keyspaces that hold nothing. */
  lemma PartsAfterRun<F(!new)>(s: Service<F>, redis: Redis, a: Contents, q: Query, requested: seq<string>)
    requires Deployed(s) && Reached(s, redis, a)
    requires forall i :: 0 <= i < |requested| && requested[i] in s.keyspaces ==>
               requested[i] != CT && Regular(s, requested[i])
    ensures forall ks :: ks in Configured(s, requested) ==> ks in s.keyspaces
    ensures var (parts, lookups) := Collect(s, redis, q, Configured(s, requested));
            && (forall part :: part in parts ==> PartSays(s, a, s.upper(q.id), part))
            && lookups == if q.nofindx then [] else Missing(s, a, s.upper(q.id), requested)
  {
    AgreesWithSingleGets(s, redis, q, requested);
    SingleGetsSay(s, redis, a, q, requested);
  }

  /** A `ct` record that converts becomes a part exactly when id, hour and quarter
      have no underscore; its Namespace is then `ct_<hour>_<quarter>`. */
  lemma CTPart<F>(s: Service<F>, redis: Redis, q: Query)
    requires CT in s.keyspaces && KeyFor(s, q, CT) in redis
    requires Render(s, CT, redis[KeyFor(s, q, CT)], "").status == OK
    ensures var key := KeyFor(s, q, CT);
            var reply := Render(s, CT, redis[key], "");
            var parts := Collect(s, redis, q, [CT]).0;
            var namespace := "ct" + "_" + q.ctHour + "_" + q.ctQuarter;
            if '_' !in s.upper(q.id) && '_' !in q.ctHour && '_' !in q.ctQuarter
            then parts == [Part(reply.headers[NAMESPACE_HEADER := namespace], reply.body)]
            else parts == []
  {
    CTNamespaceOfKey(s.upper(q.id), q.ctHour, q.ctQuarter);
    var key := KeyFor(s, q, CT);
    var empty: seq<string> := [];
    assert [CT][..0] == empty;
    assert Collect(s, redis, q, [CT]).0 == [] + PartFor(s, CT, key, redis[key]);
  }

  /** All keys of one multi-GET live in one cluster slot. */
  lemma OneSlot<F>(s: Service<F>, q: Query, k1: string, k2: string)
    requires '{' !in k1 && '{' !in k2 && Taggable(s.upper(q.id))
    ensures HashTag(KeyFor(s, q, k1)) == HashTag(KeyFor(s, q, k2)) == TagOf(s.upper(q.id))
  {
    SameHashTag(k1, k2, s.upper(q.id), q.ctHour, q.ctQuarter);
    SameHashTag(k2, k1, s.upper(q.id), q.ctHour, q.ctQuarter);
  }
}
