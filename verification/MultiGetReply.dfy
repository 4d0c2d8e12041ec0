/** The whole reply of a multi-GET, from the texts of its request. */
module MultiGetReply {
  import opened Prelude
  import opened MagicBytes
  import opened Conversion
  import opened ConversionMetrics
  import opened ConversionCalls
  import opened RedisKeys
  import opened KeyspaceConfigs
  import opened Handlers
  import opened StoreRefinement
  import opened MultiGet
  import opened Reading

  // ---- the request

  lemma {:induction false} SplitJoin(parts: seq<string>, sep: char)
    requires parts != [] && forall i :: 0 <= i < |parts| ==> sep !in parts[i]
    ensures Split(Join(parts, sep), sep) == parts
  {
    if |parts| == 1 {
      SplitNone(parts[0], sep);
    } else {
      SplitJoin(parts[1..], sep);
      SplitFirst(parts[0], Join(parts[1..], sep), sep);
    }
  }

  lemma JoinEmpty(parts: seq<string>, sep: char)
    requires parts != []
    ensures Join(parts, sep) == "" <==> parts == [""]
  {
  }

  /** The request names these keyspaces, separated by commas, or names none and these are
      the configured default. */
  predicate Names<F>(s: Service<F>, q: Query, kss: seq<string>) {
    if q.ks == "" then kss == s.multipart
    else kss != [] && (forall i :: 0 <= i < |kss| ==> ',' !in kss[i]) && q.ks == Join(kss, ',')
  }

  lemma NamesRequested<F>(s: Service<F>, q: Query, kss: seq<string>)
    requires Names(s, q, kss)
    ensures Requested(s, q) == kss
  {
    if q.ks != "" {
      SplitJoin(kss, ',');
    }
  }

  /** A list of comma-free names, other than the empty one and that of one empty name, can
      be asked for, by joining it. */
  lemma JoinNames<F>(s: Service<F>, q: Query, kss: seq<string>)
    requires kss != [] && kss != [""] && (forall i :: 0 <= i < |kss| ==> ',' !in kss[i]) && q.ks == Join(kss, ',')
    ensures Names(s, q, kss)
  {
    JoinEmpty(kss, ',');
  }

  // ---- the reply

  /** The key one keyspace is looked up under. */
  function KeyOf<F>(s: Service<F>, q: Query, ks: string): string {
    var key := ks + ":{" + s.upper(q.id) + "}";
    if ks == "ct" then key + ("_" + q.ctHour + "_" + q.ctQuarter) else key
  }

  /** What one keyspace contributes: nothing when it is not configured; a look-up, unless
      suppressed, when its key is missing; else the default rendering of its value under
      its name, if there is one. A `ct` part is named after hour and quarter, and there is
      none when an underscore would make that ambiguous. */
  function Contribution<F>(s: Service<F>, redis: Redis, q: Query, ks: string): (seq<Part>, seq<(string, string)>) {
    var id, key := s.upper(q.id), KeyOf(s, q, ks);
    if ks !in s.keyspaces then ([], [])
    else if key !in redis then ([], if q.nofindx then [] else [(ks, id)])
    else
      var reply := Render(s, ks, redis[key], "");
      var name := if ks == "ct" then "ct_" + q.ctHour + "_" + q.ctQuarter else ks;
      var plain := ks == "ct" ==> '_' !in id && '_' !in q.ctHour && '_' !in q.ctQuarter;
      (if reply.status == 200 && plain then [Part(reply.headers["Namespace" := name], reply.body)] else [], [])
  }

  function Contributions<F>(s: Service<F>, redis: Redis, q: Query, kss: seq<string>)
    : (seq<Part>, seq<(string, string)>)
  {
    if kss == [] then ([], [])
    else
      var before := Contributions(s, redis, q, kss[..|kss| - 1]);
      var last := Contribution(s, redis, q, kss[|kss| - 1]);
      (before.0 + last.0, before.1 + last.1)
  }

  lemma KeysAgree<F>(s: Service<F>, q: Query, ks: string)
    ensures KeyFor(s, q, ks) == KeyOf(s, q, ks)
  {
    var head := ks + ":{" + s.upper(q.id) + "}";
    assert head + "_" + q.ctHour + "_" + q.ctQuarter == head + ("_" + q.ctHour + "_" + q.ctQuarter);
  }

  lemma ContributionIs<F>(s: Service<F>, redis: Redis, q: Query, ks: string)
    requires ks in s.keyspaces
    ensures Contribution(s, redis, q, ks) == (PartOf(s, redis, q, ks), LookupOf(s, redis, q, ks))
  {
    KeysAgree(s, q, ks);
    if ks == "ct" {
      CTNamespaceOfKey(s.upper(q.id), q.ctHour, q.ctQuarter);
      assert "ct" + "_" == "ct_";
    }
  }

  lemma {:induction false} ContributionsAre<F>(s: Service<F>, redis: Redis, q: Query, kss: seq<string>)
    ensures Contributions(s, redis, q, kss) == Collect(s, redis, q, Configured(s, kss))
  {
    if kss != [] {
      var before, ks := kss[..|kss| - 1], kss[|kss| - 1];
      ContributionsAre(s, redis, q, before);
      var gathered := Collect(s, redis, q, Configured(s, before));
      if ks in s.keyspaces {
        assert Configured(s, kss)[..|Configured(s, before)|] == Configured(s, before);
        ContributionIs(s, redis, q, ks);
      } else {
        assert Configured(s, kss) == Configured(s, before);
        assert gathered.0 + [] == gathered.0 && gathered.1 + [] == gathered.1;
      }
    }
  }

  lemma {:induction false} NoneConfigured<F>(s: Service<F>, kss: seq<string>)
    ensures Configured(s, kss) == [] <==> forall i :: 0 <= i < |kss| ==> kss[i] !in s.keyspaces
  {
    if kss != [] {
      NoneConfigured(s, kss[..|kss| - 1]);
      assert forall i :: 0 <= i < |kss| - 1 ==> kss[..|kss| - 1][i] == kss[i];
    }
  }

  /** The reply to a request that names kss: the contributions of the named keyspaces in
      order, 200 exactly if there is a part and 404 if there is none; 500 when Redis does
      not answer, unless no named keyspace is configured. */
  lemma WholeReply<F>(s: Service<F>, redis: Redis, q: Query, kss: seq<string>, up: bool)
    requires Names(s, q, kss)
    ensures var gathered := Contributions(s, redis, q, kss);
            var known := exists i :: 0 <= i < |kss| && kss[i] in s.keyspaces;
            MultiReplyOf(s, redis, q, up) ==
            if !known then MultiReply(404, [], [])
            else if !up then MultiReply(500, [], [])
            else MultiReply(if gathered.0 == [] then 404 else 200, gathered.0, gathered.1)
  {
    NamesRequested(s, q, kss);
    ContributionsAre(s, redis, q, kss);
    NoneConfigured(s, kss);
  }

  /** The keyspaces named are neither `ct` nor atomic. */
  predicate AllPlain<F>(s: Service<F>, kss: seq<string>) {
    forall i :: 0 <= i < |kss| && kss[i] in s.keyspaces ==> kss[i] != "ct" && s.keyspaces[kss[i]].kind != KSAtomic
  }

  /** Where neither `ct` nor an atomic keyspace is named, the reply is what one default GET
      per named keyspace gives on the same snapshot. */
  lemma ReplyOfSingleGets<F>(s: Service<F>, redis: Redis, q: Query, kss: seq<string>)
    requires Names(s, q, kss) && AllPlain(s, kss)
    ensures var gets := SingleGets(s, redis, q, kss);
            MultiReplyOf(s, redis, q, true) == MultiReply(if gets.0 == [] then 404 else 200, gets.0, gets.1)
  {
    NamesRequested(s, q, kss);
    AgreesWithSingleGets(s, redis, q, kss);
  }

  /** A part read by its headers is what was last put in the keyspace it names. */
  ghost predicate PartReads<F>(s: Service<F>, a: Contents, id: string, part: Part) {
    "Namespace" in part.headers &&
    var p := (part.headers["Namespace"], id);
    p in a && ReadBody(s.codec, p.0, part.headers, part.body)
              == ReadAs(s.codec, p.0, a[p].mb.ctv, a[p].mb.cev, a[p].data)
  }

  lemma ContributionReads<F(!new)>(s: Service<F>, redis: Redis, a: Contents, q: Query, ks: string)
    requires Deployed(s) && Refines(s, redis, a) && Regular(s, ks) && ks != "ct"
    ensures var (parts, lookups) := Contribution(s, redis, q, ks); var p := (ks, s.upper(q.id));
            && (forall part :: part in parts ==> PartReads(s, a, p.1, part))
            && lookups == if p in a || q.nofindx then [] else [p]
  {
    var p, key := (ks, s.upper(q.id)), RedisKey(ks, s.upper(q.id));
    assert key in redis <==> p in a;
    var reply := Get(s, redis, ks, q.id, "", true);
    if key in redis && reply.status == 200 {
      ReplyReads(s, redis, a, ks, q.id, "");
      assert Text(reply.headers["Namespace" := ks], "Content-Type") == Text(reply.headers, "Content-Type");
      assert Text(reply.headers["Namespace" := ks], "Content-Encoding") == Text(reply.headers, "Content-Encoding");
    }
  }

  lemma {:induction false} ContributionsRead<F(!new)>(
    s: Service<F>, redis: Redis, a: Contents, q: Query, kss: seq<string>)
    requires Deployed(s) && Refines(s, redis, a) && AllPlain(s, kss)
    ensures var (parts, lookups) := Contributions(s, redis, q, kss);
            && (forall part :: part in parts ==> PartReads(s, a, s.upper(q.id), part))
            && lookups == if q.nofindx then [] else Missing(s, a, s.upper(q.id), kss)
  {
    if kss != [] {
      ContributionsRead(s, redis, a, q, kss[..|kss| - 1]);
      if kss[|kss| - 1] in s.keyspaces {
        ContributionReads(s, redis, a, q, kss[|kss| - 1]);
      }
    }
  }

  /** After any run, for a request that names plain keyspaces: every part of the reply reads
      as what was last put in the keyspace its Namespace names, and FindX is asked, in
      request order, for exactly the configured keyspaces that hold nothing. */
  lemma ReplyAfterRun<F(!new)>(s: Service<F>, redis: Redis, a: Contents, q: Query, kss: seq<string>)
    requires Deployed(s) && Refines(s, redis, a) && Names(s, q, kss) && AllPlain(s, kss)
    ensures var reply := MultiReplyOf(s, redis, q, true);
            && (forall part :: part in reply.parts ==> PartReads(s, a, s.upper(q.id), part))
            && reply.lookups == if q.nofindx then [] else Missing(s, a, s.upper(q.id), kss)
  {
    WholeReply(s, redis, q, kss, true);
    ContributionsRead(s, redis, a, q, kss);
    if forall i :: 0 <= i < |kss| ==> kss[i] !in s.keyspaces {
      NothingMissing(s, a, s.upper(q.id), kss);
    }
  }

  lemma {:induction false} NothingMissing<F>(s: Service<F>, a: Contents, id: string, kss: seq<string>)
    requires forall i :: 0 <= i < |kss| ==> kss[i] !in s.keyspaces
    ensures Missing(s, a, id, kss) == []
  {
    if kss != [] {
      NothingMissing(s, a, id, kss[..|kss| - 1]);
    }
  }

  // ---- the conversions

  /** One conversion for each named and configured keyspace whose key Redis has. */
  function Converting<F>(s: Service<F>, redis: Redis, q: Query, kss: seq<string>): seq<Call> {
    if kss == [] then []
    else
      var ks := kss[|kss| - 1];
      var key := KeyOf(s, q, ks);
      Converting(s, redis, q, kss[..|kss| - 1]) +
      if ks in s.keyspaces && key in redis then RenderConversion(s, ks, redis[key], "") else []
  }

  lemma {:induction false} ConvertingIs<F>(s: Service<F>, redis: Redis, q: Query, kss: seq<string>)
    ensures PartConversions(s, redis, q, Configured(s, kss)) == Converting(s, redis, q, kss)
  {
    if kss != [] {
      var before, ks := kss[..|kss| - 1], kss[|kss| - 1];
      ConvertingIs(s, redis, q, before);
      KeysAgree(s, q, ks);
      if ks in s.keyspaces {
        assert Configured(s, kss)[..|Configured(s, before)|] == Configured(s, before);
      } else {
        assert Configured(s, kss) == Configured(s, before);
      }
    }
  }

  /** What a multi-GET converts, in the order of its request; nothing when Redis does not
      answer. */
  lemma MultiConverts<F>(s: Service<F>, redis: Redis, q: Query, kss: seq<string>, up: bool)
    requires Names(s, q, kss)
    ensures MultiConversions(s, redis, q, up) == if up then Converting(s, redis, q, kss) else []
  {
    NamesRequested(s, q, kss);
    ConvertingIs(s, redis, q, kss);
  }
}
