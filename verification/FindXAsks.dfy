/** Missing ids handed over to the FindX of their keyspaces. */
module FindXAsks {
  import opened Prelude
  import opened Handlers
  import opened FindXProtocol
  import opened FindXCapacity

  /** An id handed over for a keyspace: to be added, or to be rejected. */
  datatype Ask = Ask(keyspace: string, id: string, looked: bool)

  function Told(s: State, ask: Ask): State {
    if ask.looked then AddResult(s, ask.id) else Apply(s, Step.Reject)
  }

  /** The ask goes to its own keyspace's FindX. */
  function Tell(findXs: map<string, State>, ask: Ask): map<string, State> {
    if ask.keyspace in findXs then findXs[ask.keyspace := Told(findXs[ask.keyspace], ask)] else findXs
  }

  function TellAll(findXs: map<string, State>, asks: seq<Ask>): map<string, State> {
    if asks == [] then findXs else Tell(TellAll(findXs, asks[..|asks| - 1]), asks[|asks| - 1])
  }

  lemma TellOne(findXs: map<string, State>, ask: Ask)
    ensures TellAll(findXs, [ask]) == Tell(findXs, ask)
  {
    assert TellAll(findXs, [ask][..0]) == findXs;
  }

  /** Missing ids as they are handed over on a snapshot of Redis. */
  function AsksFor(redis: Redis, lookups: seq<(string, string)>, existsUp: bool): (asks: seq<Ask>)
    ensures |asks| == |lookups|
  {
    if lookups == [] then []
    else
      var (ks, id) := lookups[|lookups| - 1];
      AsksFor(redis, lookups[..|lookups| - 1], existsUp) + [Ask(ks, id, Looked(redis, ks, id, existsUp))]
  }

  lemma AsksNext(
    findXs: map<string, State>, asked: seq<Ask>, redis: Redis, lookups: seq<(string, string)>, existsUp: bool, i: nat,
    ask: Ask)
    requires i < |lookups|
    requires ask == Ask(lookups[i].0, lookups[i].1, Looked(redis, lookups[i].0, lookups[i].1, existsUp))
    ensures var asks, next := AsksFor(redis, lookups[..i], existsUp), AsksFor(redis, lookups[..i + 1], existsUp);
            && asked + asks + [ask] == asked + next
            && TellAll(findXs, next) == Tell(TellAll(findXs, asks), ask)
  {
    assert lookups[..i + 1][..i] == lookups[..i];
    var asks := AsksFor(redis, lookups[..i], existsUp);
    assert (asks + [ask])[..|asks|] == asks;
    assert asked + asks + [ask] == asked + (asks + [ask]);
  }

  // ---- each FindX gets its own

  function Of(asks: seq<Ask>, ks: string): seq<Ask> {
    if asks == [] then []
    else Of(asks[..|asks| - 1], ks) + if asks[|asks| - 1].keyspace == ks then [asks[|asks| - 1]] else []
  }

  function ToldAll(s: State, asks: seq<Ask>): State {
    if asks == [] then s else Told(ToldAll(s, asks[..|asks| - 1]), asks[|asks| - 1])
  }

  /** After any asks, each FindX is what it was after exactly those that name its keyspace,
      in order. */
  lemma {:induction false} OwnAsks(findXs: map<string, State>, asks: seq<Ask>, ks: string)
    requires ks in findXs
    ensures TellAll(findXs, asks).Keys == findXs.Keys
    ensures TellAll(findXs, asks)[ks] == ToldAll(findXs[ks], Of(asks, ks))
  {
    if asks != [] {
      var before, ask := asks[..|asks| - 1], asks[|asks| - 1];
      OwnAsks(findXs, before, ks);
      if ask.keyspace == ks {
        assert Of(asks, ks)[..|Of(asks, ks)| - 1] == Of(before, ks);
      } else {
        assert Of(asks, ks) == Of(before, ks);
      }
    }
  }

  lemma {:induction false} TellJoin(findXs: map<string, State>, first: seq<Ask>, then_: seq<Ask>)
    ensures TellAll(findXs, first + then_) == TellAll(TellAll(findXs, first), then_)
  {
    if then_ == [] {
      assert first + then_ == first;
    } else {
      assert (first + then_)[..|first + then_| - 1] == first + then_[..|then_| - 1];
      TellJoin(findXs, first, then_[..|then_| - 1]);
    }
  }

  function Ids(asks: seq<Ask>): seq<string> {
    if asks == [] then [] else Ids(asks[..|asks| - 1]) + [asks[|asks| - 1].id]
  }

  /** Where all are to be added, telling a FindX is adding their ids one after the other. */
  lemma {:induction false} ToldAdds(s: State, asks: seq<Ask>)
    requires forall i :: 0 <= i < |asks| ==> asks[i].looked
    ensures ToldAll(s, asks) == AddAll(s, Ids(asks))
  {
    if asks != [] {
      ToldAdds(s, asks[..|asks| - 1]);
      assert Ids(asks)[..|Ids(asks)| - 1] == Ids(asks[..|asks| - 1]);
    }
  }

  function Refusals(asks: seq<Ask>): nat {
    if asks == [] then 0 else Refusals(asks[..|asks| - 1]) + if asks[|asks| - 1].looked then 0 else 1
  }

  lemma AskCounted(s: State, ask: Ask)
    requires s.enabled && !s.panicked
    ensures var t := Told(s, ask);
            && t.enabled && !t.panicked
            && t.metrics.addRej == s.metrics.addRej + (if ask.looked then 0 else 1)
            && t.attempts == s.attempts + (if ask.looked then 1 else 0)
            && t.metrics.addSuc + t.metrics.addFail ==
               s.metrics.addSuc + s.metrics.addFail + (if ask.looked then 1 else 0)
  {
  }

  /** A FindX that runs counts every ask once: a rejected one as a rejection, any other as
      an attempt, which succeeds or fails. */
  lemma {:induction false} AsksCounted(s: State, asks: seq<Ask>)
    requires s.enabled && !s.panicked
    ensures var t := ToldAll(s, asks);
            && t.enabled && !t.panicked
            && t.metrics.addRej == s.metrics.addRej + Refusals(asks)
            && t.attempts == s.attempts + |asks| - Refusals(asks)
            && t.metrics.addSuc + t.metrics.addFail ==
               s.metrics.addSuc + s.metrics.addFail + |asks| - Refusals(asks)
  {
    if asks != [] {
      AsksCounted(s, asks[..|asks| - 1]);
      AskCounted(ToldAll(s, asks[..|asks| - 1]), asks[|asks| - 1]);
    }
  }

  /** A missing id is to be rejected exactly in `pld`, where the look-up in `pa` fails or
      finds nothing. */
  predicate LookedFor(redis: Redis, ks: string, id: string, existsUp: bool) {
    ks != "pld" || (existsUp && "pa:{" + id + "}" in redis)
  }

  lemma {:induction false} AsksAre(redis: Redis, lookups: seq<(string, string)>, existsUp: bool, i: nat)
    requires i < |lookups|
    ensures var (ks, id) := lookups[i];
            AsksFor(redis, lookups, existsUp)[i] == Ask(ks, id, LookedFor(redis, ks, id, existsUp))
  {
    if i < |lookups| - 1 {
      AsksAre(redis, lookups[..|lookups| - 1], existsUp, i);
    } else {
      assert "pa" + ":{" == "pa:{";
    }
  }
}
