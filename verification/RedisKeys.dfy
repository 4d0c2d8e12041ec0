/** Redis key strings: construction, hash tags, and the re-parsing of `ct` keys. */
module RedisKeys {
  import opened Prelude

  /** `<keyspace>:{<id>}` */
  function RedisKey(ks: string, id: string): string {
    ks + ":{" + id + "}"
  }

  /** `<keyspace>:{<id>}_<epochHour>_<quarter>` */
  function RedisKeyCT(ks: string, id: string, epochHour: string, quarter: string): string {
    ks + ":{" + id + "}" + "_" + epochHour + "_" + quarter
  }

  // ---- injectivity

  /** No keyspace continues another one with `:{`. */
  ghost predicate Separated(keyspaces: set<string>) {
    forall k1, k2 :: k1 in keyspaces && k2 in keyspaces ==> !(k1 + ":{" <= k2)
  }

  ghost predicate KeysInjective(keyspaces: set<string>) {
    forall k1, k2, id1: string, id2: string ::
      k1 in keyspaces && k2 in keyspaces && RedisKey(k1, id1) == RedisKey(k2, id2) ==> k1 == k2 && id1 == id2
  }

  lemma KeySplitsAt(ks: string, id: string)
    ensures |RedisKey(ks, id)| == |ks| + |id| + 3
    ensures RedisKey(ks, id)[..|ks|] == ks
    ensures RedisKey(ks, id)[..|ks| + 2] == ks + ":{"
    ensures RedisKey(ks, id)[|ks| + 2..|ks| + 2 + |id|] == id
    ensures RedisKey(ks, id)[|ks|] == ':' && RedisKey(ks, id)[|ks| + 1] == '{'
  {
  }

  lemma ShorterPrefixes(k1: string, id1: string, k2: string, id2: string)
    requires RedisKey(k1, id1) == RedisKey(k2, id2) && |k1| < |k2|
    ensures k1 + ":{" <= k2
  {
    KeySplitsAt(k1, id1);
    KeySplitsAt(k2, id2);
    var key := RedisKey(k1, id1);
    assert key[|k1| + 1] == '{' && key[|k2|] == ':';
    assert |k2| >= |k1| + 2;
    assert key[..|k2|][..|k1| + 2] == key[..|k1| + 2];
  }

  lemma SameKey(k1: string, id1: string, k2: string, id2: string)
    requires RedisKey(k1, id1) == RedisKey(k2, id2)
    requires !(k1 + ":{" <= k2) && !(k2 + ":{" <= k1)
    ensures k1 == k2 && id1 == id2
  {
    if |k1| < |k2| {
      ShorterPrefixes(k1, id1, k2, id2);
    } else if |k2| < |k1| {
      ShorterPrefixes(k2, id2, k1, id1);
    } else {
      KeySplitsAt(k1, id1);
      KeySplitsAt(k2, id2);
    }
  }

  /** Keys of a set of keyspaces name their keyspace and id, over all ids, exactly
      when no keyspace of the set continues another with `:{`. */
  lemma InjectiveIffSeparated(keyspaces: set<string>)
    ensures KeysInjective(keyspaces) <==> Separated(keyspaces)
  {
    if Separated(keyspaces) {
      forall k1, k2, id1: string, id2: string
        | k1 in keyspaces && k2 in keyspaces && RedisKey(k1, id1) == RedisKey(k2, id2)
        ensures k1 == k2 && id1 == id2
      {
        SameKey(k1, id1, k2, id2);
      }
    } else {
      var k1, k2 :| k1 in keyspaces && k2 in keyspaces && k1 + ":{" <= k2;
      var rest := k2[|k1| + 2..];
      assert k2 == k1 + ":{" + rest;
      assert RedisKey(k2, "") == RedisKey(k1, rest + ":{");
      assert |k1| != |k2|;
    }
  }

  /** A `ct` key collides with some plain key exactly when its quarter ends in `}`. */
  lemma CTKeyCollides(ks: string, id: string, epochHour: string, quarter: string)
    ensures (exists k: string, i: string :: RedisKeyCT(ks, id, epochHour, quarter) == RedisKey(k, i))
       <==> (quarter != "" && quarter[|quarter| - 1] == '}')
  {
    var key := RedisKeyCT(ks, id, epochHour, quarter);
    if quarter != "" && quarter[|quarter| - 1] == '}' {
      var cut := quarter[..|quarter| - 1];
      assert quarter == cut + "}";
      assert key == RedisKey(ks, id + "}_" + epochHour + "_" + cut);
    }
    assert key[|key| - 1] == if quarter == "" then '_' else quarter[|quarter| - 1];
    forall k: string, i: string | key == RedisKey(k, i)
      ensures key[|key| - 1] == '}'
    {
      assert RedisKey(k, i)[|RedisKey(k, i)| - 1] == '}';
    }
  }

  // ---- hash tags

  /** The position of the first `c` at or after `from`, or the length. */
  function IndexFrom(s: string, c: char, from: nat): (i: nat)
    requires from <= |s|
    ensures from <= i <= |s|
    ensures c !in s[from..i]
    ensures i < |s| ==> s[i] == c
    decreases |s| - from
  {
    if from == |s| || s[from] == c then from else IndexFrom(s, c, from + 1)
  }

  lemma IndexFromIs(s: string, c: char, from: nat, i: nat)
    requires from <= i <= |s| && c !in s[from..i] && (i < |s| ==> s[i] == c)
    ensures IndexFrom(s, c, from) == i
    decreases i - from
  {
  }

  /** The part of a key Redis Cluster hashes: what stands between the first `{` and
      the first `}` after it, unless that is empty or one of them is missing. */
  function HashTag(key: string): string {
    var open := IndexFrom(key, '{', 0);
    if open == |key| then key
    else
      var close := IndexFrom(key, '}', open + 1);
      if close == |key| || close == open + 1 then key else key[open + 1..close]
  }

  /** An id up to its first `}`. */
  function TagOf(id: string): string {
    id[..IndexFrom(id, '}', 0)]
  }

  predicate Taggable(id: string) {
    id != "" && id[0] != '}'
  }

  /** The tag of any key of the form `<ks>:{<id>}<tail>`. */
  lemma TagOfKey(ks: string, id: string, tail: string)
    requires '{' !in ks
    ensures HashTag(RedisKey(ks, id) + tail) == if Taggable(id) then TagOf(id) else RedisKey(ks, id) + tail
  {
    var key := RedisKey(ks, id) + tail;
    KeySplitsAt(ks, id);
    assert key[..|ks| + 1] == ks + ":";
    IndexFromIs(key, '{', 0, |ks| + 1);
    var start := |ks| + 2;
    var n := IndexFrom(id, '}', 0);
    assert key[start..start + |id|] == id;
    assert key[start..start + n] == id[..n];
    assert key[start + |id|] == '}';
    assert n < |id| ==> key[start + n] == id[n];
    IndexFromIs(key, '}', start, start + n);
  }

  lemma TagOfPlainKey(ks: string, id: string)
    requires '{' !in ks
    ensures HashTag(RedisKey(ks, id)) == if Taggable(id) then TagOf(id) else RedisKey(ks, id)
  {
    TagOfKey(ks, id, "");
    assert RedisKey(ks, id) + "" == RedisKey(ks, id);
  }

  lemma TagOfCTKey(ks: string, id: string, epochHour: string, quarter: string)
    requires '{' !in ks
    ensures Taggable(id) ==> HashTag(RedisKeyCT(ks, id, epochHour, quarter)) == TagOf(id)
  {
    var tail := "_" + epochHour + "_" + quarter;
    TagOfKey(ks, id, tail);
    assert RedisKey(ks, id) + tail == RedisKeyCT(ks, id, epochHour, quarter);
  }

  /** All keys built for one id share a hash tag, plain or `ct`, whatever the
      keyspaces, exactly when the id is not empty and does not begin with `}`. */
  lemma SameHashTag(k1: string, k2: string, id: string, epochHour: string, quarter: string)
    requires '{' !in k1 && '{' !in k2
    ensures Taggable(id) ==>
              HashTag(RedisKey(k1, id)) == HashTag(RedisKey(k2, id))
              == HashTag(RedisKeyCT(k2, id, epochHour, quarter)) == TagOf(id)
    ensures HashTag(RedisKey(k1, id)) == HashTag(RedisKey(k2, id)) <==> k1 == k2 || Taggable(id)
  {
    TagOfPlainKey(k1, id);
    TagOfPlainKey(k2, id);
    TagOfCTKey(k2, id, epochHour, quarter);
    KeySplitsAt(k1, id);
    KeySplitsAt(k2, id);
  }

  // ---- splitting

  /** `strings.Split` on a one-character separator. */
  function Split(s: string, sep: char): (parts: seq<string>)
    ensures |parts| == Count(s, sep) + 1
    ensures Join(parts, sep) == s
  {
    if s == "" then [""]
    else
      var rest := Split(s[1..], sep);
      if s[0] == sep then [""] + rest
      else [[s[0]] + rest[0]] + rest[1..]
  }

  function Count(s: string, c: char): nat {
    if s == "" then 0 else (if s[0] == c then 1 else 0) + Count(s[1..], c)
  }

  function Join(parts: seq<string>, sep: char): string
    requires parts != []
  {
    if |parts| == 1 then parts[0] else parts[0] + [sep] + Join(parts[1..], sep)
  }

  lemma {:induction false} CountAppend(s: string, t: string, c: char)
    ensures Count(s + t, c) == Count(s, c) + Count(t, c)
  {
    if s == "" {
      assert s + t == t;
    } else {
      assert (s + t)[1..] == s[1..] + t;
      CountAppend(s[1..], t, c);
    }
  }

  lemma {:induction false} CountZero(s: string, c: char)
    ensures Count(s, c) == 0 <==> c !in s
  {
    if s != "" {
      CountZero(s[1..], c);
    }
  }

  lemma {:induction false} SplitFirst(s: string, t: string, sep: char)
    requires sep !in s
    ensures Split(s + [sep] + t, sep) == [s] + Split(t, sep)
  {
    if s == "" {
      assert s + [sep] + t == [sep] + t;
      assert ([sep] + t)[1..] == t;
    } else {
      SplitFirst(s[1..], t, sep);
      assert (s + [sep] + t)[1..] == s[1..] + [sep] + t;
      assert [s[0]] + s[1..] == s;
    }
  }

  lemma SplitNone(s: string, sep: char)
    requires sep !in s
    ensures Split(s, sep) == [s]
  {
  }

  /** The Namespace a multi-GET rebuilds from a `ct` key, if the key has three parts. */
  function CTNamespace(ks: string, key: string): Option<string> {
    var parts := Split(key, '_');
    if |parts| != 3 then None else Some(ks + "_" + parts[1] + "_" + parts[2])
  }

  /** A `ct` key yields a Namespace exactly when id, hour and quarter have no
      underscore, and then it is `ct_<hour>_<quarter>`. */
  lemma CTNamespaceOfKey(id: string, epochHour: string, quarter: string)
    ensures var ns := CTNamespace("ct", RedisKeyCT("ct", id, epochHour, quarter));
            if '_' !in id && '_' !in epochHour && '_' !in quarter
            then ns == Some("ct" + "_" + epochHour + "_" + quarter)
            else ns == None
  {
    var head := "ct:{" + id + "}";
    var key := RedisKeyCT("ct", id, epochHour, quarter);
    assert key == head + "_" + (epochHour + "_" + quarter);
    CountZero(id, '_');
    CountZero(epochHour, '_');
    CountZero(quarter, '_');
    assert Count(key, '_') == 2 + Count(id, '_') + Count(epochHour, '_') + Count(quarter, '_') by {
      CountAppend(head + "_", epochHour + "_" + quarter, '_');
      CountAppend(epochHour + "_", quarter, '_');
      CountAppend(epochHour, "_", '_');
      CountAppend(head, "_", '_');
      CountAppend("ct:{" + id, "}", '_');
      CountAppend("ct:{", id, '_');
      CountZero("ct:{", '_');
      CountZero("}", '_');
    }
    if '_' !in id && '_' !in epochHour && '_' !in quarter {
      assert "ct" + ":{" == "ct:{";
      SplitFirst(head, epochHour + "_" + quarter, '_');
      SplitFirst(epochHour, quarter, '_');
      SplitNone(quarter, '_');
    }
  }
}
