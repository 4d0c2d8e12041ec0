/** The lifetime a PUT asks Redis for. Durations are nanoseconds in 64 bits. */
module TTLs {
  import opened Prelude
  import opened MagicBytes

  const SECOND: int := 1_000_000_000
  const DEFAULT_GLOBAL_TTL: int := 168 * 3600 * SECOND
  const TTL_HEADER := "Xttl"

  /** The keyspaces' lifetimes; `atoi` and `parseDuration` are the library's parsers. */
  datatype Lifetimes = Lifetimes(
    atoi: string -> Option<int>,
    parseDuration: string -> Option<int>,
    keyspaces: map<string, int>)

  /** 64-bit wrap-around. */
  function Wrap(n: int): int {
    (n + 0x8000_0000_0000_0000) % 0x1_0000_0000_0000_0000 - 0x8000_0000_0000_0000
  }

  /** A text that is a number counts seconds; else one that is a duration is taken as it
      is; else the keyspace's lifetime holds, if positive. */
  function GetTTL(l: Lifetimes, text: string, configured: int): int {
    if text != "" && l.atoi(text).Some? then Wrap(l.atoi(text).value * SECOND)
    else if text != "" && l.parseDuration(text).Some? then l.parseDuration(text).value
    else if configured > 0 then configured
    else DEFAULT_GLOBAL_TTL
  }

  function TTLFor(l: Lifetimes, ks: string, headers: map<string, string>): int {
    GetTTL(l, HeaderGet(headers, TTL_HEADER), if ks in l.keyspaces then l.keyspaces[ks] else 0)
  }

  /** A number of seconds is honoured exactly up to about 292 years; beyond, the
      multiplication wraps around. */
  lemma SecondsHonouredIff(l: Lifetimes, text: string, configured: int)
    requires text != "" && l.atoi(text).Some?
    ensures GetTTL(l, text, configured) == l.atoi(text).value * SECOND
       <==> -9_223_372_036 <= l.atoi(text).value <= 9_223_372_036
  {
    var n := l.atoi(text).value * SECOND;
    assert Wrap(n) == n <==> -0x8000_0000_0000_0000 <= n < 0x8000_0000_0000_0000;
  }

  /** A lifetime that is not positive, which Redis takes for none, comes only from a text
      that parses; without one the keyspace's own holds wherever it is positive. */
  lemma PositiveUnlessAsked(l: Lifetimes, text: string, configured: int)
    ensures GetTTL(l, text, configured) <= 0 ==> text != "" && (l.atoi(text).Some? || l.parseDuration(text).Some?)
    ensures text == "" && configured > 0 ==> GetTTL(l, text, configured) == configured
  {
  }

  /** 9223372037 seconds come out as a negative lifetime. */
  lemma SecondsWrap(l: Lifetimes, text: string, configured: int)
    requires text != "" && l.atoi(text) == Some(9_223_372_037)
    ensures GetTTL(l, text, configured) < 0
  {
  }

  /** The lifetime of a PUT: the header `Xttl` in seconds, or as a duration; without one
      that parses the keyspace's own, or a week. */
  lemma LifetimeOf(l: Lifetimes, ks: string, headers: map<string, string>)
    ensures var ttl := TTLFor(l, ks, headers);
            var given := "Xttl" in headers && headers["Xttl"] != "";
            && (given && l.atoi(headers["Xttl"]).Some? && 0 <= l.atoi(headers["Xttl"]).value <= 9_223_372_036 ==>
                  ttl == l.atoi(headers["Xttl"]).value * 1_000_000_000)
            && (given && l.atoi(headers["Xttl"]).None? && l.parseDuration(headers["Xttl"]).Some? ==>
                  ttl == l.parseDuration(headers["Xttl"]).value)
            && (!given || (l.atoi(headers["Xttl"]).None? && l.parseDuration(headers["Xttl"]).None?) ==>
                  ttl == if ks in l.keyspaces && l.keyspaces[ks] > 0 then l.keyspaces[ks] else 604_800_000_000_000)
  {
  }
}
