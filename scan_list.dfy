/**
 * The watchlist helper (scripts/scan-list.js): cashtag extraction, the tweet score, the parser for
 * the relative timestamps shown on a timeline ("13s", "3m", "2h", "Feb 26"), and the handle-to-tier
 * lookup built from the KOL list.
 *
 * The clock and `Date` parsing are parameters; instants are integer milliseconds since the epoch.
 */
module ScanList {
  import opened Wrappers
  import opened Text

  const KEYWORDS: seq<string> := [
    "meme", "sol", "solana", "alpha", "rug", "degen", "runner", "moonshot", "gem", "pump", "dump",
    "narrative", "memecoin", "bullish", "bearish", "100x", "conviction", "accumulate"
  ]

  const MS_PER_HOUR: int := 3600000

  /** The largest distance from the epoch, in milliseconds, that a `Date` can hold. */
  const MAX_TIME: int := 8640000000000000

  // ---------------------------------------------------------------------------------------------
  // Cashtags

  /** The length of the run of uppercase ASCII letters that starts at `i`. */
  function UpperRun(s: string, i: nat): (n: nat)
    requires i <= |s|
    ensures i + n <= |s|
    ensures forall k :: i <= k < i + n ==> IsUpper(s[k])
    ensures i + n == |s| || !IsUpper(s[i + n])
    decreases |s| - i
  {
    if i < |s| && IsUpper(s[i]) then 1 + UpperRun(s, i + 1) else 0
  }

  /**
   * The regex `\$([A-Z]{2,10})\b` matches at `i`. The letter class is a subset of the word
   * characters, so backtracking cannot help: the whole run of capitals after the `$` must be 2 to 10
   * long and must not be followed by a word character.
   */
  predicate CashtagAt(s: string, i: nat) {
    && i < |s|
    && s[i] == '$'
    && var n := UpperRun(s, i + 1);
       2 <= n <= 10 && (i + 1 + n == |s| || !IsWordChar(s[i + 1 + n]))
  }

  /** The ticker captured by a match at `i`, without its `$`. */
  function TagAt(s: string, i: nat): string
    requires i < |s|
  {
    s[i + 1..i + 1 + UpperRun(s, i + 1)]
  }

  /** A ticker: 2 to 10 uppercase ASCII letters. */
  predicate IsTicker(t: string) {
    2 <= |t| <= 10 && forall k :: 0 <= k < |t| ==> IsUpper(t[k])
  }

  /** The global match from offset `i`: after a match the search resumes where the match ended. */
  function CashtagsFrom(s: string, i: nat): (tags: seq<string>)
    requires i <= |s|
    ensures forall k :: 0 <= k < |tags| ==> IsTicker(tags[k])
    decreases |s| - i
  {
    if i == |s| then []
    else if CashtagAt(s, i) then [TagAt(s, i)] + CashtagsFrom(s, i + 1 + UpperRun(s, i + 1))
    else CashtagsFrom(s, i + 1)
  }

  /** `extractCashtags`: the tickers of the `$` mentions, in order, each without its `$`. */
  function ExtractCashtags(text: string): (tags: seq<string>)
    ensures forall k :: 0 <= k < |tags| ==> IsTicker(tags[k])
  {
    CashtagsFrom(text, 0)
  }

  /** Reference reading: try every offset in turn. */
  function CashtagsAt(s: string, i: nat): seq<string>
    requires i <= |s|
    decreases |s| - i
  {
    if i == |s| then []
    else (if CashtagAt(s, i) then [TagAt(s, i)] else []) + CashtagsAt(s, i + 1)
  }

  /** Offsets without a `$` contribute nothing. */
  lemma {:induction false} CashtagsAtSkip(s: string, a: nat, b: nat)
    requires a <= b <= |s|
    requires forall k :: a <= k < b ==> s[k] != '$'
    ensures CashtagsAt(s, a) == CashtagsAt(s, b)
    decreases b - a
  {
    if a < b {
      CashtagsAtSkip(s, a + 1, b);
    }
  }

  /** Resuming after a match skips only capitals, where no match can start. */
  lemma {:induction false} CashtagsFromIsEveryOffset(s: string, i: nat)
    requires i <= |s|
    ensures CashtagsFrom(s, i) == CashtagsAt(s, i)
    decreases |s| - i
  {
    if i < |s| {
      assert CashtagsAt(s, i) == (if CashtagAt(s, i) then [TagAt(s, i)] else []) + CashtagsAt(s, i + 1);
      if CashtagAt(s, i) {
        var e := i + 1 + UpperRun(s, i + 1);
        assert CashtagsFrom(s, i) == [TagAt(s, i)] + CashtagsFrom(s, e);
        CashtagsFromIsEveryOffset(s, e);
        forall k | i + 1 <= k < e
          ensures s[k] != '$'
        {
          assert IsUpper(s[k]);
        }
        CashtagsAtSkip(s, i + 1, e);
      } else {
        assert CashtagsFrom(s, i) == CashtagsFrom(s, i + 1);
        CashtagsFromIsEveryOffset(s, i + 1);
      }
    }
  }

  lemma {:induction false} CashtagsAtMembers(s: string, i: nat)
    requires i <= |s|
    ensures forall t :: t in CashtagsAt(s, i) <==> exists j :: i <= j < |s| && CashtagAt(s, j) && TagAt(s, j) == t
    decreases |s| - i
  {
    if i < |s| {
      CashtagsAtMembers(s, i + 1);
    }
  }

  /** A ticker is extracted exactly when some `$` in the text starts a match that captures it. */
  lemma CashtagMembers(text: string, t: string)
    ensures t in ExtractCashtags(text) <==> exists j :: 0 <= j < |text| && CashtagAt(text, j) && TagAt(text, j) == t
  {
    CashtagsFromIsEveryOffset(text, 0);
    CashtagsAtMembers(text, 0);
  }

  /** Text without a `$` has no cashtags. */
  lemma NoDollarNoCashtags(text: string)
    requires '$' !in text
    ensures ExtractCashtags(text) == []
  {
    CashtagsFromIsEveryOffset(text, 0);
    CashtagsAtSkip(text, 0, |text|);
  }

  /** One match per `$` that starts one: the count is the number of matching offsets. */
  lemma CashtagCount(text: string)
    ensures |ExtractCashtags(text)| == |set j | 0 <= j < |text| && CashtagAt(text, j)|
  {
    var p := (j: nat) => CashtagAt(text, j);
    CashtagsFromIsEveryOffset(text, 0);
    CountFrom(text, 0, p);
    assert (set j: nat | 0 <= j < |text| && p(j)) == set j | 0 <= j < |text| && CashtagAt(text, j);
  }

  /** `p` stands for `CashtagAt(s, _)`, so that counting the offsets does not unfold the match. */
  lemma {:induction false} CountFrom(s: string, i: nat, p: nat -> bool)
    requires i <= |s|
    requires forall j: nat :: p(j) == CashtagAt(s, j)
    ensures |CashtagsAt(s, i)| == |set j: nat | i <= j < |s| && p(j)|
    decreases |s| - i
  {
    if i < |s| {
      CountFrom(s, i + 1, p);
      OffsetsStep(p, i, |s|);
      assert |CashtagsAt(s, i)| == |CashtagsAt(s, i + 1)| + if CashtagAt(s, i) then 1 else 0;
    }
  }

  /** The offsets from `i` on that satisfy `p` are those from `i + 1` on, and `i` itself when it does. */
  lemma OffsetsStep(p: nat -> bool, i: nat, n: nat)
    requires i < n
    ensures |set j: nat | i <= j < n && p(j)| == |set j: nat | i + 1 <= j < n && p(j)| + if p(i) then 1 else 0
  {
    var all := set j: nat | i <= j < n && p(j);
    var rest := set j: nat | i + 1 <= j < n && p(j);
    if p(i) {
      assert all == {i} + rest && i !in rest;
    } else {
      assert all == rest;
    }
  }

  // ---------------------------------------------------------------------------------------------
  // Scoring

  /** `Math.max(0, 10 - ageHours)`: up to 10 points for freshness, none after ten hours. */
  function Recency(ageHours: real): real {
    if 10.0 - ageHours > 0.0 then 10.0 - ageHours else 0.0
  }

  /** The score of a tweet with a valid timestamp. */
  function TweetScore(text: string, tier: Option<int>, published: int, now: int): real {
    var ageHours := (now - published) as real / MS_PER_HOUR as real;
    Recency(ageHours)
      + 2.0 * (KeywordHits(Lower(text), KEYWORDS) as real)
      + 3.0 * (|ExtractCashtags(text)| as real)
      + (if tier == Some(1) then 2.0 else 0.0)
  }

  /**
   * `scoretweet`. An unparseable `publishedAt` makes the age NaN, and NaN then survives every
   * addition: `None` stands for that NaN. `tier` is `None` when the account has no numeric tier.
   */
  method ScoreTweet(text: string, tier: Option<int>, publishedAt: string, now: int, parseDate: string -> Option<int>)
    returns (score: Option<real>)
    ensures score.None? <==> parseDate(publishedAt).None?
    ensures score.Some? ==> score.value == TweetScore(text, tier, parseDate(publishedAt).value, now)
  {
    var published := parseDate(publishedAt);
    if published.None? {
      return None;
    }
    var ageHours := (now - published.value) as real / MS_PER_HOUR as real;
    var s := if 10.0 - ageHours > 0.0 then 10.0 - ageHours else 0.0;
    var lower := Lower(text);
    for k := 0 to |KEYWORDS|
      invariant s == Recency(ageHours) + 2.0 * (KeywordHits(lower, KEYWORDS[..k]) as real)
    {
      assert KEYWORDS[..k + 1][..k] == KEYWORDS[..k];
      if Contains(lower, KEYWORDS[k]) {
        s := s + 2.0;
      }
    }
    assert KEYWORDS[..|KEYWORDS|] == KEYWORDS;
    var cashtags := ExtractCashtags(text);
    s := s + (|cashtags| as real) * 3.0;
    if tier == Some(1) {
      s := s + 2.0;
    }
    score := Some(s);
  }

  /** The points that do not depend on age. */
  function ContentPoints(text: string, tier: Option<int>): real {
    2.0 * (KeywordHits(Lower(text), KEYWORDS) as real)
      + 3.0 * (|ExtractCashtags(text)| as real)
      + (if tier == Some(1) then 2.0 else 0.0)
  }

  /** Scores are never negative, and never below the content points. */
  lemma ScoreAtLeastContent(text: string, tier: Option<int>, published: int, now: int)
    ensures TweetScore(text, tier, published, now) >= ContentPoints(text, tier) >= 0.0
  {
  }

  /** After ten hours only the content counts. */
  lemma StaleTweetScore(text: string, tier: Option<int>, published: int, now: int)
    requires now - published >= 10 * MS_PER_HOUR
    ensures TweetScore(text, tier, published, now) == ContentPoints(text, tier)
  {
    assert (now - published) as real / MS_PER_HOUR as real >= 10.0;
  }

  /** A timestamp in the future is not clamped: its freshness exceeds the ten points of a new tweet. */
  lemma FutureTweetScore(text: string, tier: Option<int>, published: int, now: int)
    requires published > now
    ensures TweetScore(text, tier, published, now) > 10.0 + ContentPoints(text, tier)
  {
    assert (now - published) as real / MS_PER_HOUR as real < 0.0;
  }

  /** Of two tweets with the same text and tier, the newer scores at least as high. */
  lemma ScoreFavoursRecent(text: string, tier: Option<int>, older: int, newer: int, now: int)
    requires older <= newer
    ensures TweetScore(text, tier, older, now) <= TweetScore(text, tier, newer, now)
  {
    assert (now - older) as real / MS_PER_HOUR as real >= (now - newer) as real / MS_PER_HOUR as real;
  }

  /** Tier 1 adds 2 points; any other tier, or none, adds nothing. */
  lemma TierOneBonus(text: string, tier: Option<int>, published: int, now: int)
    ensures TweetScore(text, Some(1), published, now) == TweetScore(text, None, published, now) + 2.0
    ensures tier != Some(1) ==> TweetScore(text, tier, published, now) == TweetScore(text, None, published, now)
  {
  }

  /** Each distinct keyword adds 2 points, however often it occurs. */
  lemma KeywordPoints(text: string)
    ensures KeywordHits(Lower(text), KEYWORDS) == |Found(KEYWORDS, k => Contains(Lower(text), k))|
  {
    KeywordHitsDistinct(Lower(text), KEYWORDS);
  }

  // ---------------------------------------------------------------------------------------------
  // Relative timestamps

  /** `0x` or `0X` switches `parseInt` to hexadecimal. */
  predicate HexPrefixed(u: string) {
    |u| >= 2 && u[0] == '0' && (u[1] == 'x' || u[1] == 'X')
  }

  /** The value of the digits at the start of `u`; `None` when there are none. */
  function LeadingValue(u: string, radix: nat): (r: Option<nat>)
    ensures r.Some? <==> u != [] && DigitValue(u[0]) < radix
  {
    var digits := DigitPrefix(u, radix);
    if digits == [] then None else Some(ValueIn(digits, radix))
  }

  /** The digits after the sign: hexadecimal after `0x` or `0X`, decimal otherwise; `None` for NaN. */
  function Unsigned(u: string): Option<nat> {
    if HexPrefixed(u) then LeadingValue(u[2..], 16) else LeadingValue(u, 10)
  }

  /**
   * `parseInt(s)` without a radix: leading whitespace, an optional sign, then as many digits as
   * follow. `None` stands for NaN.
   */
  function ParseInt(s: string): (r: Option<int>)
  {
    var t := TrimStart(s);
    if t == [] then None
    else if t[0] == '-' then Signed(-1, Unsigned(t[1..]))
    else if t[0] == '+' then Signed(1, Unsigned(t[1..]))
    else Signed(1, Unsigned(t))
  }

  function Signed(sign: int, v: Option<nat>): Option<int> {
    match v
    case None => None
    case Some(k) => Some(sign * k)
  }

  /** Decimal digits followed by text that does not continue them read back as their value. */
  lemma UnsignedDecimal(d: string, rest: string)
    requires d != [] && forall i :: 0 <= i < |d| ==> IsDigit(d[i])
    requires rest == [] || (DigitValue(rest[0]) >= 10 && rest[0] != 'x' && rest[0] != 'X')
    ensures Unsigned(d + rest) == Some(ValueIn(d, 10))
  {
    var u := d + rest;
    assert !HexPrefixed(u) by {
      assert u[0] == d[0];
      if |u| >= 2 {
        assert u[1] == (if |d| >= 2 then d[1] else rest[0]);
      }
    }
    assert DigitPrefix(u, 10) == d by {
      forall i | 0 <= i < |d| ensures DigitValue(d[i]) < 10 {
        assert IsDigit(d[i]);
      }
      DigitPrefixOf(d, rest, 10);
    }
  }

  /** `parseInt` reads back a decimal numeral followed by a character other than a digit or `x`. */
  lemma ParseIntNumeral(n: nat, c: char)
    requires DigitValue(c) >= 10 && c != 'x' && c != 'X'
    ensures ParseInt(NatToString(n) + [c]) == Some(n)
  {
    var d := NatToString(n);
    var u := d + [c];
    assert u != [] && IsDigit(u[0]) by {
      assert u[0] == d[0];
    }
    assert Unsigned(u) == Some(n) by {
      UnsignedDecimal(d, [c]);
      DecimalRoundTrip(n);
    }
    ParseIntUnsigned(u);
  }

  /** Text that starts with a digit has no whitespace or sign to skip. */
  lemma ParseIntUnsigned(u: string)
    requires u != [] && IsDigit(u[0])
    ensures ParseInt(u) == Signed(1, Unsigned(u))
  {
    assert TrimStart(u) == u;
  }

  /** The value of `new Date(t).toISOString()`: the instant, or the `RangeError` it throws. */
  datatype Stamp = At(ms: int) | RangeError

  function ValidTime(t: int): Stamp {
    if -MAX_TIME <= t <= MAX_TIME then At(t) else RangeError
  }

  /** `new Date(now - parseInt(s) * unit)`: NaN and out-of-range instants throw. */
  function Ago(now: int, amount: Option<int>, unit: int): Stamp {
    match amount
    case None => RangeError
    case Some(k) => ValidTime(now - k * unit)
  }

  /** The last character of `s` is `c`. */
  predicate EndsWith(s: string, c: char) {
    s != [] && s[|s| - 1] == c
  }

  /** The milliseconds of each suffix. */
  function UnitMs(c: char): int {
    if c == 's' then 1000 else if c == 'm' then 60 * 1000 else 60 * 60 * 1000
  }

  /** `s` ends in one of the unit suffixes `s`, `m` or `h`. */
  predicate UnitSuffixed(s: string) {
    EndsWith(s, 's') || EndsWith(s, 'm') || EndsWith(s, 'h')
  }

  /**
   * `parseRelativeTime`: empty means now; a count ending in `s`, `m` or `h` is that long ago; anything
   * else is read as a date in 2026, and now when it is not one. Only the count branches can throw.
   */
  function ParseRelativeTime(timeStr: string, now: int, parseDate: string -> Option<int>): (r: Stamp)
    ensures timeStr == [] ==> r == At(now)
    ensures r.RangeError? ==> UnitSuffixed(Trim(timeStr))
    ensures timeStr != [] && UnitSuffixed(Trim(timeStr)) ==>
              var s := Trim(timeStr);
              r == Ago(now, ParseInt(s), UnitMs(s[|s| - 1]))
    ensures timeStr != [] && !UnitSuffixed(Trim(timeStr)) ==>
              var d := parseDate(Trim(timeStr) + " 2026");
              && (d.Some? && -MAX_TIME <= d.value <= MAX_TIME ==> r == At(d.value))
              && (d.None? || d.value < -MAX_TIME || MAX_TIME < d.value ==> r == At(now))
  {
    if timeStr == [] then At(now) else ParseTrimmed(Trim(timeStr), now, parseDate)
  }

  /** The branches of `parseRelativeTime` after trimming. */
  function ParseTrimmed(s: string, now: int, parseDate: string -> Option<int>): Stamp {
    if UnitSuffixed(s) then Ago(now, ParseInt(s), UnitMs(s[|s| - 1]))
    else
      match parseDate(s + " 2026")
      case Some(t) => if -MAX_TIME <= t <= MAX_TIME then At(t) else At(now)
      case None => At(now)
  }

  /**
   * "13s", "3m" and "2h" read back as that many units before now, which throws only when that
   * instant is out of range.
   */
  lemma RelativeRoundTrip(n: nat, c: char, now: int, parseDate: string -> Option<int>)
    requires c == 's' || c == 'm' || c == 'h'
    ensures ParseRelativeTime(NatToString(n) + [c], now, parseDate) == Ago(now, Some(n), UnitMs(c))
  {
    ParseIntNumeral(n, c);
    CountSuffix(NatToString(n), n, c, now, parseDate);
  }

  /** A count read by `parseInt` and a unit suffix give the instant that many units before now. */
  lemma CountSuffix(d: string, k: int, c: char, now: int, parseDate: string -> Option<int>)
    requires c == 's' || c == 'm' || c == 'h'
    requires d != [] && IsDigit(d[0]) && ParseInt(d + [c]) == Some(k)
    ensures ParseRelativeTime(d + [c], now, parseDate) == Ago(now, Some(k), UnitMs(c))
  {
    UnitCountTrimmed(d, c);
    CountBranch(d + [c], k, now, parseDate);
  }

  /** Digits and then a unit suffix have no whitespace to trim. */
  lemma UnitCountTrimmed(d: string, c: char)
    requires c == 's' || c == 'm' || c == 'h'
    requires d != [] && IsDigit(d[0])
    ensures IsTrimmed(d + [c]) && UnitSuffixed(d + [c]) && (d + [c])[|d|] == c
  {
    assert (d + [c])[0] == d[0];
  }

  /** The count branches of `parseRelativeTime` on an already trimmed string. */
  lemma CountBranch(s: string, k: int, now: int, parseDate: string -> Option<int>)
    requires IsTrimmed(s) && ParseInt(s) == Some(k)
    requires UnitSuffixed(s)
    ensures ParseRelativeTime(s, now, parseDate) == Ago(now, Some(k), UnitMs(s[|s| - 1]))
  {
  }

  /** A unit with no count before it, such as "m" alone, throws instead of falling back to now. */
  lemma BareUnitThrows(c: char, now: int, parseDate: string -> Option<int>)
    requires c == 's' || c == 'm' || c == 'h'
    ensures ParseRelativeTime([c], now, parseDate) == RangeError
  {
    assert Trim([c]) == [c];
    assert TrimStart([c]) == [c];
    assert DigitPrefix([c], 10) == [];
  }

  // ---------------------------------------------------------------------------------------------
  // Tier lookup

  /** An entry of kol-accounts.json; `tier` is `None` when it is missing or not a whole number. */
  datatype KolAccount = KolAccount(handle: string, tier: Option<int>)

  /** The lookup after the first `|accounts|` assignments. */
  function TierMapOf(accounts: seq<KolAccount>): map<string, Option<int>> {
    if accounts == [] then map[]
    else
      var last := accounts[|accounts| - 1];
      TierMapOf(accounts[..|accounts| - 1])[Lower(last.handle) := last.tier]
  }

  /** The loop that fills `tierMap`, keyed by lower-cased handle. */
  method BuildTierMap(accounts: seq<KolAccount>) returns (tierMap: map<string, Option<int>>)
    ensures tierMap == TierMapOf(accounts)
  {
    tierMap := map[];
    for i := 0 to |accounts|
      invariant tierMap == TierMapOf(accounts[..i])
    {
      assert accounts[..i + 1][..i] == accounts[..i];
      tierMap := tierMap[Lower(accounts[i].handle) := accounts[i].tier];
    }
    assert accounts[..|accounts|] == accounts;
  }

  /** The keys are the lower-cased handles of the accounts, and nothing else. */
  lemma {:induction false} TierMapKeys(accounts: seq<KolAccount>)
    ensures TierMapOf(accounts).Keys == set a | a in accounts :: Lower(a.handle)
  {
    if accounts != [] {
      var init := accounts[..|accounts| - 1];
      TierMapKeys(init);
      assert accounts == init + [accounts[|accounts| - 1]];
    }
  }

  /** The entry for a handle is the tier of the account that comes last among those with that handle. */
  lemma {:induction false} TierMapLastWins(accounts: seq<KolAccount>, i: nat)
    requires i < |accounts|
    requires forall j :: i < j < |accounts| ==> Lower(accounts[j].handle) != Lower(accounts[i].handle)
    ensures Lower(accounts[i].handle) in TierMapOf(accounts)
    ensures TierMapOf(accounts)[Lower(accounts[i].handle)] == accounts[i].tier
  {
    if i < |accounts| - 1 {
      var init := accounts[..|accounts| - 1];
      assert init[i] == accounts[i];
      forall j | i < j < |init|
        ensures Lower(init[j].handle) != Lower(init[i].handle)
      {
        assert init[j] == accounts[j];
      }
      TierMapLastWins(init, i);
    }
  }
}
