/**
 * The draft publisher (scripts/publish.js): the command line, the slug of the draft, the
 * timestamp with a fixed UTC offset, the author handle taken from the post URL, and the append
 * of the draft to the article list.
 *
 * The clock is the parameter `now` (milliseconds since the epoch); the UTC calendar fields of an
 * instant are the parameter `civil`; `new URL(...)` is the parameter `urlPath`, the pathname of a
 * URL or `None` when it does not parse; the parsed `articles.json` is an input, `None` when it is
 * not valid JSON.
 */
module Publish {
  import opened Wrappers
  import opened Text
  import opened Seqs
  import opened Json

  // ---------------------------------------------------------------------------------------------
  // The command line

  /** The options by name, and the other arguments in order. */
  datatype Args = Args(opts: map<string, string>, positional: seq<string>)

  /** `arg && arg.startsWith('--')`. */
  predicate IsFlag(arg: string) {
    "--" <= arg
  }

  /** A next argument that is taken as the flag's value: present, non-empty, not a flag. */
  predicate IsValue(arg: string) {
    arg != [] && !IsFlag(arg)
  }

  /** The arguments of `a` followed by those of `b`; an option of `b` overrides one of `a`. */
  function Then(a: Args, b: Args): Args {
    Args(a.opts + b.opts, a.positional + b.positional)
  }

  /** How many arguments the first argument of `args` takes up: a flag and its value, or one. */
  function Taken(args: seq<string>): nat
    requires args != []
  {
    if IsFlag(args[0]) && |args| > 1 && IsValue(args[1]) then 2 else 1
  }

  /** What the first argument of `args` (and its value) contributes. */
  function First(args: seq<string>): Args
    requires args != []
  {
    if !IsFlag(args[0]) then Args(map[], [args[0]])
    else if Taken(args) == 2 then Args(map[args[0][2..] := args[1]], [])
    else Args(map[args[0][2..] := ""], [])
  }

  /**
   * What `parseArgs` gives for `args`: a flag takes the next argument as its value when that is
   * a value, and the empty string otherwise; every other argument is positional.
   */
  function Parse(args: seq<string>): Args
    decreases |args|
  {
    if args == [] then Args(map[], [])
    else Then(First(args), Parse(args[Taken(args)..]))
  }

  /** `parseArgs`: the index loop that skips a consumed value. */
  method ParseArgs(args: seq<string>) returns (opts: map<string, string>, positional: seq<string>)
    ensures Args(opts, positional) == Parse(args)
  {
    opts, positional := map[], [];
    var i := 0;
    while i < |args|
      invariant 0 <= i <= |args|
      invariant Parse(args) == Then(Args(opts, positional), Parse(args[i..]))
    {
      ghost var before, start := Args(opts, positional), i;
      opts, positional, i := ParseNext(args, i, opts, positional);
      ParseLoopStep(args, start, before, Args(opts, positional), i);
    }
    assert opts + map[] == opts;
  }

  /** The body of the loop: one argument, or a flag and the value it consumes. */
  method ParseNext(args: seq<string>, i: nat, opts: map<string, string>, positional: seq<string>)
    returns (opts': map<string, string>, positional': seq<string>, i': nat)
    requires i < |args|
    ensures Args(opts', positional') == Then(Args(opts, positional), First(args[i..]))
    ensures i' == i + Taken(args[i..])
  {
    ghost var rest := args[i..];
    var arg := args[i];
    assert rest[0] == arg;
    opts', positional', i' := opts, positional, i;
    if IsFlag(arg) {
      var key := arg[2..];
      if i + 1 < |args| && IsValue(args[i + 1]) {
        assert rest[1] == args[i + 1];
        UpdateIsMerge(opts, key, args[i + 1]);
        opts' := opts[key := args[i + 1]];
        i' := i' + 1;
      } else {
        UpdateIsMerge(opts, key, "");
        opts' := opts[key := ""];
      }
    } else {
      positional' := positional + [arg];
    }
    i' := i' + 1;
  }

  /** One turn of the loop keeps its invariant. */
  lemma ParseLoopStep(args: seq<string>, start: nat, before: Args, after: Args, i: nat)
    requires start < |args| && i == start + Taken(args[start..])
    requires after == Then(before, First(args[start..]))
    requires Parse(args) == Then(before, Parse(args[start..]))
    ensures i <= |args| && Parse(args) == Then(after, Parse(args[i..]))
  {
    var rest := args[start..];
    assert args[i..] == rest[Taken(rest)..];
    ThenAssoc(before, First(rest), Parse(args[i..]));
  }

  /** Setting one key is merging a one-entry map. */
  lemma UpdateIsMerge(m: map<string, string>, k: string, v: string)
    ensures m[k := v] == m + map[k := v]
  {
  }

  lemma ThenAssoc(a: Args, b: Args, c: Args)
    ensures Then(Then(a, b), c) == Then(a, Then(b, c))
  {
    assert (a.opts + b.opts) + c.opts == a.opts + (b.opts + c.opts);
  }

  /** The names of the flags in `args`: each flag without its leading `--`. */
  function FlagKeys(args: seq<string>): set<string> {
    set a | a in args && IsFlag(a) :: a[2..]
  }

  lemma FlagKeysAppend(a: seq<string>, b: seq<string>)
    ensures FlagKeys(a + b) == FlagKeys(a) + FlagKeys(b)
  {
    assert forall x :: x in a + b <==> x in a || x in b;
  }

  /** Every flag becomes an option, and nothing else does: a value is never read as a flag. */
  lemma {:induction false} OptionKeys(args: seq<string>)
    ensures Parse(args).opts.Keys == FlagKeys(args)
    decreases |args|
  {
    if args != [] {
      var t := Taken(args);
      var rest := args[t..];
      OptionKeys(rest);
      assert args == args[..t] + rest;
      FlagKeysAppend(args[..t], rest);
      if t == 2 {
        assert args[..t] == [args[0], args[1]];
      } else {
        assert args[..t] == [args[0]];
      }
    }
  }

  /** An option is empty, or a value that followed its flag. */
  lemma {:induction false} OptionValues(args: seq<string>)
    ensures forall k :: k in Parse(args).opts ==> Parse(args).opts[k] == "" || (IsValue(Parse(args).opts[k]) && Parse(args).opts[k] in args)
    decreases |args|
  {
    if args != [] {
      var rest := args[Taken(args)..];
      OptionValues(rest);
      assert forall x :: x in rest ==> x in args;
    }
  }

  /** Each positional argument is a given argument that is not a flag, and there are no more of them than arguments. */
  lemma {:induction false} PositionalArgs(args: seq<string>)
    ensures forall p :: p in Parse(args).positional ==> p in args && !IsFlag(p)
    ensures |Parse(args).positional| <= |args|
    decreases |args|
  {
    if args != [] {
      var rest := args[Taken(args)..];
      PositionalArgs(rest);
      assert forall x :: x in rest ==> x in args;
    }
  }

  /**
   * A flag takes the next argument as its value when that is non-empty and not a flag itself;
   * otherwise the option is empty and the next argument is read afresh.
   */
  lemma ParseFlag(k: string, v: string, rest: seq<string>)
    ensures IsValue(v) ==> Parse(["--" + k, v] + rest) == Then(Args(map[k := v], []), Parse(rest))
    ensures rest == [] || !IsValue(rest[0]) ==> Parse(["--" + k] + rest) == Then(Args(map[k := ""], []), Parse(rest))
  {
    assert ("--" + k)[2..] == k;
    assert (["--" + k, v] + rest)[2..] == rest;
    assert (["--" + k] + rest)[1..] == rest;
  }

  /** Leading arguments that are not flags are the first positional arguments, in order. */
  lemma {:induction false} ParsePlainPrefix(xs: seq<string>, ys: seq<string>)
    requires forall a :: a in xs ==> !IsFlag(a)
    ensures Parse(xs + ys) == Then(Args(map[], xs), Parse(ys))
  {
    if xs == [] {
      assert xs + ys == ys;
      var none: map<string, string> := map[];
      assert none + Parse(ys).opts == Parse(ys).opts;
    } else {
      assert (xs + ys)[0] == xs[0] && (xs + ys)[1..] == xs[1..] + ys;
      assert forall a :: a in xs[1..] ==> a in xs;
      ParsePlainPrefix(xs[1..], ys);
      ThenAssoc(Args(map[], [xs[0]]), Args(map[], xs[1..]), Parse(ys));
      var none: map<string, string> := map[];
      assert none + none == none;
      assert [xs[0]] + xs[1..] == xs;
    }
  }

  /** Without flags every argument is positional and there are no options. */
  lemma NoFlags(args: seq<string>)
    requires forall a :: a in args ==> !IsFlag(a)
    ensures Parse(args) == Args(map[], args)
  {
    var none: map<string, string> := map[];
    assert args + [] == args;
    ParsePlainPrefix(args, []);
    assert Parse([]) == Args(none, []);
    assert none + none == none;
  }

  // ---------------------------------------------------------------------------------------------
  // Slugs and handles

  /**
   * `kebab`: lower-case, drop `@`, turn each run of characters outside `[a-z0-9]` into one
   * hyphen, drop a hyphen at either end, and collapse runs of hyphens.
   */
  function Kebab(s: string): string {
    var lowered := Filter(Lower(s), (c: char) => c != '@');
    var hyphenated := CollapseRuns(lowered, IsNotLowerAlnum, '-');
    CollapseRuns(StripEdgeHyphens(hyphenated), IsHyphen, '-')
  }

  /** The result is `[a-z0-9-]` only, without `--`, without a hyphen at either end, and so without `@`. */
  lemma KebabIsSlug(s: string)
    ensures IsSlug(Kebab(s))
    ensures '@' !in Kebab(s)
  {
    var lowered := Filter(Lower(s), (c: char) => c != '@');
    var hyphenated := CollapseRuns(lowered, IsNotLowerAlnum, '-');
    CollapseRunsShape(lowered, IsNotLowerAlnum, '-');
    assert forall i :: 0 <= i < |hyphenated| ==> IsLowerAlnum(hyphenated[i]) || hyphenated[i] == '-' by {
      forall i | 0 <= i < |hyphenated|
        ensures IsLowerAlnum(hyphenated[i]) || hyphenated[i] == '-'
      {
        assert hyphenated[i] in hyphenated;
      }
    }
    NoAdjacentHyphens(hyphenated);
    StripEdgeHyphensIsSlug(hyphenated);
    var slug := StripEdgeHyphens(hyphenated);
    CollapseRunsSingles(slug, IsHyphen, '-');
    SlugHasNoAt(slug);
  }

  lemma NoAdjacentHyphens(s: string)
    requires forall i :: 0 <= i < |s| ==> IsLowerAlnum(s[i]) || s[i] == '-'
    requires NoAdjacent(s, IsNotLowerAlnum)
    ensures NoAdjacent(s, IsHyphen)
  {
  }

  lemma SlugHasNoAt(s: string)
    requires IsSlug(s)
    ensures '@' !in s
  {
    forall i | 0 <= i < |s|
      ensures s[i] != '@'
    {
    }
  }

  /** Every letter and digit survives: a character of `[a-z0-9]` in the lower-cased text is in the result. */
  lemma KebabKeeps(s: string, c: char)
    requires IsLowerAlnum(c) && c in Lower(s)
    ensures c in Kebab(s)
  {
    var lowered := Filter(Lower(s), (c: char) => c != '@');
    var hyphenated := CollapseRuns(lowered, IsNotLowerAlnum, '-');
    CollapseRunsKeeps(lowered, IsNotLowerAlnum, '-', c);
    StripKeeps(hyphenated, c);
    CollapseRunsKeeps(StripEdgeHyphens(hyphenated), IsHyphen, '-', c);
  }

  lemma StripKeeps(s: string, c: char)
    requires c in s && c != '-'
    ensures c in StripEdgeHyphens(s)
  {
    var a := if s != [] && s[0] == '-' then s[1..] else s;
    assert c in a;
    if a != [] && a[|a| - 1] == '-' {
      var i :| 0 <= i < |a| && a[i] == c;
      assert a[..|a| - 1][i] == c;
    }
  }

  /** A slug is its own kebab form, so `kebab` is idempotent. */
  lemma KebabOfSlug(s: string)
    requires IsSlug(s)
    ensures Kebab(s) == s
  {
    LowerOfLowercase(s);
    SlugHasNoAt(s);
    FilterAll(s, (c: char) => c != '@');
    assert Filter(Lower(s), (c: char) => c != '@') == s;
    SlugRunsSingle(s);
    assert StripEdgeHyphens(s) == s;
    CollapseRunsSingles(s, IsHyphen, '-');
  }

  /** In a slug the characters outside `[a-z0-9]` are single hyphens. */
  lemma SlugRunsSingle(s: string)
    requires IsSlug(s)
    ensures CollapseRuns(s, IsNotLowerAlnum, '-') == s
  {
    assert forall i :: 0 <= i < |s| ==> IsNotLowerAlnum(s[i]) ==> s[i] == '-';
    assert NoAdjacent(s, IsNotLowerAlnum) by {
      forall i | 0 <= i < |s| - 1
        ensures !(IsNotLowerAlnum(s[i]) && IsNotLowerAlnum(s[i + 1]))
      {
        assert !(IsHyphen(s[i]) && IsHyphen(s[i + 1]));
      }
    }
    CollapseRunsSingles(s, IsNotLowerAlnum, '-');
  }

  lemma KebabIdempotent(s: string)
    ensures Kebab(Kebab(s)) == Kebab(s)
  {
    KebabIsSlug(s);
    KebabOfSlug(Kebab(s));
  }

  /** `ensureHandle`: `@unknown` for an empty handle, otherwise the handle with one leading `@`. */
  function EnsureHandle(handle: string): string {
    if handle == [] then "@unknown"
    else if "@" <= handle then handle
    else "@" + handle
  }

  /** The handle starts with `@`, and what follows is the given handle without its `@`. */
  lemma EnsureHandleShape(handle: string)
    ensures var r := EnsureHandle(handle);
            && r != [] && r[0] == '@'
            && (handle != [] ==> r[1..] == if handle[0] == '@' then handle[1..] else handle)
  {
  }

  lemma EnsureHandleIdempotent(handle: string)
    ensures EnsureHandle(EnsureHandle(handle)) == EnsureHandle(handle)
  {
    EnsureHandleShape(handle);
  }

  // ---------------------------------------------------------------------------------------------
  // The post URL

  /** `s.split(d)`: the pieces between the separators, empty ones included. */
  function Split(s: string, d: char): (r: seq<string>)
    ensures |r| >= 1
    ensures forall k :: 0 <= k < |r| ==> d !in r[k]
  {
    if s == [] then [[]]
    else
      var rest := Split(s[1..], d);
      if s[0] == d then [[]] + rest else [[s[0]] + rest[0]] + rest[1..]
  }

  /** `pieces.join(d)`. */
  function JoinWith(pieces: seq<string>, d: char): string
    requires |pieces| >= 1
  {
    if |pieces| == 1 then pieces[0] else pieces[0] + [d] + JoinWith(pieces[1..], d)
  }

  /** Joining the pieces gives the text back. */
  lemma {:induction false} SplitJoin(s: string, d: char)
    ensures JoinWith(Split(s, d), d) == s
  {
    if s != [] {
      SplitJoin(s[1..], d);
      var rest := Split(s[1..], d);
      if s[0] != d {
        if |rest| > 1 {
          assert ([s[0]] + rest[0]) + [d] + JoinWith(rest[1..], d) == [s[0]] + (rest[0] + [d] + JoinWith(rest[1..], d));
        }
        assert s == [s[0]] + s[1..];
      } else {
        assert s == [d] + s[1..];
      }
    }
  }

  /** Text without the separator is one piece. */
  lemma {:induction false} SplitNone(s: string, d: char)
    requires d !in s
    ensures Split(s, d) == [s]
  {
    if s != [] {
      SplitNone(s[1..], d);
      assert s == [s[0]] + s[1..];
    }
  }

  /** A piece without the separator, then the separator, then the rest. */
  lemma {:induction false} SplitAt(a: string, d: char, b: string)
    requires d !in a
    ensures Split(a + [d] + b, d) == [a] + Split(b, d)
  {
    if a == [] {
      assert a + [d] + b == [d] + b;
      assert ([d] + b)[1..] == b;
    } else {
      assert (a + [d] + b)[1..] == a[1..] + [d] + b;
      SplitAt(a[1..], d, b);
      assert a == [a[0]] + a[1..];
    }
  }

  /** The first index of `x` in `xs`, or -1: `indexOf`. */
  function IndexOf(xs: seq<string>, x: string): (k: int)
    ensures -1 <= k < |xs|
    ensures k >= 0 ==> xs[k] == x && x !in xs[..k]
    ensures k == -1 <==> x !in xs
  {
    if xs == [] then -1
    else if xs[0] == x then 0
    else
      var k := IndexOf(xs[1..], x);
      assert xs[1..] == xs[1..];
      if k == -1 then -1 else (assert xs[..k + 1] == [xs[0]] + xs[1..][..k]; k + 1)
  }

  /** The handle with its `@`, and the status id; `None` is `undefined`, when `status` is last. */
  datatype TweetInfo = TweetInfo(handle: string, statusId: Option<string>)

  /** The non-empty path segments: `pathname.split('/').filter(Boolean)`. */
  function Segments(path: string): seq<string> {
    Filter(Split(path, '/'), NonEmpty)
  }

  /** `Boolean` of a string. */
  predicate NonEmpty(p: string) { p != [] }

  /** `extractTweetInfo`: both fields empty when the URL does not parse. */
  function ExtractTweetInfo(url: string, urlPath: string -> Option<string>): TweetInfo {
    match urlPath(url)
    case None => TweetInfo("", Some(""))
    case Some(path) =>
      var parts := Segments(path);
      var handle := if parts == [] then "" else parts[0];
      var k := IndexOf(parts, "status");
      var statusId := if k < 0 then Some("") else if k + 1 < |parts| then Some(parts[k + 1]) else None;
      TweetInfo(if handle != [] then "@" + handle else "", statusId)
  }

  /**
   * The handle is `@` and the first non-empty path segment, and empty when the URL does not parse
   * or its path has no segment; the segment after `@` never holds a `/`.
   */
  lemma HandleShape(url: string, urlPath: string -> Option<string>)
    ensures ExtractTweetInfo(url, urlPath).handle ==
              if urlPath(url).Some? && Segments(urlPath(url).value) != []
              then "@" + Segments(urlPath(url).value)[0] else ""
    ensures var h := ExtractTweetInfo(url, urlPath).handle;
            h != [] ==> |h| >= 2 && '/' !in h[1..]
  {
    if urlPath(url).Some? && Segments(urlPath(url).value) != [] {
      var parts := Segments(urlPath(url).value);
      assert parts[0] in Split(urlPath(url).value, '/');
    }
  }

  /**
   * The status id is the segment after the first `status` segment; `undefined` (`None`) when that
   * `status` is the last segment, and `''` when there is no `status` segment or the URL does not parse.
   */
  lemma StatusIdRule(url: string, urlPath: string -> Option<string>)
    ensures urlPath(url).None? ==> ExtractTweetInfo(url, urlPath) == TweetInfo("", Some(""))
    ensures urlPath(url).Some? && "status" !in Segments(urlPath(url).value) ==>
              ExtractTweetInfo(url, urlPath).statusId == Some("")
    ensures urlPath(url).Some? ==>
              var parts := Segments(urlPath(url).value);
              forall k :: 0 <= k < |parts| && parts[k] == "status" && "status" !in parts[..k] ==>
                ExtractTweetInfo(url, urlPath).statusId == (if k + 1 < |parts| then Some(parts[k + 1]) else None)
  {
    if urlPath(url).Some? {
      var parts := Segments(urlPath(url).value);
      forall k | 0 <= k < |parts| && parts[k] == "status" && "status" !in parts[..k]
        ensures IndexOf(parts, "status") == k
      {
        IndexOfFirst(parts, "status", k);
      }
    }
  }

  /** `indexOf` finds the first occurrence. */
  lemma IndexOfFirst(xs: seq<string>, x: string, k: nat)
    requires k < |xs| && xs[k] == x && x !in xs[..k]
    ensures IndexOf(xs, x) == k
  {
  }

  /** A post URL `/<handle>/status/<id>` gives `@<handle>` and `<id>`. */
  lemma PostUrl(url: string, urlPath: string -> Option<string>, h: string, id: string)
    requires h != [] && id != [] && h != "status"
    requires '/' !in h && '/' !in id
    requires urlPath(url) == Some("/" + h + "/status/" + id)
    ensures ExtractTweetInfo(url, urlPath) == TweetInfo("@" + h, Some(id))
  {
    PostSegments(h, id);
    assert IndexOf([h, "status", id], "status") == 1 by {
      assert [h, "status", id][1..] == ["status", id];
    }
  }

  lemma PostSegments(h: string, id: string)
    requires h != [] && id != []
    requires '/' !in h && '/' !in id
    ensures Segments("/" + h + "/status/" + id) == [h, "status", id]
  {
    PostPieces(h, id);
    var pieces: seq<string> := [[], h, "status", id];
    assert pieces[1..] == [h, "status", id];
    FilterAll([h, "status", id], NonEmpty);
    assert Filter(pieces, NonEmpty) == [] + Filter(pieces[1..], NonEmpty);
  }

  lemma PostPieces(h: string, id: string)
    requires '/' !in h && '/' !in id
    ensures Split("/" + h + "/status/" + id, '/') == [[], h, "status", id]
  {
    var tail := "status" + ['/'] + id;
    var path := "/" + h + "/status/" + id;
    assert path == [] + ['/'] + (h + ['/'] + tail);
    SplitAt([], '/', h + ['/'] + tail);
    SplitAt(h, '/', tail);
    SplitAt("status", '/', id);
    SplitNone(id, '/');
  }

  // ---------------------------------------------------------------------------------------------
  // Timestamps

  /** The UTC calendar fields of a time value, as the `getUTC...` methods give them; `month` counts from 0. */
  datatype Civil = Civil(year: int, month: nat, day: nat, hours: nat, minutes: nat, seconds: nat)

  /** The largest magnitude of a valid time value, in milliseconds (section 21.4.1.1 of ECMA-262). */
  const MAX_TIME := 8_640_000_000_000_000

  /** `new Date(t + offsetMinutes * 60000)`: its fields, or `None` for an invalid date. */
  function ShiftedFields(t: int, offsetMinutes: int, civil: int -> Civil): Option<Civil> {
    var shifted := t + offsetMinutes * 60000;
    if -MAX_TIME <= shifted <= MAX_TIME then Some(civil(shifted)) else None
  }

  /** `String(yyyy)`: `NaN` for an invalid date. */
  function YearText(c: Option<Civil>): string {
    if c.None? then "NaN" else IntToString(c.value.year)
  }

  /** `String(x).padStart(2, '0')` of one field; `NaN` is already longer than two. */
  function TwoDigits(c: Option<Civil>, field: Civil -> nat): string {
    if c.None? then "NaN" else Pad2(field(c.value))
  }

  function Abs(n: int): nat {
    if n < 0 then -n else n
  }

  /** The `+hh:mm` or `-hh:mm` suffix. */
  function OffsetText(offsetMinutes: int): string {
    (if offsetMinutes >= 0 then "+" else "-") + Pad2(Abs(offsetMinutes) / 60) + ":" + Pad2(Abs(offsetMinutes) % 60)
  }

  /** The local date at the offset: `yyyy-mm-dd`. */
  function DateText(c: Option<Civil>): string {
    YearText(c) + "-" + TwoDigits(c, (v: Civil) => v.month + 1) + "-" + TwoDigits(c, (v: Civil) => v.day)
  }

  /** The local time of day at the offset: `Thh:mm:ss`. */
  function TimeText(c: Option<Civil>): string {
    "T" + TwoDigits(c, (v: Civil) => v.hours) + ":" + TwoDigits(c, (v: Civil) => v.minutes)
    + ":" + TwoDigits(c, (v: Civil) => v.seconds)
  }

  /** `toISOWithOffset`: the local wall time at the offset, then the offset. */
  function ToIsoWithOffset(t: int, offsetMinutes: int, civil: int -> Civil): string {
    var c := ShiftedFields(t, offsetMinutes, civil);
    DateText(c) + TimeText(c) + OffsetText(offsetMinutes)
  }

  /** `dateSlug`: the local date at the offset. */
  function DateSlug(t: int, offsetMinutes: int, civil: int -> Civil): string {
    DateText(ShiftedFields(t, offsetMinutes, civil))
  }

  /**
   * The date slug is the date part of the timestamp, since both read the same shifted instant;
   * for a valid date it is ten characters long when the year has four digits.
   */
  lemma DateSlugIsPrefix(t: int, offsetMinutes: int, civil: int -> Civil)
    ensures DateSlug(t, offsetMinutes, civil) <= ToIsoWithOffset(t, offsetMinutes, civil)
    ensures ToIsoWithOffset(t, offsetMinutes, civil)[|DateSlug(t, offsetMinutes, civil)|] == 'T'
  {
    var c := ShiftedFields(t, offsetMinutes, civil);
    var date, rest := DateText(c), TimeText(c) + OffsetText(offsetMinutes);
    assert DateText(c) + TimeText(c) + OffsetText(offsetMinutes) == date + rest;
  }

  /** The date ends in a digit of the day, or in the `N` of `NaN`. */
  lemma DateTextEnd(c: Option<Civil>)
    ensures var d := DateText(c);
            d != [] && IsLowerAlnum(LowerChar(d[|d| - 1]))
  {
    var day := TwoDigits(c, (v: Civil) => v.day);
    var d := DateText(c);
    assert d[|d| - 1] == day[|day| - 1];
  }

  /** UTC+8, the offset the script uses, is written `+08:00`. */
  lemma Offset480()
    ensures OffsetText(480) == "+08:00"
  {
    assert Pad2(8) == "08";
    assert Pad2(0) == "00";
  }

  /** Reading the offset back: the sign, then hours and minutes, give the offset for |offset| below 100 hours. */
  lemma OffsetRoundTrip(offsetMinutes: int)
    requires Abs(offsetMinutes) < 6000
    ensures var r := OffsetText(offsetMinutes);
            && |r| == 6 && r[3] == ':'
            && (r[0] == '+' <==> offsetMinutes >= 0) && (r[0] == '-' <==> offsetMinutes < 0)
            && (ValueIn(r[1..3], 10) * 60 + ValueIn(r[4..6], 10)) == Abs(offsetMinutes)
  {
    var a := Abs(offsetMinutes);
    var r := OffsetText(offsetMinutes);
    var hh, mm := Pad2(a / 60), Pad2(a % 60);
    assert r == (if offsetMinutes >= 0 then "+" else "-") + hh + ":" + mm;
    assert r[1..3] == hh && r[4..6] == mm;
    Pad2Value(a / 60);
    Pad2Value(a % 60);
  }

  lemma Pad2Value(n: nat)
    requires n < 100
    ensures ValueIn(Pad2(n), 10) == n
  {
    var r := Pad2(n);
    var hi, lo := n / 10, n % 10;
    assert r == [DigitChar(hi)] + [DigitChar(lo)];
    assert r[..1] == [DigitChar(hi)];
    assert r[..1][..0] == [];
    assert ValueIn(r[..1], 10) == hi;
  }

  // ---------------------------------------------------------------------------------------------
  // The draft article

  /** What the DexScreener lookup gave, already formatted for the draft; `None` when it failed. */
  datatype Dex = Dex(chain: string, tokenName: string, price: string, marketCap: string)

  /** UTC+8, the offset of every timestamp the script writes, in minutes. */
  const OFFSET_MINUTES := 480

  /**
   * The `signalEmoji` the script writes: the four characters the UTF-8 bytes of a yellow circle
   * read as in Windows-1252, which is what the script's text holds.
   */
  const SIGNAL_EMOJI := "\U{F0}\U{178}\U{178}\U{A1}"

  const SIGNAL_RATING := "speculative"
  const AUTHOR := "MemeDesk Editorial"

  /** `opts[key]`, where an absent option reads as the empty string: both are falsy. */
  function Opt(opts: map<string, string>, key: string): string {
    if key in opts then opts[key] else ""
  }

  /** `s || fallback` on strings. */
  function Or(s: string, fallback: string): string {
    if s != [] then s else fallback
  }

  /** The post URL: `positional[0] || ''`. */
  function TweetUrl(args: Args): string {
    if args.positional == [] then "" else args.positional[0]
  }

  /** What the options and the post URL say about the post. */
  datatype Post = Post(url: string, kolHandle: string, kolName: string, followers: string, text: string, token: string, image: string)

  /** The KOL and the post: the options win, the URL fills in, and placeholders fill the rest. */
  function PostOf(opts: map<string, string>, url: string, urlPath: string -> Option<string>): Post {
    var parsed := ExtractTweetInfo(url, urlPath);
    Post(url,
      EnsureHandle(Or(Opt(opts, "kol-handle"), parsed.handle)),
      Or(Opt(opts, "kol-name"), if parsed.handle != [] then ReplaceFirst(parsed.handle, "@", "") else "Unknown"),
      Or(Opt(opts, "kol-followers"), "N/A"),
      Or(Opt(opts, "tweet-text"), "[PLACEHOLDER - tweet text]"),
      Upper(Opt(opts, "token")),
      Opt(opts, "image"))
  }

  /** The id, and the slug, of a draft: the kebab form of handle, token and date. */
  function ArticleId(kolHandle: string, token: string, date: string): string {
    Kebab(kolHandle + "-" + Or(token, "token") + "-" + date)
  }

  /** An id is never empty: the last character of the date is kept. */
  lemma ArticleIdNonEmpty(kolHandle: string, token: string, c: Option<Civil>)
    ensures ArticleId(kolHandle, token, DateText(c)) != []
  {
    var date := DateText(c);
    var s := kolHandle + "-" + Or(token, "token") + "-" + date;
    DateTextEnd(c);
    assert s[|s| - 1] == date[|date| - 1];
    assert Lower(s)[|s| - 1] in Lower(s);
    KebabKeeps(s, Lower(s)[|s| - 1]);
  }

  function Paragraph(text: string): Json {
    Obj(map["type" := Str("paragraph"), "text" := Str(text)])
  }

  function Heading(text: string): Json {
    Obj(map["type" := Str("heading"), "text" := Str(text)])
  }

  /** The nine placeholder blocks of the body. */
  const DRAFT_BODY: seq<Json> := [
    Paragraph("[OPENING: Timestamp + KOL identity + what they did + impact]"),
    Heading("What They're Seeing That You're Not"),
    Paragraph("[PLACEHOLDER: Unpack the thesis]"),
    Heading("The Number That Should Scare You"),
    Paragraph("[PLACEHOLDER: Scariest data point + bull/bear framing]"),
    Heading("Why This Matters Right Now"),
    Paragraph("[PLACEHOLDER: Temporal urgency]"),
    Heading("MemeDesk Verdict"),
    Paragraph("[PLACEHOLDER: Signal rating + disclosure + CTA]")
  ]

  function Kol(post: Post): Json {
    Obj(map[
      "handle" := Str(post.kolHandle),
      "name" := Str(post.kolName),
      "followers" := Str(post.followers),
      "bio" := Str("[PLACEHOLDER - KOL bio]"),
      "primaryBag" := Str(if post.token != [] then "$" + post.token else "N/A")])
  }

  function SourcePost(post: Post, timestamp: string): Json {
    Obj(map[
      "url" := Str(post.url),
      "text" := Str(post.text),
      "timestamp" := Str(timestamp),
      "engagement" := NO_ENGAGEMENT])
  }

  /** A new post has no replies, reposts, likes or views yet. */
  const NO_ENGAGEMENT := Obj(map["replies" := Num(0.0), "reposts" := Num(0.0), "likes" := Num(0.0), "views" := Num(0.0)])

  function TokenData(post: Post, dex: Option<Dex>): Json {
    Obj(map[
      "symbol" := Str(Or(post.token, "TOKEN")),
      "name" := Str(if dex.Some? then dex.value.tokenName else "N/A"),
      "price" := Str(if dex.Some? then dex.value.price else "N/A"),
      "marketCap" := Str(if dex.Some? then dex.value.marketCap else "N/A"),
      "ath" := Str("N/A"),
      "athDrop" := Str("N/A"),
      "recentAction" := Str("[PLACEHOLDER]")])
  }

  function Tags(post: Post): Json {
    Arr([Str(Or(post.token, "TOKEN")), Str(Or(post.kolName, "KOL")), Str("KOL Signal")])
  }

  /** The draft article object; `heroImage` is present only when an image was given. */
  function Draft(post: Post, id: string, slug: string, publishedAt: string, dex: Option<Dex>): Json {
    Obj(DraftMembers(id, slug, publishedAt, Tags(post), if dex.Some? then dex.value.chain else "SOL",
                     Kol(post), SourcePost(post, publishedAt), TokenData(post, dex), Arr(DRAFT_BODY), post.image))
  }

  /** The members of the draft object, given the values of the nested ones. */
  function DraftMembers(id: string, slug: string, publishedAt: string, tags: Json, chain: string,
                        kol: Json, sourcePost: Json, tokenData: Json, body: Json, image: string): map<string, Json>
  {
    map[
      "id" := Str(id),
      "slug" := Str(slug),
      "headline" := Str("[PLACEHOLDER - write FOMO headline]"),
      "subheadline" := Str("[PLACEHOLDER - binary outcome framing]"),
      "signalRating" := Str(SIGNAL_RATING),
      "signalEmoji" := Str(SIGNAL_EMOJI),
      "signalLabel" := Str("[PLACEHOLDER]"),
      "publishedAt" := Str(publishedAt),
      "author" := Str(AUTHOR),
      "tags" := tags,
      "chain" := Str(chain),
      "kol" := kol,
      "sourcePost" := sourcePost,
      "tokenData" := tokenData,
      "body" := body]
    + (if image != [] then map["heroImage" := Str(image)] else map[])
  }

  /** The draft has no category, and a hero image exactly when one was given. */
  lemma DraftOptionalMembers(id: string, slug: string, publishedAt: string, tags: Json, chain: string,
                          kol: Json, sourcePost: Json, tokenData: Json, body: Json, image: string)
    ensures var m := DraftMembers(id, slug, publishedAt, tags, chain, kol, sourcePost, tokenData, body, image);
            "category" !in m
            && ("heroImage" in m <==> image != [])
            && (image != [] ==> m["heroImage"] == Str(image))
  {
    var m := DraftMembers(id, slug, publishedAt, tags, chain, kol, sourcePost, tokenData, body, image);
    assert "category" !in m by {}
    assert ("heroImage" in m <==> image != []) by {}
    assert (image != [] ==> m["heroImage"] == Str(image)) by {}
  }

  /** The identity and the time of the draft. */
  lemma DraftNamedMembers(id: string, slug: string, publishedAt: string, tags: Json, chain: string,
                          kol: Json, sourcePost: Json, tokenData: Json, body: Json, image: string)
    ensures var m := DraftMembers(id, slug, publishedAt, tags, chain, kol, sourcePost, tokenData, body, image);
            m["id"] == Str(id)
            && m["slug"] == Str(slug)
            && m["publishedAt"] == Str(publishedAt)
  {
    var m := DraftMembers(id, slug, publishedAt, tags, chain, kol, sourcePost, tokenData, body, image);
    assert m["id"] == Str(id) by {}
    assert m["slug"] == Str(slug) by {}
    assert m["publishedAt"] == Str(publishedAt) by {}
  }

  /** The placeholders and the nested values the pages read. */
  lemma DraftContentMembers(id: string, slug: string, publishedAt: string, tags: Json, chain: string,
                          kol: Json, sourcePost: Json, tokenData: Json, body: Json, image: string)
    ensures var m := DraftMembers(id, slug, publishedAt, tags, chain, kol, sourcePost, tokenData, body, image);
            m["headline"] == Str("[PLACEHOLDER - write FOMO headline]")
            && m["author"] == Str(AUTHOR)
            && m["tags"] == tags
            && m["kol"] == kol
            && m["sourcePost"] == sourcePost
            && m["body"] == body
  {
    var m := DraftMembers(id, slug, publishedAt, tags, chain, kol, sourcePost, tokenData, body, image);
    assert m["headline"] == Str("[PLACEHOLDER - write FOMO headline]") by {}
    assert m["author"] == Str(AUTHOR) by {}
    assert m["tags"] == tags by {}
    assert m["kol"] == kol by {}
    assert m["sourcePost"] == sourcePost by {}
    assert m["body"] == body by {}
  }


  /** The post a command line describes. */
  function PostOfArgs(argv: seq<string>, urlPath: string -> Option<string>): Post {
    var args := Parse(argv);
    PostOf(args.opts, TweetUrl(args), urlPath)
  }

  /** The id a command line run at `now` gives its draft. */
  function DraftId(argv: seq<string>, now: int, civil: int -> Civil, urlPath: string -> Option<string>): string {
    var post := PostOfArgs(argv, urlPath);
    ArticleId(post.kolHandle, post.token, DateSlug(now, OFFSET_MINUTES, civil))
  }

  /** The draft a command line run at `now` writes. */
  function DraftOf(argv: seq<string>, now: int, civil: int -> Civil, urlPath: string -> Option<string>, dex: Option<Dex>): Json {
    var id := DraftId(argv, now, civil, urlPath);
    Draft(PostOfArgs(argv, urlPath), id, id, ToIsoWithOffset(now, OFFSET_MINUTES, civil), dex)
  }

  /** The members of a draft, in terms of what it was made from. */
  lemma DraftReads(post: Post, id: string, slug: string, publishedAt: string, dex: Option<Dex>)
    ensures var d := Draft(post, id, slug, publishedAt, dex);
            && Field(d, "id") == Some(Str(id)) && Field(d, "slug") == Some(Str(slug))
            && Field(d, "publishedAt") == Some(Str(publishedAt))
            && Field(d, "category") == None
            && (Field(d, "heroImage").Some? <==> post.image != [])
            && (post.image != [] ==> Field(d, "heroImage") == Some(Str(post.image)))
            && Field(d, "sourcePost") == Some(SourcePost(post, publishedAt))
            && Field(d, "kol") == Some(Kol(post))
            && Field(d, "tags") == Some(Tags(post))
            && Field(d, "body") == Some(Arr(DRAFT_BODY))
            && Field(d, "headline") == Some(Str("[PLACEHOLDER - write FOMO headline]"))
            && Field(d, "author") == Some(Str(AUTHOR))
  {
    var chain, kol, sourcePost, tokenData := if dex.Some? then dex.value.chain else "SOL", Kol(post), SourcePost(post, publishedAt), TokenData(post, dex);
    DraftOptionalMembers(id, slug, publishedAt, Tags(post), chain, kol, sourcePost, tokenData, Arr(DRAFT_BODY), post.image);
    DraftNamedMembers(id, slug, publishedAt, Tags(post), chain, kol, sourcePost, tokenData, Arr(DRAFT_BODY), post.image);
    DraftContentMembers(id, slug, publishedAt, Tags(post), chain, kol, sourcePost, tokenData, Arr(DRAFT_BODY), post.image);
  }

  /** A draft's id and slug are the same slug, and the draft has no category yet. */
  lemma DraftIdentity(argv: seq<string>, now: int, civil: int -> Civil, urlPath: string -> Option<string>, dex: Option<Dex>)
    ensures var d, id := DraftOf(argv, now, civil, urlPath, dex), DraftId(argv, now, civil, urlPath);
            && Field(d, "id") == Some(Str(id)) && Field(d, "slug") == Some(Str(id))
            && IsSlug(id) && id != [] && '@' !in id
            && Field(d, "category") == None
  {
    var post, id := PostOfArgs(argv, urlPath), DraftId(argv, now, civil, urlPath);
    ArticleIdNonEmpty(post.kolHandle, post.token, ShiftedFields(now, OFFSET_MINUTES, civil));
    DraftReads(post, id, id, ToIsoWithOffset(now, OFFSET_MINUTES, civil), dex);
    KebabIsSlug(post.kolHandle + "-" + Or(post.token, "token") + "-" + DateSlug(now, OFFSET_MINUTES, civil));
  }

  /** `publishedAt` and the post's timestamp are the same instant, and the id's date is its date part. */
  lemma DraftTimestamps(argv: seq<string>, now: int, civil: int -> Civil, urlPath: string -> Option<string>, dex: Option<Dex>)
    ensures var d, iso := DraftOf(argv, now, civil, urlPath, dex), ToIsoWithOffset(now, OFFSET_MINUTES, civil);
            && Field(d, "publishedAt") == Some(Str(iso))
            && Field(d, "sourcePost").Some? && Field(Field(d, "sourcePost").value, "timestamp") == Some(Str(iso))
            && DateSlug(now, OFFSET_MINUTES, civil) <= iso
  {
    var post, id, iso := PostOfArgs(argv, urlPath), DraftId(argv, now, civil, urlPath), ToIsoWithOffset(now, OFFSET_MINUTES, civil);
    DraftReads(post, id, id, iso, dex);
    SourcePostReads(post, iso);
    DateSlugIsPrefix(now, OFFSET_MINUTES, civil);
  }

  /** The source post holds the URL and text given, and the timestamp of publication. */
  lemma SourcePostReads(post: Post, timestamp: string)
    ensures var p := SourcePost(post, timestamp);
            && Field(p, "url") == Some(Str(post.url))
            && Field(p, "text") == Some(Str(post.text))
            && Field(p, "timestamp") == Some(Str(timestamp))
            && Field(p, "engagement") == Some(NO_ENGAGEMENT)
  {
  }

  /** The KOL handle always starts with `@`; without a `--kol-handle` it is the URL's, or `@unknown`. */
  lemma DraftHandle(argv: seq<string>, urlPath: string -> Option<string>)
    ensures var post, opts := PostOfArgs(argv, urlPath), Parse(argv).opts;
            && post.kolHandle != [] && post.kolHandle[0] == '@'
            && (Opt(opts, "kol-handle") == [] ==>
                  post.kolHandle == EnsureHandle(ExtractTweetInfo(TweetUrl(Parse(argv)), urlPath).handle))
  {
    EnsureHandleShape(Or(Opt(Parse(argv).opts, "kol-handle"), ExtractTweetInfo(TweetUrl(Parse(argv)), urlPath).handle));
  }

  /** Without `--kol-name`, the name is the URL's handle without its `@`. */
  lemma DraftNameFromUrl(argv: seq<string>, urlPath: string -> Option<string>)
    requires Opt(Parse(argv).opts, "kol-name") == []
    ensures var post, h := PostOfArgs(argv, urlPath), ExtractTweetInfo(TweetUrl(Parse(argv)), urlPath).handle;
            post.kolName == if h == [] then "Unknown" else h[1..]
  {
    var h := ExtractTweetInfo(TweetUrl(Parse(argv)), urlPath).handle;
    HandleShape(TweetUrl(Parse(argv)), urlPath);
    if h != [] {
      assert "@" <= h;
    }
  }

  /** `heroImage` is in the draft exactly when a non-empty `--image` was given, and holds it. */
  lemma DraftImage(argv: seq<string>, now: int, civil: int -> Civil, urlPath: string -> Option<string>, dex: Option<Dex>)
    ensures var d, image := DraftOf(argv, now, civil, urlPath, dex), Opt(Parse(argv).opts, "image");
            && (Field(d, "heroImage").Some? <==> image != [])
            && (image != [] ==> Field(d, "heroImage") == Some(Str(image)))
  {
    var post, id := PostOfArgs(argv, urlPath), DraftId(argv, now, civil, urlPath);
    DraftReads(post, id, id, ToIsoWithOffset(now, OFFSET_MINUTES, civil), dex);
  }

  /** The token is upper-cased, and the first tag is it or `TOKEN`. */
  lemma DraftToken(argv: seq<string>, now: int, civil: int -> Civil, urlPath: string -> Option<string>, dex: Option<Dex>)
    ensures var d, token := DraftOf(argv, now, civil, urlPath, dex), PostOfArgs(argv, urlPath).token;
            && (forall i :: 0 <= i < |token| ==> !IsLowerLetter(token[i]))
            && Field(d, "tags").Some? && Field(d, "tags").value.Arr?
            && |Field(d, "tags").value.items| == 3
            && Field(d, "tags").value.items[0] == Str(if token == [] then "TOKEN" else token)
  {
    var post, id := PostOfArgs(argv, urlPath), DraftId(argv, now, civil, urlPath);
    DraftReads(post, id, id, ToIsoWithOffset(now, OFFSET_MINUTES, civil), dex);
  }

  // ---------------------------------------------------------------------------------------------
  // The run

  /** A file the run writes: its path from the repository root and the JSON it holds. */
  datatype Write = Write(path: string, content: Json)

  /**
   * How a run ends: the usage message, a failure reading or parsing `articles.json`, the error
   * that it is not an array, or the published draft with its id.
   */
  datatype Outcome = Usage | Unreadable | NotAnArray | Published(id: string)

  const ARTICLES_PATH := "src/data/articles.json"

  function DraftPath(id: string): string {
    "data/article-" + id + ".json"
  }

  /**
   * `main`: without a post URL, the usage message and nothing written. Otherwise the draft is
   * written to its own file first; then `existing`, the parsed `articles.json` (`None` when it
   * cannot be read or parsed), must be an array, and the draft is appended to it and written back.
   */
  method Publish(argv: seq<string>, now: int, civil: int -> Civil, urlPath: string -> Option<string>,
                 dex: Option<Dex>, existing: Option<Json>)
    returns (outcome: Outcome, writes: seq<Write>)
    ensures outcome.Usage? <==> TweetUrl(Parse(argv)) == []
    ensures outcome.Usage? ==> writes == []
    ensures !outcome.Usage? ==>
      && writes != []
      && writes[0] == Write(DraftPath(DraftId(argv, now, civil, urlPath)), DraftOf(argv, now, civil, urlPath, dex))
    ensures outcome.Unreadable? <==> !outcome.Usage? && existing.None?
    ensures outcome.NotAnArray? <==> !outcome.Usage? && existing.Some? && !existing.value.Arr?
    ensures !outcome.Published? ==> |writes| <= 1
    ensures outcome.Published? ==>
      && existing.Some? && existing.value.Arr?
      && outcome.id == DraftId(argv, now, civil, urlPath)
      && |writes| == 2
      && writes[1] == Write(ARTICLES_PATH, Arr(existing.value.items + [DraftOf(argv, now, civil, urlPath, dex)]))
  {
    var opts, positional := ParseArgs(argv);
    var tweetUrl := if positional != [] then positional[0] else "";
    if tweetUrl == [] {
      return Usage, [];
    }
    var post := PostOf(opts, tweetUrl, urlPath);
    var publishedAt := ToIsoWithOffset(now, OFFSET_MINUTES, civil);
    var datePart := DateSlug(now, OFFSET_MINUTES, civil);
    var id := ArticleId(post.kolHandle, post.token, datePart);
    var slug := ArticleId(post.kolHandle, post.token, datePart);
    var article := Draft(post, id, slug, publishedAt, dex);
    writes := [Write(DraftPath(id), article)];
    if existing.None? {
      return Unreadable, writes;
    }
    var list := existing.value;
    if !list.Arr? {
      return NotAnArray, writes;
    }
    list := Arr(list.items + [article]);
    writes := writes + [Write(ARTICLES_PATH, list)];
    outcome := Published(id);
  }
}
