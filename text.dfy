/**
 * String helpers shared by the scripts: ASCII case mapping, JavaScript whitespace and `trim`,
 * substring search, global literal `replace`, collapsing of character runs (what `/x+/g` does),
 * decimal rendering and parsing, `padStart(2, '0')`, and the slug shape both slug builders produce.
 */
module Text {

  predicate IsUpper(c: char) { 'A' <= c <= 'Z' }
  predicate IsLowerLetter(c: char) { 'a' <= c <= 'z' }
  predicate IsDigit(c: char) { '0' <= c <= '9' }
  /** The class `[a-z0-9]`. */
  predicate IsLowerAlnum(c: char) { IsLowerLetter(c) || IsDigit(c) }
  /** Not in `[a-z0-9]`: the class `[^a-z0-9]`. */
  predicate IsNotLowerAlnum(c: char) { !IsLowerAlnum(c) }
  /** The regular-expression word characters `[A-Za-z0-9_]` that `\b` looks at. */
  predicate IsWordChar(c: char) { IsUpper(c) || IsLowerAlnum(c) || c == '_' }
  predicate IsHyphen(c: char) { c == '-' }

  /** ECMAScript WhiteSpace and LineTerminator: what `trim` removes and `\s` matches. */
  predicate IsWs(c: char) {
    || c == '\t' || c == '\n' || c == '\U{B}' || c == '\U{C}' || c == '\r' || c == ' '
    || c == '\U{A0}' || c == '\U{1680}' || ('\U{2000}' <= c <= '\U{200A}')
    || c == '\U{2028}' || c == '\U{2029}' || c == '\U{202F}' || c == '\U{205F}'
    || c == '\U{3000}' || c == '\U{FEFF}'
  }

  function LowerChar(c: char): (r: char)
    ensures !IsUpper(r)
    ensures !IsUpper(c) ==> r == c
  {
    if IsUpper(c) then (c as int + 32) as char else c
  }

  function UpperChar(c: char): (r: char)
    ensures !IsLowerLetter(r)
    ensures !IsLowerLetter(c) ==> r == c
  {
    if IsLowerLetter(c) then (c as int - 32) as char else c
  }

  /** `toLowerCase`, restricted to the ASCII letters. */
  function Lower(s: string): (r: string)
    ensures |r| == |s|
    ensures forall i :: 0 <= i < |s| ==> r[i] == LowerChar(s[i])
  {
    seq(|s|, i requires 0 <= i < |s| => LowerChar(s[i]))
  }

  /** `toUpperCase`, restricted to the ASCII letters. */
  function Upper(s: string): (r: string)
    ensures |r| == |s|
    ensures forall i :: 0 <= i < |s| ==> r[i] == UpperChar(s[i])
  {
    seq(|s|, i requires 0 <= i < |s| => UpperChar(s[i]))
  }

  /** Lower-casing works character by character, so it distributes over concatenation. */
  lemma LowerAppend(x: string, y: string)
    ensures Lower(x + y) == Lower(x) + Lower(y)
  {
  }

  lemma LowerOfLowercase(s: string)
    requires forall i :: 0 <= i < |s| ==> !IsUpper(s[i])
    ensures Lower(s) == s
  {
  }

  /** The longest suffix of `s` whose first character does not satisfy `p`. */
  function DropWhile(s: string, p: char -> bool): (r: string)
    ensures |r| <= |s| && r == s[|s| - |r|..]
    ensures r == [] || !p(r[0])
  {
    if s != [] && p(s[0]) then DropWhile(s[1..], p) else s
  }

  /** `String.prototype.trimStart`: the longest suffix of `s` that does not start with whitespace. */
  function TrimStart(s: string): (r: string)
    ensures |r| <= |s| && r == s[|s| - |r|..]
    ensures r == [] || !IsWs(r[0])
  {
    if s != [] && IsWs(s[0]) then TrimStart(s[1..]) else s
  }

  /** `String.prototype.trimEnd`: the longest prefix of `s` that does not end with whitespace. */
  function TrimEnd(s: string): (r: string)
    ensures |r| <= |s| && r == s[..|r|]
    ensures r == [] || !IsWs(r[|r| - 1])
  {
    if s != [] && IsWs(s[|s| - 1]) then TrimEnd(s[..|s| - 1]) else s
  }

  predicate IsTrimmed(s: string) {
    s == [] || (!IsWs(s[0]) && !IsWs(s[|s| - 1]))
  }

  /** `String.prototype.trim`: a slice of `s` without surrounding whitespace, dropping only whitespace. */
  function Trim(s: string): (r: string)
    ensures IsTrimmed(r)
    ensures IsTrimmed(s) ==> r == s
  {
    TrimEnd(TrimStart(s))
  }

  /** Trimming only ever removes characters. */
  lemma TrimChars(s: string)
    ensures forall c :: c in Trim(s) ==> c in s
  {
    var t := TrimStart(s);
    assert forall c :: c in t ==> c in s;
  }

  /** Code-point order on strings: `a` is a prefix of `b` or is smaller at the first difference. */
  predicate StrLe(a: string, b: string) {
    a == [] || (b != [] && (a[0] < b[0] || (a[0] == b[0] && StrLe(a[1..], b[1..]))))
  }

  lemma {:induction false} StrLeTotal(a: string, b: string)
    ensures StrLe(a, b) || StrLe(b, a)
  {
    if a != [] && b != [] && a[0] == b[0] {
      StrLeTotal(a[1..], b[1..]);
    }
  }

  lemma {:induction false} StrLeTrans(a: string, b: string, c: string)
    requires StrLe(a, b) && StrLe(b, c)
    ensures StrLe(a, c)
  {
    if a != [] && b != [] && c != [] && a[0] == b[0] && b[0] == c[0] {
      StrLeTrans(a[1..], b[1..], c[1..]);
    }
  }

  /** `s.includes(sub)`. */
  predicate Contains(s: string, sub: string) {
    sub <= s || (s != [] && Contains(s[1..], sub))
  }

  lemma {:induction false} ContainsFirstChar(s: string, sub: string)
    requires sub != [] && Contains(s, sub)
    ensures sub[0] in s
  {
    if !(sub <= s) {
      ContainsFirstChar(s[1..], sub);
    }
  }

  /** An occurrence stays an occurrence when text is added in front. */
  lemma {:induction false} ContainsAfter(pre: string, s: string, sub: string)
    requires Contains(s, sub)
    ensures Contains(pre + s, sub)
  {
    if pre != [] {
      assert (pre + s)[1..] == pre[1..] + s;
      ContainsAfter(pre[1..], s, sub);
    } else {
      assert pre + s == s;
    }
  }

  /** An occurrence stays an occurrence when text is added behind. */
  lemma {:induction false} ContainsBefore(s: string, post: string, sub: string)
    requires Contains(s, sub)
    ensures Contains(s + post, sub)
  {
    if !(sub <= s) {
      assert (s + post)[1..] == s[1..] + post;
      ContainsBefore(s[1..], post, sub);
    }
  }

  /** `s.replace(/pat/g, rep)` for a literal pattern: leftmost, non-overlapping, in one pass. */
  function ReplaceAll(s: string, pat: string, rep: string): string
    requires pat != []
    decreases |s|
  {
    if s == [] then []
    else if pat <= s then rep + ReplaceAll(s[|pat|..], pat, rep)
    else [s[0]] + ReplaceAll(s[1..], pat, rep)
  }

  /** A pattern that never occurs is never replaced. */
  lemma {:induction false} ReplaceAbsent(s: string, pat: string, rep: string)
    requires pat != [] && !Contains(s, pat)
    ensures ReplaceAll(s, pat, rep) == s
  {
    if s != [] {
      ReplaceAbsent(s[1..], pat, rep);
    }
  }

  /** `s.replace(pat, rep)` with a string pattern: only the leftmost occurrence is replaced. */
  function ReplaceFirst(s: string, pat: string, rep: string): string
    requires pat != []
  {
    if pat <= s then rep + s[|pat|..]
    else if s == [] then []
    else [s[0]] + ReplaceFirst(s[1..], pat, rep)
  }

  /** `s.endsWith(suffix)`. */
  predicate HasSuffix(s: string, suffix: string) {
    |suffix| <= |s| && s[|s| - |suffix|..] == suffix
  }

  /** Chained `replace` calls: each pass runs over the previous pass's output. */
  function ReplaceInTurn(s: string, passes: seq<(string, string)>): string
    decreases passes
    requires forall k :: 0 <= k < |passes| ==> passes[k].0 != []
  {
    if passes == [] then s
    else ReplaceInTurn(ReplaceAll(s, passes[0].0, passes[0].1), passes[1..])
  }

  /** Passes whose patterns never occur leave the text alone. */
  lemma {:induction false} ReplaceInTurnAbsent(s: string, passes: seq<(string, string)>)
    decreases passes
    requires forall k :: 0 <= k < |passes| ==> passes[k].0 != [] && !Contains(s, passes[k].0)
    ensures ReplaceInTurn(s, passes) == s
  {
    if passes != [] {
      ReplaceAbsent(s, passes[0].0, passes[0].1);
      ReplaceInTurnAbsent(s, passes[1..]);
    }
  }

  /** A one-character pattern that does not occur leaves the text alone. */
  lemma {:induction false} ReplaceCharAbsent(s: string, c: char, rep: string)
    requires c !in s
    ensures ReplaceAll(s, [c], rep) == s
  {
    if s != [] {
      assert !([c] <= s) by {
        assert s[0] != c;
      }
      ReplaceCharAbsent(s[1..], c, rep);
    }
  }

  /** Replacing a one-character pattern distributes over concatenation. */
  lemma {:induction false} ReplaceCharAppend(a: string, b: string, c: char, rep: string)
    ensures ReplaceAll(a + b, [c], rep) == ReplaceAll(a, [c], rep) + ReplaceAll(b, [c], rep)
  {
    if a != [] {
      assert (a + b)[1..] == a[1..] + b;
      ReplaceCharAppend(a[1..], b, c, rep);
    } else {
      assert a + b == b;
    }
  }

  /** No two neighbouring characters both satisfy `p`. */
  predicate NoAdjacent(s: string, p: char -> bool) {
    forall i :: 0 <= i < |s| - 1 ==> !(p(s[i]) && p(s[i + 1]))
  }

  /**
   * `s.replace(/P+/g, rep)` where `P` is the class `p`: every maximal run of characters in the class
   * becomes the single character `rep`.
   */
  function CollapseRuns(s: string, p: char -> bool, rep: char): (r: string)
    ensures r == [] <==> s == []
    ensures s != [] && p(s[0]) ==> r[0] == rep
    ensures s != [] && !p(s[0]) ==> r[0] == s[0]
    decreases |s|
  {
    if s == [] then []
    else if p(s[0]) then [rep] + CollapseRuns(DropWhile(s[1..], p), p, rep)
    else [s[0]] + CollapseRuns(s[1..], p, rep)
  }

  /**
   * After collapsing, every character is the replacement or a character of `s` outside the class,
   * and no two neighbours are both in the class.
   */
  lemma {:induction false} CollapseRunsShape(s: string, p: char -> bool, rep: char)
    ensures forall c :: c in CollapseRuns(s, p, rep) ==> c == rep || (c in s && !p(c))
    ensures NoAdjacent(CollapseRuns(s, p, rep), p)
    decreases |s|
  {
    if s != [] {
      if p(s[0]) {
        var d := DropWhile(s[1..], p);
        CollapseRunsShape(d, p, rep);
        assert forall c :: c in d ==> c in s;
        assert CollapseRuns(s, p, rep) == [rep] + CollapseRuns(d, p, rep);
      } else {
        CollapseRunsShape(s[1..], p, rep);
        assert CollapseRuns(s, p, rep) == [s[0]] + CollapseRuns(s[1..], p, rep);
      }
    }
  }

  /** Dropping a leading run of the class keeps every character outside it. */
  lemma {:induction false} DropWhileKeeps(s: string, p: char -> bool, c: char)
    requires c in s && !p(c)
    ensures c in DropWhile(s, p)
  {
    if s[0] != c {
      DropWhileKeeps(s[1..], p, c);
    }
  }

  /** Collapsing runs of the class keeps every character outside it. */
  lemma {:induction false} CollapseRunsKeeps(s: string, p: char -> bool, rep: char, c: char)
    requires c in s && !p(c)
    ensures c in CollapseRuns(s, p, rep)
    decreases |s|
  {
    if s[0] != c {
      if p(s[0]) {
        DropWhileKeeps(s[1..], p, c);
        CollapseRunsKeeps(DropWhile(s[1..], p), p, rep, c);
      } else {
        CollapseRunsKeeps(s[1..], p, rep, c);
      }
    }
  }

  /** A string with no character of the class is left alone. */
  lemma {:induction false} CollapseRunsAbsent(s: string, p: char -> bool, rep: char)
    requires forall i :: 0 <= i < |s| ==> !p(s[i])
    ensures CollapseRuns(s, p, rep) == s
  {
    if s != [] {
      CollapseRunsAbsent(s[1..], p, rep);
    }
  }

  /** Runs of length one of the replacement character itself are left alone. */
  lemma {:induction false} CollapseRunsSingles(s: string, p: char -> bool, rep: char)
    requires forall i :: 0 <= i < |s| ==> p(s[i]) ==> s[i] == rep
    requires NoAdjacent(s, p)
    ensures CollapseRuns(s, p, rep) == s
  {
    if s != [] {
      assert NoAdjacent(s[1..], p);
      if p(s[0]) {
        assert DropWhile(s[1..], p) == s[1..];
      }
      CollapseRunsSingles(s[1..], p, rep);
    }
  }

  /** `s.replace(/^-|-$/g, '')`: one leading and one trailing hyphen removed. */
  function StripEdgeHyphens(s: string): (r: string)
    ensures |r| <= |s|
  {
    var a := if s != [] && s[0] == '-' then s[1..] else s;
    if a != [] && a[|a| - 1] == '-' then a[..|a| - 1] else a
  }

  /** The shape of a URL slug: `[a-z0-9-]` only, no `--`, no hyphen at either end. */
  predicate IsSlug(s: string) {
    && (forall i :: 0 <= i < |s| ==> IsLowerAlnum(s[i]) || s[i] == '-')
    && NoAdjacent(s, IsHyphen)
    && (s != [] ==> s[0] != '-' && s[|s| - 1] != '-')
  }

  /** Stripping the edge hyphens of a string over `[a-z0-9-]` without `--` yields a slug. */
  lemma StripEdgeHyphensIsSlug(s: string)
    requires forall i :: 0 <= i < |s| ==> IsLowerAlnum(s[i]) || s[i] == '-'
    requires NoAdjacent(s, IsHyphen)
    ensures IsSlug(StripEdgeHyphens(s))
  {
    var a := if s != [] && s[0] == '-' then s[1..] else s;
    assert NoAdjacent(a, IsHyphen);
    assert a != [] ==> a[0] != '-';
    var r := StripEdgeHyphens(s);
    assert NoAdjacent(r, IsHyphen);
    if a != [] && a[|a| - 1] == '-' && |a| >= 2 {
      assert a[|a| - 2] != '-';
    }
  }

  function DigitChar(d: nat): (c: char)
    requires d < 10
    ensures IsDigit(c)
  {
    ('0' as int + d) as char
  }

  /** `String(n)` for a natural number: its decimal digits, without leading zeros. */
  function NatToString(n: nat): (r: string)
    ensures r != []
    ensures forall i :: 0 <= i < |r| ==> IsDigit(r[i])
    ensures n > 0 ==> r[0] != '0'
  {
    if n < 10 then [DigitChar(n)] else NatToString(n / 10) + [DigitChar(n % 10)]
  }

  /** `String(n)` for an integer. */
  function IntToString(n: int): string {
    if n < 0 then "-" + NatToString(-n) else NatToString(n)
  }

  /** The value of a digit in bases up to 36, or 36 when `c` is not a digit of any base. */
  function DigitValue(c: char): (v: nat)
    ensures v <= 36
  {
    if IsDigit(c) then c as int - '0' as int
    else if IsLowerLetter(c) then c as int - 'a' as int + 10
    else if IsUpper(c) then c as int - 'A' as int + 10
    else 36
  }

  /** The longest prefix of `s` made of digits valid in base `radix`. */
  function DigitPrefix(s: string, radix: nat): (r: string)
    ensures |r| <= |s| && r == s[..|r|]
    ensures forall i :: 0 <= i < |r| ==> DigitValue(r[i]) < radix
    ensures |r| == |s| || DigitValue(s[|r|]) >= radix
  {
    if s != [] && DigitValue(s[0]) < radix then [s[0]] + DigitPrefix(s[1..], radix) else []
  }

  /** A run of digits followed by a non-digit: the run is the digit prefix. */
  lemma {:induction false} DigitPrefixOf(digits: string, rest: string, radix: nat)
    requires forall i :: 0 <= i < |digits| ==> DigitValue(digits[i]) < radix
    requires rest == [] || DigitValue(rest[0]) >= radix
    ensures DigitPrefix(digits + rest, radix) == digits
  {
    if digits != [] {
      assert (digits + rest)[1..] == digits[1..] + rest;
      DigitPrefixOf(digits[1..], rest, radix);
    }
  }

  /** The value of a string of digits in base `radix`. */
  function ValueIn(s: string, radix: nat): nat {
    if s == [] then 0 else ValueIn(s[..|s| - 1], radix) * radix + DigitValue(s[|s| - 1])
  }

  /** Rendering a number in decimal and reading it back gives the number. */
  lemma {:induction false} DecimalRoundTrip(n: nat)
    ensures ValueIn(NatToString(n), 10) == n
  {
    var r := NatToString(n);
    if n >= 10 {
      DecimalRoundTrip(n / 10);
      assert r[..|r| - 1] == NatToString(n / 10);
    }
  }

  /** `String(n).padStart(2, '0')`. */
  function Pad2(n: nat): (r: string)
    ensures |r| >= 2
    ensures n < 100 ==> |r| == 2 && r[0] == DigitChar(n / 10) && r[1] == DigitChar(n % 10)
    ensures forall i :: 0 <= i < |r| ==> IsDigit(r[i])
  {
    var s := NatToString(n);
    assert 10 <= n < 100 ==> NatToString(n / 10) == [DigitChar(n / 10)];
    if |s| >= 2 then s else "0" + s
  }

  /** How many of `keywords` occur in `s`: each keyword counts once, however often it occurs. */
  function KeywordHits(s: string, keywords: seq<string>): (n: nat)
    ensures n <= |keywords|
  {
    if keywords == [] then 0
    else KeywordHits(s, keywords[..|keywords| - 1]) + (if Contains(s, keywords[|keywords| - 1]) then 1 else 0)
  }

  /** The members of `ks` that satisfy `found`. */
  function Found(ks: seq<string>, found: string -> bool): set<string> {
    set k | k in ks && found(k)
  }

  lemma FoundSnoc(ks: seq<string>, x: string, found: string -> bool)
    ensures Found(ks + [x], found) == Found(ks, found) + (if found(x) then {x} else {})
  {
    var l := Found(ks + [x], found);
    var r := Found(ks, found) + (if found(x) then {x} else {});
    forall k ensures k in l <==> k in r {
      assert k in ks + [x] <==> k in ks || k == x;
    }
  }

  /** For a list without repeats, the hit count is the number of distinct keywords found in `s`. */
  lemma {:induction false} KeywordHitsDistinct(s: string, keywords: seq<string>)
    requires forall i, j :: 0 <= i < j < |keywords| ==> keywords[i] != keywords[j]
    ensures KeywordHits(s, keywords) == |Found(keywords, k => Contains(s, k))|
  {
    var found := k => Contains(s, k);
    if keywords == [] {
      assert Found(keywords, found) == {};
    } else {
      var n := |keywords| - 1;
      var init := keywords[..n];
      KeywordHitsDistinct(s, init);
      assert keywords == init + [keywords[n]];
      FoundSnoc(init, keywords[n], found);
      assert keywords[n] !in Found(init, found);
    }
  }
}
