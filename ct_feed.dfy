/**
 * The CT feed scanner (scripts/scan-ct-feed.js): fetch each account's RSS feed from the first
 * Nitter mirror that answers, scan the `<item>` blocks, drop reposts and undated items, score the
 * rest by recency and keyword hits, and keep the three best posts across all accounts.
 *
 * The clock, RFC 822 date parsing, WHATWG URL parsing and the network are parameters. Instants are
 * integer milliseconds since the epoch; scores are exact rationals.
 */
module CtFeed {
  import opened Wrappers
  import opened Text
  import opened Sorting

  const ACCOUNTS: seq<string> := [
    "0xansem", "MustStopMurad", "KookCapitalLLC", "frankdegods", "cobie", "gainzy222",
    "blknoiz06", "loopifyyy", "BasedKarbon", "notthreadguy", "0xSisyphus", "GiganticRebirth",
    "CryptoGodJohn", "KingShawnn", "9gagcrypto"
  ]

  const NITTER_INSTANCES: seq<string> := [
    "nitter.poast.org", "nitter.privacydev.net", "nitter.1d4.us", "lightbrd.com"
  ]

  const KEYWORDS: seq<string> := [
    "meme", "sol", "solana", "alpha", "rug", "degen", "runner", "moonshot", "gem", "pump",
    "narrative", "memecoin", "bullish", "bearish", "100x"
  ]

  const MS_PER_HOUR: int := 3600000

  /** How many ranked posts the snapshot keeps. */
  const TOP_N: nat := 3

  const ITEM: string := "item"

  /** What the parser reads from outside: the clock, `new Date(pubDate)` and `new URL(link).pathname`. */
  datatype Env = Env(now: int, parseDate: string -> Option<int>, urlPath: string -> Option<string>)

  /** A parsed post before ranking. */
  datatype ScoredPost = ScoredPost(author: string, text: string, url: string, publishedAt: int, score: real)

  /** A post as written to the snapshot: the score is dropped and the run's timestamp added. */
  datatype Post = Post(author: string, text: string, url: string, publishedAt: int, fetchedAt: int)

  /** One fetch attempt: an HTTP reply, or a transport failure (refused, timed out, unreadable body). */
  datatype Response = Reply(status: int, body: string) | NetworkError

  /** `res.ok`. */
  predicate IsOk(res: Response) {
    res.Reply? && 200 <= res.status <= 299
  }

  datatype Fetched = Fetched(instance: string, xml: string)

  // ---------------------------------------------------------------------------------------------
  // Entity decoding and tag extraction

  /**
   * `decodeXml`: drops CDATA brackets, then decodes `&amp;`, `&lt;`, `&gt;`, `&quot;`, `&apos;` and
   * `&#39;`, each in its own single pass and in that order, then trims.
   */
  function DecodeXml(input: string): (r: string)
    ensures input == [] ==> r == []
    ensures IsTrimmed(r)
  {
    if input == [] then [] else Trim(ReplaceInTurn(input, DECODE_PASSES))
  }

  /** The replacements of `decodeXml`, in the order it applies them. */
  const DECODE_PASSES: seq<(string, string)> := [
    ("<![CDATA[", ""), ("]]>", ""), ("&amp;", "&"), ("&lt;", "<"), ("&gt;", ">"),
    ("&quot;", "\""), ("&apos;", "'"), ("&#39;", "'")
  ]

  /** Text without `&`, `<` or `]` has nothing to decode: decoding only trims it. */
  lemma DecodePlainText(input: string)
    requires '&' !in input && '<' !in input && ']' !in input
    ensures DecodeXml(input) == Trim(input)
  {
    forall k | 0 <= k < |DECODE_PASSES|
      ensures !Contains(input, DECODE_PASSES[k].0)
    {
      if Contains(input, DECODE_PASSES[k].0) {
        ContainsFirstChar(input, DECODE_PASSES[k].0);
      }
    }
    ReplaceInTurnAbsent(input, DECODE_PASSES);
  }

  /** The passes run one after another, `&amp;` first: a doubly escaped `&amp;lt;` comes out as `<`. */
  lemma DecodeIsSequential(s: string)
    requires s == "&amp;lt;"
    ensures DecodeXml(s) == "<"
  {
    var t, u := "&lt;", "<";
    BracketPassesIdle(s);
    AmpPass(s, t);
    LtPass(t, u);
    LaterPassesIdle(u);
    AmpThenLt(s, t, u);
    assert IsTrimmed(u);
    DecodedTo(s, u);
  }

  lemma DecodedTo(s: string, u: string)
    requires s != [] && ReplaceInTurn(s, DECODE_PASSES) == u && IsTrimmed(u)
    ensures DecodeXml(s) == u
  {
  }

  /** Text without `&` is left alone by the entity passes after `&lt;`. */
  lemma LaterPassesIdle(u: string)
    requires '&' !in u
    ensures forall k :: 4 <= k < |DECODE_PASSES| ==> !Contains(u, DECODE_PASSES[k].0)
  {
    forall k | 4 <= k < |DECODE_PASSES|
      ensures !Contains(u, DECODE_PASSES[k].0)
    {
      if Contains(u, DECODE_PASSES[k].0) {
        ContainsFirstChar(u, DECODE_PASSES[k].0);
      }
    }
  }

  /** Passes 3 and 4 change the text, the others leave it as it is. */
  lemma AmpThenLt(s: string, t: string, u: string)
    requires ReplaceAll(s, "<![CDATA[", "") == s && ReplaceAll(s, "]]>", "") == s
    requires ReplaceAll(s, "&amp;", "&") == t && ReplaceAll(t, "&lt;", "<") == u
    requires forall k :: 4 <= k < |DECODE_PASSES| ==> !Contains(u, DECODE_PASSES[k].0)
    ensures ReplaceInTurn(s, DECODE_PASSES) == u
  {
    var p := DECODE_PASSES;
    ReplaceInTurnAbsent(u, p[4..]);
    assert p[1..][1..] == p[2..] && p[2..][1..] == p[3..] && p[3..][1..] == p[4..];
  }

  /** A pass whose pattern starts with a character the text lacks leaves the text as it is. */
  lemma PassIdle(s: string, pat: string, rep: string)
    requires pat != [] && pat[0] !in s
    ensures ReplaceAll(s, pat, rep) == s
  {
    if Contains(s, pat) {
      ContainsFirstChar(s, pat);
    }
    ReplaceAbsent(s, pat, rep);
  }

  /** `&amp;lt;` holds no `<` and no `]`, so the CDATA passes leave it alone. */
  lemma BracketPassesIdle(s: string)
    requires s == "&amp;lt;"
    ensures ReplaceAll(s, "<![CDATA[", "") == s && ReplaceAll(s, "]]>", "") == s
  {
    PassIdle(s, "<![CDATA[", "");
    PassIdle(s, "]]>", "");
  }

  lemma AmpPass(s: string, t: string)
    requires s == "&amp;lt;" && t == "&lt;"
    ensures ReplaceAll(s, "&amp;", "&") == t
  {
    assert "&amp;" <= s;
    assert s[5..] == "lt;";
    if Contains("lt;", "&amp;") {
      ContainsFirstChar("lt;", "&amp;");
    }
    ReplaceAbsent("lt;", "&amp;", "&");
  }

  lemma LtPass(t: string, u: string)
    requires t == "&lt;" && u == "<"
    ensures ReplaceAll(t, "&lt;", "<") == u
  {
  }

  function OpenTag(tag: string): string { "<" + tag + ">" }
  function CloseTag(tag: string): string { "</" + tag + ">" }

  /** `s` holds `pat` at offset `i`, compared without regard to ASCII letter case (the regex `i` flag). */
  predicate MatchesAt(s: string, pat: string, i: nat) {
    i <= |s| && PrefixIgnoringCase(pat, s[i..])
  }

  /** `pat` is a prefix of `s` up to ASCII letter case. */
  predicate PrefixIgnoringCase(pat: string, s: string) {
    |pat| <= |s| && (pat == [] || (LowerChar(pat[0]) == LowerChar(s[0]) && PrefixIgnoringCase(pat[1..], s[1..])))
  }

  /**
   * The regex `<tag>([\s\S]*?)</tag>` matches at `i` with its closing tag at `j`: the body is lazy, so
   * `j` is the first closing tag after the opening one.
   */
  predicate TagMatch(s: string, tag: string, i: nat, j: nat) {
    && MatchesAt(s, OpenTag(tag), i)
    && i + |OpenTag(tag)| <= j
    && MatchesAt(s, CloseTag(tag), j)
    && forall k :: i + |OpenTag(tag)| <= k < j ==> !MatchesAt(s, CloseTag(tag), k)
  }

  /** No match of the tag regex starts before `i`. */
  ghost predicate NoMatchBefore(s: string, tag: string, i: nat) {
    forall i': nat, j': nat :: i' < i ==> !TagMatch(s, tag, i', j')
  }

  lemma TagMatchUnique(s: string, tag: string, i: nat, j1: nat, j2: nat)
    requires TagMatch(s, tag, i, j1) && TagMatch(s, tag, i, j2)
    ensures j1 == j2
  {
  }

  /** The first closing tag at or after `k`. */
  function FindClose(s: string, tag: string, k: nat): (r: Option<nat>)
    ensures r.Some? ==> k <= r.value && r.value + |CloseTag(tag)| <= |s|
    decreases |s| - k
  {
    if k + |CloseTag(tag)| > |s| then None
    else if MatchesAt(s, CloseTag(tag), k) then Some(k)
    else FindClose(s, tag, k + 1)
  }

  lemma {:induction false} FindCloseFirst(s: string, tag: string, k: nat)
    ensures FindClose(s, tag, k).Some? ==> MatchesAt(s, CloseTag(tag), FindClose(s, tag, k).value)
    ensures FindClose(s, tag, k).Some? ==>
              forall m :: k <= m < FindClose(s, tag, k).value ==> !MatchesAt(s, CloseTag(tag), m)
    ensures FindClose(s, tag, k).None? ==> forall m :: k <= m ==> !MatchesAt(s, CloseTag(tag), m)
    decreases |s| - k
  {
    if k + |CloseTag(tag)| <= |s| && !MatchesAt(s, CloseTag(tag), k) {
      FindCloseFirst(s, tag, k + 1);
    }
  }

  /** Where a match of the tag regex sits: the offsets of its opening and of its closing tag. */
  datatype Span = Span(open: nat, close: nat)

  /** `RegExp.prototype.exec` from `lastIndex = from`: the leftmost match, trying each start in turn. */
  function FindTag(s: string, tag: string, from: nat): (r: Option<Span>)
    ensures r.Some? ==> from <= r.value.open && r.value.open + |OpenTag(tag)| <= r.value.close
    ensures r.Some? ==> r.value.close + |CloseTag(tag)| <= |s|
    decreases |s| - from
  {
    if from + |OpenTag(tag)| > |s| then None
    else if MatchesAt(s, OpenTag(tag), from) then
      match FindClose(s, tag, from + |OpenTag(tag)|)
      case Some(j) => Some(Span(from, j))
      case None => FindTag(s, tag, from + 1)
    else FindTag(s, tag, from + 1)
  }

  /** No match of the regex starts at `i` when `FindTag` moves past `i`. */
  lemma NoMatchAt(s: string, tag: string, i: nat)
    requires MatchesAt(s, OpenTag(tag), i) ==> FindClose(s, tag, i + |OpenTag(tag)|).None?
    ensures forall j: nat :: !TagMatch(s, tag, i, j)
  {
    FindCloseFirst(s, tag, i + |OpenTag(tag)|);
  }

  /** What `FindTag` finds is a match of the regex. */
  lemma {:induction false} FindTagMatches(s: string, tag: string, from: nat)
    requires FindTag(s, tag, from).Some?
    ensures TagMatch(s, tag, FindTag(s, tag, from).value.open, FindTag(s, tag, from).value.close)
    decreases |s| - from
  {
    var k := from + |OpenTag(tag)|;
    if MatchesAt(s, OpenTag(tag), from) && FindClose(s, tag, k).Some? {
      FindCloseFirst(s, tag, k);
    } else {
      FindTagMatches(s, tag, from + 1);
    }
  }

  /** No match of the regex starts between `from` and the one `FindTag` finds. */
  lemma {:induction false} FindTagLeftmost(s: string, tag: string, from: nat)
    requires FindTag(s, tag, from).Some?
    ensures forall i: nat, j: nat :: from <= i < FindTag(s, tag, from).value.open ==> !TagMatch(s, tag, i, j)
    decreases |s| - from
  {
    var k := from + |OpenTag(tag)|;
    if !(MatchesAt(s, OpenTag(tag), from) && FindClose(s, tag, k).Some?) {
      NoMatchAt(s, tag, from);
      FindTagLeftmost(s, tag, from + 1);
    }
  }

  /** When `FindTag` finds nothing, the regex matches nowhere from `from` on. */
  lemma {:induction false} FindTagNone(s: string, tag: string, from: nat)
    requires FindTag(s, tag, from).None?
    ensures forall i: nat, j: nat :: from <= i ==> !TagMatch(s, tag, i, j)
    decreases |s| - from
  {
    if from + |OpenTag(tag)| <= |s| {
      NoMatchAt(s, tag, from);
      FindTagNone(s, tag, from + 1);
    }
  }

  /** The leftmost match is the one `FindTag` finds from the start. */
  lemma LeftmostMatch(s: string, tag: string, i: nat, j: nat)
    requires TagMatch(s, tag, i, j) && NoMatchBefore(s, tag, i)
    ensures FindTag(s, tag, 0) == Some(Span(i, j))
  {
    var r := FindTag(s, tag, 0);
    if r.None? {
      FindTagNone(s, tag, 0);
    }
    FindTagMatches(s, tag, 0);
    FindTagLeftmost(s, tag, 0);
    assert !(r.value.open < i);
    TagMatchUnique(s, tag, i, j, r.value.close);
  }

  /** `block.match(re)?.[1]`: the raw body of the first match of the tag regex, if any. */
  function TagBody(block: string, tag: string): (r: Option<string>)
    ensures r.Some? ==> |r.value| <= |block|
  {
    match FindTag(block, tag, 0)
    case None => None
    case Some(sp) => Some(block[sp.open + |OpenTag(tag)|..sp.close])
  }

  /** There is a body exactly when the regex matches somewhere. */
  lemma TagBodyNone(block: string, tag: string)
    ensures TagBody(block, tag).None? <==> forall i: nat, j: nat :: !TagMatch(block, tag, i, j)
  {
    if FindTag(block, tag, 0).None? {
      FindTagNone(block, tag, 0);
    } else {
      FindTagMatches(block, tag, 0);
    }
  }

  /** The body found is the one between the leftmost opening tag and the first closing tag after it. */
  lemma TagBodyFirstMatch(block: string, tag: string, i: nat, j: nat)
    requires TagMatch(block, tag, i, j) && NoMatchBefore(block, tag, i)
    ensures TagBody(block, tag) == Some(block[i + |OpenTag(tag)|..j])
  {
    LeftmostMatch(block, tag, i, j);
  }

  /** `extractTag`: the decoded body of the first `<tag>…</tag>` in `block`, or the empty string. */
  function ExtractTag(block: string, tag: string): (r: string)
    ensures IsTrimmed(r)
    ensures TagBody(block, tag).None? ==> r == []
  {
    match TagBody(block, tag)
    case None => []
    case Some(body) => DecodeXml(body)
  }

  // ---------------------------------------------------------------------------------------------
  // One item

  /** `toXUrl`: the post's address on x.com, whichever mirror's host the link carried. */
  function ToXUrl(link: string, author: string, urlPath: string -> Option<string>): (r: string)
    ensures "https://x.com" <= r
    ensures urlPath(link).Some? ==> r == "https://x.com" + urlPath(link).value
    ensures urlPath(link).None? ==> r == "https://x.com/" + author
  {
    match urlPath(link)
    case Some(pathname) => "https://x.com" + pathname
    case None => "https://x.com/" + author
  }

  /** A repost or a reply, by its opening characters. */
  predicate IsRepost(text: string) {
    "RT @" <= text || "@" <= text
  }

  /** `Math.max(0, (now - published) / 3600000)`. */
  function HoursSince(published: int, now: int): (h: real)
    ensures h >= 0.0
    ensures published >= now ==> h == 0.0
  {
    if now - published > 0 then (now - published) as real / MS_PER_HOUR as real else 0.0
  }

  /** The ranking score: minus the age in hours plus 2 for each keyword in the lower-cased text. */
  function Score(text: string, published: int, now: int): real {
    -HoursSince(published, now) + 2.0 * (KeywordHits(Lower(text), KEYWORDS) as real)
  }

  /** One `<item>` block as `parseRss` handles it: the post it yields, or `None` when it is skipped. */
  function ParseItem(block: string, author: string, env: Env): (r: Option<ScoredPost>)
    ensures r.Some? <==>
              && ExtractTag(block, "title") != []
              && ExtractTag(block, "pubDate") != []
              && !IsRepost(ExtractTag(block, "title"))
              && env.parseDate(ExtractTag(block, "pubDate")).Some?
    ensures r.Some? ==> r.value.author == author && r.value.text == ExtractTag(block, "title")
    ensures r.Some? ==> Some(r.value.publishedAt) == env.parseDate(ExtractTag(block, "pubDate"))
    ensures r.Some? ==> Admissible(r.value, author)
  {
    var title := ExtractTag(block, "title");
    var link := ExtractTag(block, "link");
    var pubDate := ExtractTag(block, "pubDate");
    if title == [] || pubDate == [] then None
    else
      var text := Trim(title);
      if IsRepost(text) then None
      else
        match env.parseDate(pubDate)
        case None => None
        case Some(t) => Some(ScoredPost(author, text, ToXUrl(link, author, env.urlPath), t, Score(text, t, env.now)))
  }

  // ---------------------------------------------------------------------------------------------
  // The whole document

  /**
   * The bodies of the `<tag>` blocks from offset `from` on, in document order: what a global `exec`
   * loop visits, each search resuming after the previous closing tag.
   */
  function Blocks(xml: string, tag: string, from: nat): seq<string>
    requires from <= |xml|
    decreases |xml| - from
  {
    match FindTag(xml, tag, from)
    case None => []
    case Some(sp) => [xml[sp.open + |OpenTag(tag)|..sp.close]] + Blocks(xml, tag, sp.close + |CloseTag(tag)|)
  }

  lemma BlocksStep(xml: string, tag: string, from: nat, sp: Span)
    requires from <= |xml| && FindTag(xml, tag, from) == Some(sp)
    ensures Blocks(xml, tag, from)
         == [xml[sp.open + |OpenTag(tag)|..sp.close]] + Blocks(xml, tag, sp.close + |CloseTag(tag)|)
  {
  }

  lemma BlocksEnd(xml: string, tag: string, from: nat)
    requires from <= |xml| && FindTag(xml, tag, from).None?
    ensures Blocks(xml, tag, from) == []
  {
  }

  /** The posts of the blocks that are not skipped, in block order. */
  function ParseAll(blocks: seq<string>, author: string, env: Env): seq<ScoredPost> {
    if blocks == [] then []
    else
      ParseAll(blocks[..|blocks| - 1], author, env)
        + match ParseItem(blocks[|blocks| - 1], author, env) case Some(p) => [p] case None => []
  }

  lemma ParseAllSnoc(blocks: seq<string>, block: string, author: string, env: Env, post: Option<ScoredPost>)
    requires post == ParseItem(block, author, env)
    ensures ParseAll(blocks + [block], author, env)
         == ParseAll(blocks, author, env) + match post case Some(p) => [p] case None => []
  {
    assert (blocks + [block])[..|blocks|] == blocks;
  }

  /** What `parseRss` returns for a document. */
  function ParsedItems(xml: string, author: string, env: Env): seq<ScoredPost> {
    if xml == [] then [] else ParseAll(Blocks(xml, ITEM, 0), author, env)
  }

  /** A post that survives parsing has the account as author, some text, and is no repost. */
  predicate Admissible(p: ScoredPost, author: string) {
    p.author == author && p.text != [] && IsTrimmed(p.text) && !IsRepost(p.text)
  }

  lemma {:induction false} ParseAllAdmissible(blocks: seq<string>, author: string, env: Env)
    ensures |ParseAll(blocks, author, env)| <= |blocks|
    ensures forall p :: p in ParseAll(blocks, author, env) ==> Admissible(p, author)
  {
    if blocks != [] {
      var init := blocks[..|blocks| - 1];
      ParseAllAdmissible(init, author, env);
      var post := ParseItem(blocks[|blocks| - 1], author, env);
      var last := match post case Some(p) => [p] case None => [];
      assert ParseAll(blocks, author, env) == ParseAll(init, author, env) + last;
      if post.Some? {
        assert Admissible(post.value, author);
        assert last == [post.value];
      }
    }
  }

  /** Every post `parseRss` emits carries the account, has non-empty trimmed text and is no repost. */
  lemma ParsedItemsAdmissible(xml: string, author: string, env: Env)
    ensures forall p :: p in ParsedItems(xml, author, env) ==> Admissible(p, author)
  {
    if xml != [] {
      ParseAllAdmissible(Blocks(xml, ITEM, 0), author, env);
    }
  }

  /** `itemRe.exec(xml)` with the regex's `lastIndex`: the next `<item>` block and where the search resumes. */
  method ExecItem(xml: string, lastIndex: nat) returns (found: bool, block: string, next: nat)
    requires lastIndex <= |xml|
    ensures !found ==> Blocks(xml, ITEM, lastIndex) == []
    ensures found ==> lastIndex < next <= |xml| && Blocks(xml, ITEM, lastIndex) == [block] + Blocks(xml, ITEM, next)
  {
    var m := FindTag(xml, ITEM, lastIndex);
    if m.None? {
      return false, [], lastIndex;
    }
    block := xml[m.value.open + |OpenTag(ITEM)|..m.value.close];
    next := m.value.close + |CloseTag(ITEM)|;
    found := true;
  }

  /** The keyword loop of `parseRss`: 2 for each keyword contained in the lower-cased text. */
  method KeywordBonus(lowered: string) returns (bonus: real)
    ensures bonus == 2.0 * (KeywordHits(lowered, KEYWORDS) as real)
  {
    bonus := 0.0;
    for k := 0 to |KEYWORDS|
      invariant bonus == 2.0 * (KeywordHits(lowered, KEYWORDS[..k]) as real)
    {
      assert KEYWORDS[..k + 1][..k] == KEYWORDS[..k];
      if Contains(lowered, KEYWORDS[k]) {
        bonus := bonus + 2.0;
      }
    }
    assert KEYWORDS[..|KEYWORDS|] == KEYWORDS;
  }

  /** The body of `parseRss`'s loop for one block: the early `continue`s and the score. */
  method ParseBlock(block: string, author: string, env: Env) returns (post: Option<ScoredPost>)
    ensures post == ParseItem(block, author, env)
  {
    var title := ExtractTag(block, "title");
    var link := ExtractTag(block, "link");
    var pubDate := ExtractTag(block, "pubDate");
    if title == [] || pubDate == [] {
      return None;
    }
    var trimmedTitle := Trim(title);
    if IsRepost(trimmedTitle) {
      return None;
    }
    var published := env.parseDate(pubDate);
    if published.None? {
      return None;
    }
    var score := ScoreItem(trimmedTitle, published.value, env.now);
    post := Some(ScoredPost(author, trimmedTitle, ToXUrl(link, author, env.urlPath), published.value, score));
  }

  /** The scoring lines of `parseRss`: minus the clamped age, then the keyword loop. */
  method ScoreItem(trimmedTitle: string, published: int, now: int) returns (score: real)
    ensures score == Score(trimmedTitle, published, now)
  {
    var hoursSince := HoursSince(published, now);
    var bonus := KeywordBonus(Lower(trimmedTitle));
    score := -hoursSince + bonus;
  }

  /** `parseRss`: the regex `exec` loop over the `<item>` blocks, in document order. */
  method ParseRss(xml: string, author: string, env: Env) returns (items: seq<ScoredPost>)
    ensures items == ParsedItems(xml, author, env)
  {
    items := [];
    if xml == [] {
      return;
    }
    var lastIndex := 0;
    ghost var visited: seq<string> := [];
    while true
      invariant lastIndex <= |xml|
      invariant visited + Blocks(xml, ITEM, lastIndex) == Blocks(xml, ITEM, 0)
      invariant items == ParseAll(visited, author, env)
      decreases |xml| - lastIndex
    {
      var found, block, next := ExecItem(xml, lastIndex);
      if !found {
        assert visited == Blocks(xml, ITEM, 0);
        break;
      }
      assert (visited + [block]) + Blocks(xml, ITEM, next) == Blocks(xml, ITEM, 0);
      var post := ParseBlock(block, author, env);
      ParseAllSnoc(visited, block, author, env, post);
      items := items + match post case Some(p) => [p] case None => [];
      lastIndex := next;
      visited := visited + [block];
    }
  }

  // ---------------------------------------------------------------------------------------------
  // Scoring properties

  lemma KeywordsDistinct()
    ensures forall i, j :: 0 <= i < j < |KEYWORDS| ==> KEYWORDS[i] != KEYWORDS[j]
  {
  }

  /** Each keyword adds 2 at most once: the bonus is twice the number of distinct keywords present. */
  lemma ScoreCountsDistinctKeywords(text: string, published: int, now: int)
    ensures Score(text, published, now)
         == -HoursSince(published, now) + 2.0 * (|Found(KEYWORDS, k => Contains(Lower(text), k))| as real)
  {
    KeywordsDistinct();
    KeywordHitsDistinct(Lower(text), KEYWORDS);
  }

  /** A future-dated post is not penalised: its age counts as zero. */
  lemma FutureDatedScore(text: string, published: int, now: int)
    requires published >= now
    ensures Score(text, published, now) == 2.0 * (KeywordHits(Lower(text), KEYWORDS) as real)
  {
  }

  /** Of two posts with the same text, the newer one scores at least as high. */
  lemma ScoreFavoursRecent(text: string, older: int, newer: int, now: int)
    requires older <= newer
    ensures Score(text, older, now) <= Score(text, newer, now)
  {
  }

  /** A one-hour-old post outranks a 48-hour-old post without keywords. */
  lemma HourOldBeatsTwoDaysOld(recent: string, stale: string, now: int)
    requires KeywordHits(Lower(stale), KEYWORDS) == 0
    ensures Score(recent, now - MS_PER_HOUR, now) > Score(stale, now - 48 * MS_PER_HOUR, now)
  {
    assert HoursSince(now - MS_PER_HOUR, now) == 1.0;
    assert HoursSince(now - 48 * MS_PER_HOUR, now) == 48.0;
  }

  // ---------------------------------------------------------------------------------------------
  // Mirror fallback

  function FeedUrl(instance: string, username: string): string {
    "https://" + instance + "/" + username + "/rss"
  }

  /** The first mirror, in list order, whose reply is OK, with the document it served. */
  function FirstAnswer(username: string, instances: seq<string>, net: string -> Response): Option<Fetched> {
    if instances == [] then None
    else
      var res := net(FeedUrl(instances[0], username));
      if IsOk(res) then Some(Fetched(instances[0], res.body))
      else FirstAnswer(username, instances[1..], net)
  }

  /** Whether mirror `k` failed for `username`. */
  predicate FailedAt(username: string, instances: seq<string>, net: string -> Response, k: nat)
    requires k < |instances|
  {
    !IsOk(net(FeedUrl(instances[k], username)))
  }

  /**
   * `fetchFeed`: tries the mirrors in list order and stops at the first OK reply; it gives up only
   * when every mirror failed.
   */
  method FetchFeed(username: string, instances: seq<string>, net: string -> Response) returns (r: Option<Fetched>)
    ensures r == FirstAnswer(username, instances, net)
    ensures r.None? <==> forall k :: 0 <= k < |instances| ==> FailedAt(username, instances, net, k)
    ensures r.Some? ==> exists k :: 0 <= k < |instances| && !FailedAt(username, instances, net, k)
                           && r.value == Fetched(instances[k], net(FeedUrl(instances[k], username)).body)
                           && forall j :: 0 <= j < k ==> FailedAt(username, instances, net, j)
  {
    for i := 0 to |instances|
      invariant FirstAnswer(username, instances, net) == FirstAnswer(username, instances[i..], net)
      invariant forall j :: 0 <= j < i ==> FailedAt(username, instances, net, j)
    {
      assert instances[i..][1..] == instances[i + 1..];
      var res := net(FeedUrl(instances[i], username));
      if IsOk(res) {
        r := Some(Fetched(instances[i], res.body));
        assert !FailedAt(username, instances, net, i);
        return;
      }
    }
    r := None;
  }

  // ---------------------------------------------------------------------------------------------
  // Pooling, ranking and the snapshot

  /** What one account contributes: the posts of the first answering mirror's document, or nothing. */
  function AccountItems(account: string, instances: seq<string>, net: string -> Response, env: Env): seq<ScoredPost> {
    match FirstAnswer(account, instances, net)
    case None => []
    case Some(f) => ParsedItems(f.xml, account, env)
  }

  /** All accounts' posts, in account order. */
  function Pool(accounts: seq<string>, instances: seq<string>, net: string -> Response, env: Env): seq<ScoredPost> {
    if accounts == [] then []
    else Pool(accounts[..|accounts| - 1], instances, net, env) + AccountItems(accounts[|accounts| - 1], instances, net, env)
  }

  /** Some account got an OK reply from some mirror. */
  predicate AnyAnswered(accounts: seq<string>, instances: seq<string>, net: string -> Response) {
    exists i :: 0 <= i < |accounts| && FirstAnswer(accounts[i], instances, net).Some?
  }

  /** The comparator `(a, b) => b.score - a.score` leaves `a` first: higher scores first, ties stable. */
  predicate ScoreLe(a: ScoredPost, b: ScoredPost) {
    a.score >= b.score
  }

  lemma ScoreLeTotalPreorder()
    ensures TotalPreorder(ScoreLe)
  {
  }

  function Min(a: nat, b: nat): nat { if a <= b then a else b }

  /** The ranked posts that make the snapshot: sorted by score, cut to `TOP_N`. */
  function Top(pool: seq<ScoredPost>): seq<ScoredPost> {
    var ranked := SortBy(pool, ScoreLe);
    ranked[..Min(TOP_N, |ranked|)]
  }

  /** `({ score, ...item }) => ({ ...item, fetchedAt })`. */
  function Stamp(p: ScoredPost, fetchedAt: int): Post {
    Post(p.author, p.text, p.url, p.publishedAt, fetchedAt)
  }

  /** The payload written to ct-feed.json. */
  function Snapshot(pool: seq<ScoredPost>, fetchedAt: int): seq<Post> {
    var top := Top(pool);
    seq(|top|, i requires 0 <= i < |top| => Stamp(top[i], fetchedAt))
  }

  /** The snapshot holds at most three posts, all stamped with the one `fetchedAt`. */
  lemma SnapshotShape(pool: seq<ScoredPost>, fetchedAt: int)
    ensures |Snapshot(pool, fetchedAt)| == Min(TOP_N, |pool|) <= 3
    ensures forall i :: 0 <= i < |Snapshot(pool, fetchedAt)| ==> Snapshot(pool, fetchedAt)[i].fetchedAt == fetchedAt
  {
  }

  /**
   * The snapshot's posts are, in order, the best-scoring posts of the pool: their scores do not
   * increase, they come from the pool, and every post left out scores no higher than any kept one.
   */
  lemma TopIsBest(pool: seq<ScoredPost>)
    ensures forall i, j :: 0 <= i < j < |Top(pool)| ==> Top(pool)[i].score >= Top(pool)[j].score
    ensures multiset(Top(pool)) <= multiset(pool)
    ensures forall x, y :: x in multiset(pool) - multiset(Top(pool)) && y in Top(pool) ==> x.score <= y.score
  {
    var ranked := SortBy(pool, ScoreLe);
    var k := Min(TOP_N, |ranked|);
    var top, rest := ranked[..k], ranked[k..];
    assert Top(pool) == top;
    assert SortedBy(ranked, ScoreLe) by {
      ScoreLeTotalPreorder();
      SortBySorted(pool, ScoreLe);
    }
    assert ranked == top + rest;
    PrefixIsBest(ranked, top, rest);
  }

  /** A prefix of a ranking is in order, and what follows it scores no higher than anything in it. */
  lemma PrefixIsBest(ranked: seq<ScoredPost>, top: seq<ScoredPost>, rest: seq<ScoredPost>)
    requires SortedBy(ranked, ScoreLe) && ranked == top + rest
    ensures forall i, j :: 0 <= i < j < |top| ==> top[i].score >= top[j].score
    ensures multiset(top) <= multiset(ranked)
    ensures forall x, y :: x in multiset(ranked) - multiset(top) && y in top ==> x.score <= y.score
  {
    SortedSplit(ranked, |top|, ScoreLe);
    assert ranked[..|top|] == top && ranked[|top|..] == rest;
    assert multiset(ranked) == multiset(top) + multiset(rest);
    forall x, y | x in multiset(ranked) - multiset(top) && y in top
      ensures x.score <= y.score
    {
      assert x in rest;
      assert ScoreLe(y, x);
    }
  }

  /**
   * `run`: pools every account's posts; writes nothing when no mirror answered for any account, and
   * otherwise the snapshot of the pool, even an empty one.
   */
  method Run(accounts: seq<string>, instances: seq<string>, net: string -> Response, env: Env, fetchedAt: int)
    returns (written: Option<seq<Post>>)
    ensures written.None? <==> !AnyAnswered(accounts, instances, net)
    ensures written.Some? ==> written.value == Snapshot(Pool(accounts, instances, net, env), fetchedAt)
  {
    var allItems: seq<ScoredPost> := [];
    var anyInstanceSucceeded := false;
    for i := 0 to |accounts|
      invariant allItems == Pool(accounts[..i], instances, net, env)
      invariant anyInstanceSucceeded <==> AnyAnswered(accounts[..i], instances, net)
    {
      PoolStep(accounts, instances, net, env, i);
      var result := FetchFeed(accounts[i], instances, net);
      if result.None? {
        continue;
      }
      anyInstanceSucceeded := true;
      var items := ParseRss(result.value.xml, accounts[i], env);
      allItems := allItems + items;
    }
    assert accounts[..|accounts|] == accounts;
    if !anyInstanceSucceeded {
      return None;
    }
    written := Some(Snapshot(allItems, fetchedAt));
  }

  /** One more account adds its posts to the pool, and has answered or not. */
  lemma PoolStep(accounts: seq<string>, instances: seq<string>, net: string -> Response, env: Env, i: nat)
    requires i < |accounts|
    ensures Pool(accounts[..i + 1], instances, net, env)
         == Pool(accounts[..i], instances, net, env) + AccountItems(accounts[i], instances, net, env)
    ensures AnyAnswered(accounts[..i + 1], instances, net)
        <==> AnyAnswered(accounts[..i], instances, net) || FirstAnswer(accounts[i], instances, net).Some?
  {
    var before, after := accounts[..i], accounts[..i + 1];
    assert after[..i] == before && after[i] == accounts[i];
    if AnyAnswered(before, instances, net) {
      var j :| 0 <= j < |before| && FirstAnswer(before[j], instances, net).Some?;
      assert after[j] == before[j];
    }
    if AnyAnswered(after, instances, net) && FirstAnswer(accounts[i], instances, net).None? {
      var j :| 0 <= j < |after| && FirstAnswer(after[j], instances, net).Some?;
      assert before[j] == after[j];
    }
  }
}
