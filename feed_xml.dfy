/**
 * The RSS feed route (src/app/feed.xml/route.ts): the articles newest first, one `<item>` each,
 * with the headline and the subheadline escaped for XML.
 *
 * `new Date(publishedAt)` is the parameter `parse` (`None` for an invalid date) and
 * `Date.prototype.toUTCString` the parameter `toUtc`; the article list is an input.
 */
module FeedXml {
  import opened Wrappers
  import opened Text
  import opened Sorting
  import opened Articles

  const BASE_URL := "https://memedesk.vercel.app"

  // ---------------------------------------------------------------------------------------------
  // Escaping

  /** `escXml`: `&` first, then `<`, `>` and `"`, each replaced everywhere. */
  function EscXml(s: string): string {
    ReplaceAll(ReplaceAll(ReplaceAll(ReplaceAll(s, "&", "&amp;"), "<", "&lt;"), ">", "&gt;"), "\"", "&quot;")
  }

  /** What one character becomes. */
  function EscChar(c: char): string {
    if c == '&' then "&amp;"
    else if c == '<' then "&lt;"
    else if c == '>' then "&gt;"
    else if c == '"' then "&quot;"
    else [c]
  }

  /** Escaping character by character: the reference the chained replacements are compared to. */
  function EscEach(s: string): string {
    if s == [] then [] else EscChar(s[0]) + EscEach(s[1..])
  }

  lemma EscXmlAppend(a: string, b: string)
    ensures EscXml(a + b) == EscXml(a) + EscXml(b)
  {
    var a1, b1 := ReplaceAll(a, "&", "&amp;"), ReplaceAll(b, "&", "&amp;");
    ReplaceCharAppend(a, b, '&', "&amp;");
    var a2, b2 := ReplaceAll(a1, "<", "&lt;"), ReplaceAll(b1, "<", "&lt;");
    ReplaceCharAppend(a1, b1, '<', "&lt;");
    var a3, b3 := ReplaceAll(a2, ">", "&gt;"), ReplaceAll(b2, ">", "&gt;");
    ReplaceCharAppend(a2, b2, '>', "&gt;");
    ReplaceCharAppend(a3, b3, '"', "&quot;");
  }

  lemma EscXmlChar(c: char)
    ensures EscXml([c]) == EscChar(c)
  {
    var s1 := ReplaceAll([c], "&", "&amp;");
    assert s1 == (if c == '&' then "&amp;" else [c]) by {
      ReplaceOne(c, '&', "&amp;");
    }
    var s2 := ReplaceAll(s1, "<", "&lt;");
    assert s2 == (if c == '&' then "&amp;" else if c == '<' then "&lt;" else [c]) by {
      if c == '&' {
        ReplaceCharAbsent(s1, '<', "&lt;");
      } else {
        ReplaceOne(c, '<', "&lt;");
      }
    }
    var s3 := ReplaceAll(s2, ">", "&gt;");
    assert s3 == (if c == '&' then "&amp;" else if c == '<' then "&lt;" else if c == '>' then "&gt;" else [c]) by {
      if c == '&' || c == '<' {
        ReplaceCharAbsent(s2, '>', "&gt;");
      } else {
        ReplaceOne(c, '>', "&gt;");
      }
    }
    if c == '&' || c == '<' || c == '>' {
      ReplaceCharAbsent(s3, '"', "&quot;");
    } else {
      ReplaceOne(c, '"', "&quot;");
    }
  }

  lemma ReplaceOne(c: char, d: char, rep: string)
    ensures ReplaceAll([c], [d], rep) == if c == d then rep else [c]
  {
    if c == d {
      assert [d] <= [c];
      assert [c][1..] == [];
    } else {
      assert [c][0] != [d][0];
    }
  }

  /** The four chained replacements escape each character on its own. */
  lemma {:induction false} EscXmlEach(s: string)
    ensures EscXml(s) == EscEach(s)
  {
    if s != [] {
      assert s == [s[0]] + s[1..];
      EscXmlAppend([s[0]], s[1..]);
      EscXmlChar(s[0]);
      EscXmlEach(s[1..]);
    }
  }

  /** The output has no raw `<`, `>` or `"`. */
  lemma EscapedNoMarkup(s: string)
    ensures forall c :: c in EscXml(s) ==> c != '<' && c != '>' && c != '"'
  {
    EscXmlEach(s);
    EachNoMarkup(s);
  }

  lemma {:induction false} EachNoMarkup(s: string)
    ensures forall c :: c in EscEach(s) ==> c != '<' && c != '>' && c != '"'
  {
    if s != [] {
      EachNoMarkup(s[1..]);
    }
  }

  /** `t` starts with one of the four entities the escape writes. */
  predicate StartsEntity(t: string) {
    "&amp;" <= t || "&lt;" <= t || "&gt;" <= t || "&quot;" <= t
  }

  predicate AmpersandsStartEntities(r: string) {
    forall i :: 0 <= i < |r| && r[i] == '&' ==> StartsEntity(r[i..])
  }

  /** Because `&` is replaced first, every `&` of the output begins an entity. */
  lemma EscapedEntities(s: string)
    ensures AmpersandsStartEntities(EscXml(s))
  {
    EscXmlEach(s);
    EachEntities(s);
  }

  lemma {:induction false} EachEntities(s: string)
    ensures AmpersandsStartEntities(EscEach(s))
  {
    if s != [] {
      EachEntities(s[1..]);
      var head, tail := EscChar(s[0]), EscEach(s[1..]);
      forall i | 0 <= i < |head + tail| && (head + tail)[i] == '&'
        ensures StartsEntity((head + tail)[i..])
      {
        if i < |head| {
          assert i == 0;
          assert (head + tail)[i..] == head + tail;
        } else {
          assert (head + tail)[i..] == tail[i - |head|..];
        }
      }
    }
  }

  /** Text without the four special characters, apostrophes included, is left as it is. */
  lemma EscapePlain(s: string)
    requires forall c :: c in s ==> c != '&' && c != '<' && c != '>' && c != '"'
    ensures EscXml(s) == s
  {
    EscXmlEach(s);
    EachPlain(s);
  }

  lemma {:induction false} EachPlain(s: string)
    requires forall c :: c in s ==> c != '&' && c != '<' && c != '>' && c != '"'
    ensures EscEach(s) == s
  {
    if s != [] {
      assert s[0] in s;
      assert forall c :: c in s[1..] ==> c in s;
      EachPlain(s[1..]);
      assert s == [s[0]] + s[1..];
    }
  }

  // ---------------------------------------------------------------------------------------------
  // Order

  /**
   * The comparator `(a, b) => time(b) - time(a)` as "`a` may stay before `b`": the difference is
   * not positive; with an invalid date it is NaN, which is not positive either.
   */
  function NewerFirst(parse: string -> Option<int>): (Article, Article) -> bool {
    (a: Article, b: Article) =>
      var ta, tb := parse(a.publishedAt), parse(b.publishedAt);
      ta.None? || tb.None? || ta.value >= tb.value
  }

  /** `[...articles].sort(...)`: a sorted copy. */
  function Sorted(articles: seq<Article>, parse: string -> Option<int>): (r: seq<Article>)
    ensures multiset(r) == multiset(articles)
  {
    SortBy(articles, NewerFirst(parse))
  }

  /** When every date is valid, the feed runs from the newest article to the oldest. */
  lemma NewestFirst(articles: seq<Article>, parse: string -> Option<int>)
    requires forall a :: a in articles ==> parse(a.publishedAt).Some?
    ensures var r := Sorted(articles, parse);
            forall i, j :: 0 <= i < j < |r| ==>
              var ti, tj := parse(r[i].publishedAt), parse(r[j].publishedAt);
              ti.Some? && tj.Some? && ti.value >= tj.value
  {
    var le := NewerFirst(parse);
    SortBySortedOn(articles, le);
    var r := Sorted(articles, parse);
    forall i, j | 0 <= i < j < |r|
      ensures var ti, tj := parse(r[i].publishedAt), parse(r[j].publishedAt);
              ti.Some? && tj.Some? && ti.value >= tj.value
    {
      assert r[i] in multiset(articles) && r[j] in multiset(articles);
      assert le(r[i], r[j]);
    }
  }

  // ---------------------------------------------------------------------------------------------
  // Items

  function ArticleLink(slug: string): string {
    BASE_URL + "/articles/" + slug
  }

  function LinkElement(slug: string): string {
    "<link>" + ArticleLink(slug) + "</link>"
  }

  function GuidElement(slug: string): string {
    "<guid isPermaLink=\"true\">" + ArticleLink(slug) + "</guid>"
  }

  /** `new Date(publishedAt).toUTCString()`: `Invalid Date` for an invalid date. */
  function PubDate(publishedAt: string, parse: string -> Option<int>, toUtc: int -> string): string {
    match parse(publishedAt)
    case None => "Invalid Date"
    case Some(t) => toUtc(t)
  }

  /** The lines before the link: the escaped headline and subheadline. */
  function ItemHead(a: Article): string {
    "    <item>\n      <title>" + EscXml(a.headline) + "</title>\n      <description>" + EscXml(a.subheadline) + "</description>\n      "
  }

  /** The lines after the link. */
  function ItemRest(a: Article, parse: string -> Option<int>, toUtc: int -> string): string {
    "\n      " + GuidElement(a.slug) + ("\n      <pubDate>" + PubDate(a.publishedAt, parse, toUtc) + "</pubDate>\n    </item>")
  }

  /** The `<item>` block of one article. */
  function ItemXml(a: Article, parse: string -> Option<int>, toUtc: int -> string): string {
    ItemHead(a) + LinkElement(a.slug) + ItemRest(a, parse, toUtc)
  }

  /** `join('\n')`. */
  function JoinLines(xs: seq<string>): string {
    if xs == [] then []
    else if |xs| == 1 then xs[0]
    else JoinLines(xs[..|xs| - 1]) + "\n" + xs[|xs| - 1]
  }

  /** `sorted.map(...)`. */
  function Items(sorted: seq<Article>, parse: string -> Option<int>, toUtc: int -> string): seq<string> {
    seq(|sorted|, k requires 0 <= k < |sorted| => ItemXml(sorted[k], parse, toUtc))
  }

  const FEED_HEAD := "<?xml version=\"1.0\" encoding=\"UTF-8\"?>\n<rss version=\"2.0\" xmlns:atom=\"http://www.w3.org/2005/Atom\">\n  <channel>\n    <title>MemeDesk</title>\n    <description>The Signal in the Noise — editorial-quality memecoin coverage</description>\n    <link>" + BASE_URL + "</link>\n    <atom:link href=\"" + BASE_URL + "/feed.xml\" rel=\"self\" type=\"application/rss+xml\"/>\n    <language>en</language>\n"
  const FEED_TAIL := "\n  </channel>\n</rss>"

  /** The response body. */
  function Feed(articles: seq<Article>, parse: string -> Option<int>, toUtc: int -> string): string {
    FEED_HEAD + JoinLines(Items(Sorted(articles, parse), parse, toUtc)) + FEED_TAIL
  }

  /** Each item links to the article page, and its permalink `guid` is that same address. */
  lemma ItemLinks(a: Article, parse: string -> Option<int>, toUtc: int -> string)
    ensures var url := BASE_URL + "/articles/" + a.slug;
            && Contains(ItemXml(a, parse, toUtc), "<link>" + url + "</link>")
            && Contains(ItemXml(a, parse, toUtc), "<guid isPermaLink=\"true\">" + url + "</guid>")
  {
    var head, link, guid := ItemHead(a), LinkElement(a.slug), GuidElement(a.slug);
    var rest := ItemRest(a, parse, toUtc);
    var tail := "\n      <pubDate>" + PubDate(a.publishedAt, parse, toUtc) + "</pubDate>\n    </item>";
    assert Contains(link, link) && Contains(guid, guid);
    ContainsAfter(head, link, link);
    ContainsBefore(head + link, rest, link);
    ContainsAfter("\n      ", guid, guid);
    ContainsBefore("\n      " + guid, tail, guid);
    ContainsAfter(head + link, rest, guid);
  }

  /** The feed holds the item of every article. */
  lemma OneItemPerArticle(articles: seq<Article>, parse: string -> Option<int>, toUtc: int -> string, a: Article)
    requires a in articles
    ensures Contains(Feed(articles, parse, toUtc), ItemXml(a, parse, toUtc))
  {
    var sorted := Sorted(articles, parse);
    assert a in multiset(sorted);
    var k :| 0 <= k < |sorted| && sorted[k] == a;
    var items := Items(sorted, parse, toUtc);
    var joined := JoinLines(items);
    JoinContains(items, k);
    ContainsAfter(FEED_HEAD, joined, items[k]);
    ContainsBefore(FEED_HEAD + joined, FEED_TAIL, items[k]);
  }

  /** The joined text holds every element. */
  lemma {:induction false} JoinContains(xs: seq<string>, k: nat)
    requires k < |xs|
    ensures Contains(JoinLines(xs), xs[k])
  {
    var x := xs[k];
    assert Contains(x, x);
    if |xs| > 1 {
      var init, last := xs[..|xs| - 1], xs[|xs| - 1];
      if k == |xs| - 1 {
        ContainsAfter(JoinLines(init) + "\n", x, x);
      } else {
        JoinContains(init, k);
        ContainsBefore(JoinLines(init), "\n", x);
        ContainsBefore(JoinLines(init) + "\n", last, x);
      }
    }
  }
}
