/**
 * Tag pages (src/lib/tags.ts): the slug of a tag, the slug-to-tag lookup, the tag index with its
 * article counts, the articles carrying a tag, and the URL of an article.
 *
 * The article list is a parameter; reading it from disk is not part of this model.
 */
module Tags {
  import opened Wrappers
  import opened Text
  import opened Seqs
  import opened Sorting
  import opened Articles

  // ---------------------------------------------------------------------------------------------
  // Slugs

  /** The class `[a-z0-9\s-]` that survives the first `replace`. */
  predicate KeptInSlug(c: char) {
    IsLowerAlnum(c) || IsWs(c) || c == '-'
  }

  /**
   * `tagToSlug`: lower-case, drop everything outside `[a-z0-9\s-]`, trim, turn each run of
   * whitespace into one hyphen, collapse runs of hyphens, and drop one hyphen at each end.
   */
  function TagToSlug(tag: string): string {
    var kept := Filter(Lower(tag), KeptInSlug);
    var hyphenated := CollapseRuns(Trim(kept), IsWs, '-');
    StripEdgeHyphens(CollapseRuns(hyphenated, IsHyphen, '-'))
  }

  /** Every slug is `[a-z0-9-]` only, without `--` and without a hyphen at either end. */
  lemma TagToSlugIsSlug(tag: string)
    ensures IsSlug(TagToSlug(tag))
  {
    var kept := Filter(Lower(tag), KeptInSlug);
    var trimmed := Trim(kept);
    var hyphenated := CollapseRuns(trimmed, IsWs, '-');
    var collapsed := CollapseRuns(hyphenated, IsHyphen, '-');
    TrimChars(kept);
    CollapseRunsShape(trimmed, IsWs, '-');
    CollapseRunsShape(hyphenated, IsHyphen, '-');
    forall i | 0 <= i < |collapsed|
      ensures IsLowerAlnum(collapsed[i]) || collapsed[i] == '-'
    {
      var c := collapsed[i];
      assert c in collapsed;
      if c != '-' {
        assert c in hyphenated;
        assert c in trimmed && !IsWs(c);
        assert c in kept;
        var k :| 0 <= k < |kept| && kept[k] == c;
        assert KeptInSlug(c);
      }
    }
    StripEdgeHyphensIsSlug(collapsed);
  }

  /** A slug is its own slug. */
  lemma SlugFixpoint(s: string)
    requires IsSlug(s)
    ensures TagToSlug(s) == s
  {
    SlugStagesIdle(s);
  }

  /** Each stage of `tagToSlug` leaves a slug as it is. */
  lemma SlugStagesIdle(s: string)
    requires IsSlug(s)
    ensures Filter(Lower(s), KeptInSlug) == s
    ensures Trim(s) == s
    ensures CollapseRuns(s, IsWs, '-') == s
    ensures CollapseRuns(s, IsHyphen, '-') == s
    ensures StripEdgeHyphens(s) == s
  {
    SlugKept(s);
    SlugHasNoWhitespace(s);
    SlugHyphensSingle(s);
  }

  lemma SlugHyphensSingle(s: string)
    requires IsSlug(s)
    ensures CollapseRuns(s, IsHyphen, '-') == s
    ensures StripEdgeHyphens(s) == s
  {
    CollapseRunsSingles(s, IsHyphen, '-');
  }

  lemma SlugKept(s: string)
    requires IsSlug(s)
    ensures Filter(Lower(s), KeptInSlug) == s
  {
    LowerOfLowercase(s);
    FilterAll(s, KeptInSlug);
  }

  lemma SlugHasNoWhitespace(s: string)
    requires IsSlug(s)
    ensures Trim(s) == s
    ensures CollapseRuns(s, IsWs, '-') == s
  {
    assert forall i :: 0 <= i < |s| ==> !IsWs(s[i]);
    CollapseRunsAbsent(s, IsWs, '-');
  }

  /** Slugging a slug changes nothing. */
  lemma TagToSlugIdempotent(tag: string)
    ensures TagToSlug(TagToSlug(tag)) == TagToSlug(tag)
  {
    TagToSlugIsSlug(tag);
    SlugFixpoint(TagToSlug(tag));
  }

  /**
   * A character outside `[a-z0-9\s-]` after lower-casing, such as the period of "Pump.fun", is
   * deleted rather than turned into a hyphen: "Pump.fun" and "Pumpfun" share the slug `pumpfun`.
   */
  lemma PunctuationDropped(a: string, c: char, b: string)
    requires !KeptInSlug(LowerChar(c))
    ensures TagToSlug(a + [c] + b) == TagToSlug(a + b)
  {
    KeptDropsPunctuation(a, c, b);
  }

  lemma KeptDropsPunctuation(a: string, c: char, b: string)
    requires !KeptInSlug(LowerChar(c))
    ensures Filter(Lower(a + [c] + b), KeptInSlug) == Filter(Lower(a + b), KeptInSlug)
  {
    LowerAppend(a + [c], b);
    LowerAppend(a, [c]);
    LowerAppend(a, b);
    assert Lower([c]) == [LowerChar(c)];
    FilterAppend(Lower(a) + [LowerChar(c)], Lower(b), KeptInSlug);
    FilterAppend(Lower(a), [LowerChar(c)], KeptInSlug);
    FilterAppend(Lower(a), Lower(b), KeptInSlug);
  }

  // ---------------------------------------------------------------------------------------------
  // Slug to tag

  /** Every tag of every article, article by article, each article's tags in order. */
  function AllTags(articles: seq<Article>): seq<string> {
    if articles == [] then [] else AllTags(articles[..|articles| - 1]) + articles[|articles| - 1].tags
  }

  lemma AllTagsSnoc(articles: seq<Article>, i: nat)
    requires i < |articles|
    ensures AllTags(articles[..i + 1]) == AllTags(articles[..i]) + articles[i].tags
  {
    assert articles[..i + 1][..i] == articles[..i];
  }

  /** A tag is listed exactly when some article carries it. */
  lemma {:induction false} AllTagsMembers(articles: seq<Article>, t: string)
    ensures t in AllTags(articles) <==> exists a :: a in articles && t in a.tags
  {
    if articles != [] {
      var init := articles[..|articles| - 1];
      AllTagsMembers(init, t);
      assert articles == init + [articles[|articles| - 1]];
    }
  }

  /**
   * The map after the tags of `tags` were visited in order, each under its key: the first tag of
   * each key wins. The map of `buildSlugToTagMap` is `FirstBy(AllTags(articles), TagToSlug)`.
   */
  function FirstBy(tags: seq<string>, key: string -> string): map<string, string> {
    if tags == [] then map[]
    else
      var m := FirstBy(tags[..|tags| - 1], key);
      var k := key(tags[|tags| - 1]);
      if k in m then m else m[k := tags[|tags| - 1]]
  }

  lemma FirstBySnoc(xs: seq<string>, t: string, key: string -> string)
    ensures FirstBy(xs + [t], key) == if key(t) in FirstBy(xs, key) then FirstBy(xs, key) else FirstBy(xs, key)[key(t) := t]
  {
    assert (xs + [t])[..|xs|] == xs;
  }

  /** The keys are the keys of the tags, and each maps to a tag with that key. */
  lemma {:induction false} FirstByKeys(tags: seq<string>, key: string -> string)
    ensures FirstBy(tags, key).Keys == set t | t in tags :: key(t)
    ensures forall k :: k in FirstBy(tags, key) ==> FirstBy(tags, key)[k] in tags && key(FirstBy(tags, key)[k]) == k
  {
    if tags != [] {
      var init := tags[..|tags| - 1];
      FirstByKeys(init, key);
      assert tags == init + [tags[|tags| - 1]];
    }
  }

  /** Each key maps to the first tag, in visiting order, that has it. */
  lemma {:induction false} FirstByFirst(tags: seq<string>, key: string -> string, i: nat)
    requires i < |tags|
    requires forall j :: 0 <= j < i ==> key(tags[j]) != key(tags[i])
    ensures key(tags[i]) in FirstBy(tags, key)
    ensures FirstBy(tags, key)[key(tags[i])] == tags[i]
  {
    var init := tags[..|tags| - 1];
    if i == |tags| - 1 {
      FirstByKeys(init, key);
    } else {
      assert init[i] == tags[i];
      forall j | 0 <= j < i
        ensures key(init[j]) != key(init[i])
      {
        assert init[j] == tags[j];
      }
      FirstByFirst(init, key, i);
    }
  }

  /** Tags visited later never replace an entry. */
  lemma {:induction false} FirstByStable(xs: seq<string>, ys: seq<string>, key: string -> string, k: string)
    requires k in FirstBy(xs, key)
    ensures k in FirstBy(xs + ys, key) && FirstBy(xs + ys, key)[k] == FirstBy(xs, key)[k]
  {
    if ys != [] {
      var init := ys[..|ys| - 1];
      FirstByStable(xs, init, key, k);
      FirstBySnoc(xs + init, ys[|ys| - 1], key);
      assert xs + ys == xs + init + [ys[|ys| - 1]];
    } else {
      assert xs + ys == xs;
    }
  }

  /** The first position whose tag has the key. */
  lemma FirstIndex(tags: seq<string>, key: string -> string, k: string) returns (i: nat)
    requires exists t :: t in tags && key(t) == k
    ensures i < |tags| && key(tags[i]) == k
    ensures forall j :: 0 <= j < i ==> key(tags[j]) != k
  {
    var t :| t in tags && key(t) == k;
    var last :| 0 <= last < |tags| && tags[last] == t;
    i := 0;
    while key(tags[i]) != k
      invariant i <= last
      invariant forall j :: 0 <= j < i ==> key(tags[j]) != k
      decreases last - i
    {
      i := i + 1;
    }
  }

  /** `buildSlugToTagMap`: visits every tag of every article and keeps the first tag seen for each slug. */
  method BuildSlugToTagMap(articles: seq<Article>) returns (m: map<string, string>)
    ensures m == FirstBy(AllTags(articles), TagToSlug)
  {
    m := map[];
    for i := 0 to |articles|
      invariant m == FirstBy(AllTags(articles[..i]), TagToSlug)
    {
      var tags := articles[i].tags;
      PrefixEnds(AllTags(articles[..i]), tags);
      for j := 0 to |tags|
        invariant m == FirstBy(AllTags(articles[..i]) + tags[..j], TagToSlug)
      {
        var slug := TagToSlug(tags[j]);
        FirstBySnoc(AllTags(articles[..i]) + tags[..j], tags[j], TagToSlug);
        PrefixStep(AllTags(articles[..i]), tags, j);
        if slug !in m {
          m := m[slug := tags[j]];
        }
      }
      AllTagsSnoc(articles, i);
    }
    assert articles[..|articles|] == articles;
  }

  /** The answer of `slugToTag` for the given articles; `None` stands for `null`. */
  function TagForSlug(articles: seq<Article>, slug: string): Option<string> {
    var m := FirstBy(AllTags(articles), TagToSlug);
    if slug in m then Some(m[slug]) else None
  }

  /** `slugToTag`. */
  method SlugToTag(articles: seq<Article>, slug: string) returns (tag: Option<string>)
    ensures tag == TagForSlug(articles, slug)
  {
    var m := BuildSlugToTagMap(articles);
    tag := if slug in m then Some(m[slug]) else None;
  }

  /**
   * A slug is known exactly when some article has a tag with that slug; the answer is then the
   * first such tag, in article-then-tag order.
   */
  lemma TagForSlugFound(articles: seq<Article>, slug: string)
    ensures TagForSlug(articles, slug).Some? <==> exists t :: t in AllTags(articles) && TagToSlug(t) == slug
    ensures TagForSlug(articles, slug).Some? ==>
              var tags := AllTags(articles);
              exists i :: 0 <= i < |tags| && tags[i] == TagForSlug(articles, slug).value && TagToSlug(tags[i]) == slug &&
                forall j :: 0 <= j < i ==> TagToSlug(tags[j]) != slug
  {
    FirstByFound(AllTags(articles), TagToSlug, slug);
  }

  /** A key has an entry exactly when some tag has it, and the entry is the first such tag. */
  lemma FirstByFound(tags: seq<string>, key: string -> string, k: string)
    ensures k in FirstBy(tags, key) <==> exists t :: t in tags && key(t) == k
    ensures k in FirstBy(tags, key) ==>
              exists i :: 0 <= i < |tags| && tags[i] == FirstBy(tags, key)[k] && key(tags[i]) == k &&
                forall j :: 0 <= j < i ==> key(tags[j]) != k
  {
    FirstByKeys(tags, key);
    if k in FirstBy(tags, key) {
      var i := FirstIndex(tags, key, k);
      FirstByFirst(tags, key, i);
    }
  }

  /** Slugging a listed tag and looking the slug up gives back a tag with the same slug. */
  lemma SlugRoundTrip(articles: seq<Article>, t: string)
    requires t in AllTags(articles)
    ensures TagForSlug(articles, TagToSlug(t)).Some?
    ensures TagToSlug(TagForSlug(articles, TagToSlug(t)).value) == TagToSlug(t)
  {
    FirstByKeys(AllTags(articles), TagToSlug);
  }

  // ---------------------------------------------------------------------------------------------
  // Articles by tag

  /** `article.tags.some((t) => tagToSlug(t) === slug)`. */
  predicate HasSlug(a: Article, slug: string) {
    exists k :: 0 <= k < |a.tags| && TagToSlug(a.tags[k]) == slug
  }

  /** The articles with a tag of that slug, in their original order. */
  function WithSlug(articles: seq<Article>, slug: string): seq<Article> {
    Filter(articles, a => HasSlug(a, slug))
  }

  /**
   * `getArticlesByTag`: nothing for a slug no tag has; otherwise the articles with a tag of that
   * slug. A first tag that is the empty string is falsy too, and also gives nothing.
   */
  method GetArticlesByTag(articles: seq<Article>, slug: string) returns (result: seq<Article>)
    ensures TagForSlug(articles, slug) != Some([]) ==> result == WithSlug(articles, slug)
    ensures TagForSlug(articles, slug) == Some([]) ==> result == []
  {
    var tagName := SlugToTag(articles, slug);
    if tagName.None? || tagName.value == [] {
      if tagName.None? {
        WithSlugUnknown(articles, slug);
      }
      return [];
    }
    result := Filter(articles, a => HasSlug(a, slug));
  }

  /** An unknown slug selects no article, so the `null` guard agrees with the filter. */
  lemma WithSlugUnknown(articles: seq<Article>, slug: string)
    requires TagForSlug(articles, slug).None?
    ensures WithSlug(articles, slug) == []
  {
    var r := WithSlug(articles, slug);
    if r != [] {
      var a := r[0];
      assert a in articles && HasSlug(a, slug);
      var k :| 0 <= k < |a.tags| && TagToSlug(a.tags[k]) == slug;
      AllTagsMembers(articles, a.tags[k]);
      FirstByKeys(AllTags(articles), TagToSlug);
    }
  }

  /** An article is selected exactly when it is in the list and has a tag of that slug. */
  lemma WithSlugMembers(articles: seq<Article>, slug: string, a: Article)
    ensures a in WithSlug(articles, slug) <==> a in articles && HasSlug(a, slug)
  {
    var r := WithSlug(articles, slug);
    if a in r {
      var k :| 0 <= k < |r| && r[k] == a;
    }
    if a in articles && HasSlug(a, slug) {
      var k :| 0 <= k < |articles| && articles[k] == a;
    }
  }

  // ---------------------------------------------------------------------------------------------
  // The tag index

  /** An entry of the result of `getAllTags`. */
  datatype TagInfo = TagInfo(tag: string, slug: string, count: nat)

  /** A value of the `counts` map: the first tag seen for the slug and how often the slug occurred. */
  datatype Counted = Counted(tag: string, count: nat)

  /** The `counts` map, with the insertion order a JavaScript `Map` keeps. */
  datatype Tally = Tally(counts: map<string, Counted>, order: seq<string>)

  /** The tally after the tags of `tags` were visited in order, each under its key. */
  function TallyOf(tags: seq<string>, key: string -> string): Tally {
    if tags == [] then Tally(map[], [])
    else
      Bump(TallyOf(tags[..|tags| - 1], key), key(tags[|tags| - 1]), tags[|tags| - 1])
  }

  /** One visit: a known slug counts one more, a new one starts at one with this tag and goes last. */
  function Bump(t: Tally, slug: string, tag: string): Tally {
    if slug in t.counts then Tally(t.counts[slug := t.counts[slug].(count := t.counts[slug].count + 1)], t.order)
    else Tally(t.counts[slug := Counted(tag, 1)], t.order + [slug])
  }

  /** The loop body of `getAllTags`: bump the entry of an existing slug, or add one. */
  method Visit(counts: map<string, Counted>, order: seq<string>, slug: string, tag: string)
    returns (counts': map<string, Counted>, order': seq<string>)
    ensures Tally(counts', order') == Bump(Tally(counts, order), slug, tag)
  {
    counts', order' := counts, order;
    if slug in counts' {
      counts' := counts'[slug := counts'[slug].(count := counts'[slug].count + 1)];
    } else {
      counts' := counts'[slug := Counted(tag, 1)];
      order' := order' + [slug];
    }
  }

  lemma TallySnoc(xs: seq<string>, tag: string, key: string -> string)
    ensures TallyOf(xs + [tag], key) == Bump(TallyOf(xs, key), key(tag), tag)
  {
    assert (xs + [tag])[..|xs|] == xs;
  }

  /** How many of `tags` have the key. */
  function CountKey(tags: seq<string>, key: string -> string, k: string): nat {
    if tags == [] then 0
    else CountKey(tags[..|tags| - 1], key, k) + (if key(tags[|tags| - 1]) == k then 1 else 0)
  }

  /** A key that no tag has is counted zero times. */
  lemma {:induction false} CountKeyAbsent(tags: seq<string>, key: string -> string, k: string)
    requires k !in FirstBy(tags, key)
    ensures CountKey(tags, key, k) == 0
  {
    if tags != [] {
      var init := tags[..|tags| - 1];
      FirstBySnoc(init, tags[|tags| - 1], key);
      assert tags == init + [tags[|tags| - 1]];
      CountKeyAbsent(init, key, k);
    }
  }

  predicate Distinct<T(==)>(s: seq<T>) {
    forall i, j :: 0 <= i < j < |s| ==> s[i] != s[j]
  }

  /**
   * The insertion order lists each key of the tags once; each key holds the first tag that had it,
   * the one `FirstBy` keeps, and the number of tags with that key.
   */
  lemma {:induction false} TallyFacts(tags: seq<string>, key: string -> string)
    ensures Distinct(TallyOf(tags, key).order)
    ensures TallyOf(tags, key).counts.Keys == (set s | s in TallyOf(tags, key).order) == FirstBy(tags, key).Keys
    ensures forall s :: s in TallyOf(tags, key).counts ==>
              TallyOf(tags, key).counts[s] == Counted(FirstBy(tags, key)[s], CountKey(tags, key, s))
  {
    if tags != [] {
      var init := tags[..|tags| - 1];
      TallyFacts(init, key);
      var last := tags[|tags| - 1];
      var k := key(last);
      var t := TallyOf(init, key);
      assert tags == init + [last];
      TallySnoc(init, last, key);
      FirstBySnoc(init, last, key);
      if k !in t.counts {
        assert k !in t.order;
        CountKeyAbsent(init, key, k);
      }
      forall s | s in TallyOf(tags, key).counts
        ensures TallyOf(tags, key).counts[s] == Counted(FirstBy(tags, key)[s], CountKey(tags, key, s))
      {
        assert CountKey(tags, key, s) == CountKey(init, key, s) + (if k == s then 1 else 0);
      }
    }
  }

  /** The map's entries in insertion order, as `Array.from(counts.entries()).map(...)` lists them. */
  function Entries(t: Tally): seq<TagInfo>
    requires forall s :: s in t.order ==> s in t.counts
  {
    seq(|t.order|, k requires 0 <= k < |t.order| => TagInfo(t.counts[t.order[k]].tag, t.order[k], t.counts[t.order[k]].count))
  }

  /** The comparator `b.count - a.count || a.tag.localeCompare(b.tag)`: may `a` stay before `b`? */
  function InfoLe(a: TagInfo, b: TagInfo): bool {
    a.count > b.count || (a.count == b.count && StrLe(a.tag, b.tag))
  }

  lemma InfoLeTotalPreorder()
    ensures TotalPreorder(InfoLe)
  {
    forall a: TagInfo, b: TagInfo
      ensures InfoLe(a, b) || InfoLe(b, a)
    {
      StrLeTotal(a.tag, b.tag);
    }
    forall a: TagInfo, b: TagInfo, c: TagInfo | InfoLe(a, b) && InfoLe(b, c)
      ensures InfoLe(a, c)
    {
      if a.count == b.count == c.count {
        StrLeTrans(a.tag, b.tag, c.tag);
      }
    }
  }

  /** The tally's entries, most-used first, then by tag. */
  function Ranked(tags: seq<string>, key: string -> string): seq<TagInfo> {
    TallyFacts(tags, key);
    SortBy(Entries(TallyOf(tags, key)), InfoLe)
  }

  /** `getAllTags`. */
  method GetAllTags(articles: seq<Article>) returns (infos: seq<TagInfo>)
    ensures infos == Ranked(AllTags(articles), TagToSlug)
  {
    var counts: map<string, Counted> := map[];
    var order: seq<string> := [];
    for i := 0 to |articles|
      invariant Tally(counts, order) == TallyOf(AllTags(articles[..i]), TagToSlug)
    {
      var tags := articles[i].tags;
      PrefixEnds(AllTags(articles[..i]), tags);
      for j := 0 to |tags|
        invariant Tally(counts, order) == TallyOf(AllTags(articles[..i]) + tags[..j], TagToSlug)
      {
        var slug := TagToSlug(tags[j]);
        TallySnoc(AllTags(articles[..i]) + tags[..j], tags[j], TagToSlug);
        PrefixStep(AllTags(articles[..i]), tags, j);
        counts, order := Visit(counts, order, slug, tags[j]);
      }
      AllTagsSnoc(articles, i);
    }
    assert articles[..|articles|] == articles;
    TallyFacts(AllTags(articles), TagToSlug);
    infos := SortBy(Entries(Tally(counts, order)), InfoLe);
  }

  /** The ranking is a permutation of the tally's entries. */
  lemma RankedPermutes(tags: seq<string>, key: string -> string)
    ensures forall s :: s in TallyOf(tags, key).order ==> s in TallyOf(tags, key).counts
    ensures multiset(Ranked(tags, key)) == multiset(Entries(TallyOf(tags, key)))
  {
    TallyFacts(tags, key);
  }

  /** The ranking puts higher counts first and breaks ties by tag, in code-point order. */
  lemma RankedOrdered(tags: seq<string>, key: string -> string)
    ensures var r := Ranked(tags, key);
            forall i, j :: 0 <= i < j < |r| ==> r[i].count > r[j].count || (r[i].count == r[j].count && StrLe(r[i].tag, r[j].tag))
  {
    TallyFacts(tags, key);
    InfoLeTotalPreorder();
    SortBySorted(Entries(TallyOf(tags, key)), InfoLe);
  }

  /** Each entry holds a key of the tags, the first tag with that key, and how many tags have it. */
  lemma RankedEntries(tags: seq<string>, key: string -> string)
    ensures var r := Ranked(tags, key);
            forall e :: e in r ==> e.slug in FirstBy(tags, key) && e.tag == FirstBy(tags, key)[e.slug] && e.count == CountKey(tags, key, e.slug)
  {
    var t := TallyOf(tags, key);
    TallyFacts(tags, key);
    RankedPermutes(tags, key);
    var r := Ranked(tags, key);
    forall e | e in r
      ensures e in Entries(t)
    {
      assert e in multiset(r);
    }
  }

  /** Every key of a tag has an entry. */
  lemma RankedCovers(tags: seq<string>, key: string -> string)
    ensures var r := Ranked(tags, key);
            forall x :: x in tags ==> exists e :: e in r && e.slug == key(x)
  {
    var t := TallyOf(tags, key);
    TallyFacts(tags, key);
    FirstByKeys(tags, key);
    RankedPermutes(tags, key);
    var entries := Entries(t);
    var r := Ranked(tags, key);
    forall x | x in tags
      ensures exists e :: e in r && e.slug == key(x)
    {
      var s := key(x);
      assert s in FirstBy(tags, key).Keys;
      assert s in (set o | o in t.order);
      assert s in t.order;
      var k :| 0 <= k < |t.order| && t.order[k] == s;
      assert entries[k] in multiset(entries);
      assert entries[k] in r;
    }
  }

  /** No key has two entries. */
  lemma RankedDistinct(tags: seq<string>, key: string -> string)
    ensures var r := Ranked(tags, key);
            forall i, j :: 0 <= i < j < |r| ==> r[i].slug != r[j].slug
  {
    var t := TallyOf(tags, key);
    TallyFacts(tags, key);
    RankedPermutes(tags, key);
    var r := Ranked(tags, key);
    forall i, j | 0 <= i < j < |r|
      ensures r[i].slug != r[j].slug
    {
      DistinctSlugs(Entries(t), r, t, i, j);
    }
  }

  /** Distinct insertion order gives entries with distinct keys, and so does any permutation. */
  lemma DistinctSlugs(entries: seq<TagInfo>, r: seq<TagInfo>, t: Tally, i: nat, j: nat)
    requires forall s :: s in t.order ==> s in t.counts
    requires entries == Entries(t) && Distinct(t.order)
    requires multiset(r) == multiset(entries)
    requires i < j < |r|
    ensures r[i].slug != r[j].slug
  {
    if r[i].slug == r[j].slug {
      assert r[i] in multiset(entries) && r[j] in multiset(entries);
      var a :| 0 <= a < |entries| && entries[a] == r[i];
      var b :| 0 <= b < |entries| && entries[b] == r[j];
      assert t.order[a] == t.order[b];
      assert r[i] == r[j];
      assert multiset(r)[r[i]] >= 2 by {
        assert r == r[..i] + [r[i]] + r[i + 1..j] + [r[j]] + r[j + 1..];
      }
      forall k | 0 <= k < |entries| && k != a
        ensures entries[k] != entries[a]
      {
        assert t.order[k] != t.order[a];
      }
      OccursOnce(entries, a);
    }
  }

  /** An element that occurs at no other position occurs once. */
  lemma OccursOnce<T>(s: seq<T>, a: nat)
    requires a < |s|
    requires forall k :: 0 <= k < |s| && k != a ==> s[k] != s[a]
    ensures multiset(s)[s[a]] == 1
  {
    assert s == s[..a] + [s[a]] + s[a + 1..];
  }

  // ---------------------------------------------------------------------------------------------
  // The counts add up

  /** The sum of the counts of a list of entries. */
  function TotalCount(infos: seq<TagInfo>): nat {
    if infos == [] then 0 else TotalCount(infos[..|infos| - 1]) + infos[|infos| - 1].count
  }

  /** Every tag is counted once: the counts of `getAllTags` add up to the number of tags. */
  lemma RankedTotal(tags: seq<string>, key: string -> string)
    ensures TotalCount(Ranked(tags, key)) == |tags|
  {
    var t := TallyOf(tags, key);
    TallyFacts(tags, key);
    RankedPermutes(tags, key);
    TotalCountPermutes(Ranked(tags, key), Entries(t));
    EntriesTotal(t.counts, t.order);
    TallyTotal(tags, key);
  }

  /** The sum over the tally in insertion order. */
  function OrderTotal(counts: map<string, Counted>, order: seq<string>): nat
    requires forall s :: s in order ==> s in counts
  {
    if order == [] then 0 else OrderTotal(counts, order[..|order| - 1]) + counts[order[|order| - 1]].count
  }

  lemma {:induction false} EntriesTotal(counts: map<string, Counted>, order: seq<string>)
    requires forall s :: s in order ==> s in counts
    ensures TotalCount(Entries(Tally(counts, order))) == OrderTotal(counts, order)
  {
    if order != [] {
      var init := order[..|order| - 1];
      assert forall s :: s in init ==> s in order;
      EntriesTotal(counts, init);
      var e := Entries(Tally(counts, order));
      assert e[..|e| - 1] == Entries(Tally(counts, init));
    }
  }

  /** Each visit adds one to the sum. */
  lemma {:induction false} TallyTotal(tags: seq<string>, key: string -> string)
    ensures forall s :: s in TallyOf(tags, key).order ==> s in TallyOf(tags, key).counts
    ensures OrderTotal(TallyOf(tags, key).counts, TallyOf(tags, key).order) == |tags|
  {
    if tags != [] {
      var init, last := tags[..|tags| - 1], tags[|tags| - 1];
      var t0 := TallyOf(init, key);
      TallyTotal(init, key);
      TallyShape(init, key);
      assert TallyOf(tags, key) == Bump(t0, key(last), last);
      BumpTotal(t0, key(last), last);
    }
  }

  /** The order lists each key of the tally once. */
  lemma TallyShape(tags: seq<string>, key: string -> string)
    ensures Distinct(TallyOf(tags, key).order)
    ensures TallyOf(tags, key).counts.Keys == (set s | s in TallyOf(tags, key).order)
  {
    TallyFacts(tags, key);
  }

  lemma BumpTotal(t: Tally, k: string, tag: string)
    requires Distinct(t.order)
    requires t.counts.Keys == (set s | s in t.order)
    ensures forall s :: s in Bump(t, k, tag).order ==> s in Bump(t, k, tag).counts
    ensures OrderTotal(Bump(t, k, tag).counts, Bump(t, k, tag).order) == OrderTotal(t.counts, t.order) + 1
  {
    if k in t.counts {
      BumpKnownTotal(t, k, tag);
    } else {
      BumpNewTotal(t, k, tag);
    }
  }

  lemma BumpKnownTotal(t: Tally, k: string, tag: string)
    requires Distinct(t.order)
    requires t.counts.Keys == (set s | s in t.order)
    requires k in t.counts
    ensures forall s :: s in Bump(t, k, tag).order ==> s in Bump(t, k, tag).counts
    ensures OrderTotal(Bump(t, k, tag).counts, Bump(t, k, tag).order) == OrderTotal(t.counts, t.order) + 1
  {
    OrderTotalBump(t.counts, t.order, k, t.counts[k].(count := t.counts[k].count + 1));
  }

  lemma BumpNewTotal(t: Tally, k: string, tag: string)
    requires t.counts.Keys == (set s | s in t.order)
    requires k !in t.counts
    ensures forall s :: s in Bump(t, k, tag).order ==> s in Bump(t, k, tag).counts
    ensures OrderTotal(Bump(t, k, tag).counts, Bump(t, k, tag).order) == OrderTotal(t.counts, t.order) + 1
  {
    var counts := t.counts[k := Counted(tag, 1)];
    assert k !in t.order;
    OrderTotalFresh(t.counts, t.order, k, Counted(tag, 1));
    assert (t.order + [k])[..|t.order|] == t.order;
    assert OrderTotal(counts, t.order + [k]) == OrderTotal(counts, t.order) + 1;
  }

  /** Changing the entry of a key listed once changes the sum by the difference. */
  lemma {:induction false} OrderTotalBump(counts: map<string, Counted>, order: seq<string>, k: string, c: Counted)
    requires forall s :: s in order ==> s in counts
    requires Distinct(order) && k in order
    ensures forall s :: s in order ==> s in counts[k := c]
    ensures OrderTotal(counts[k := c], order) + counts[k].count == OrderTotal(counts, order) + c.count
  {
    var init := order[..|order| - 1];
    assert forall s :: s in init ==> s in order;
    if order[|order| - 1] == k {
      forall i | 0 <= i < |init|
        ensures init[i] != k
      {
        assert order[i] != order[|order| - 1];
      }
      OrderTotalFresh(counts, init, k, c);
    } else {
      assert k in init;
      OrderTotalBump(counts, init, k, c);
    }
  }

  /** Adding the entry of a key that is not listed leaves the sum alone. */
  lemma {:induction false} OrderTotalFresh(counts: map<string, Counted>, order: seq<string>, k: string, c: Counted)
    requires forall s :: s in order ==> s in counts
    requires k !in order
    ensures OrderTotal(counts[k := c], order) == OrderTotal(counts, order)
  {
    if order != [] {
      var init := order[..|order| - 1];
      assert forall s :: s in init ==> s in order;
      OrderTotalFresh(counts, init, k, c);
    }
  }

  /** Reordering the entries does not change the sum. */
  lemma {:induction false} TotalCountPermutes(a: seq<TagInfo>, b: seq<TagInfo>)
    requires multiset(a) == multiset(b)
    ensures TotalCount(a) == TotalCount(b)
    decreases |a|
  {
    if a != [] {
      var x, init := a[|a| - 1], a[..|a| - 1];
      assert x in multiset(b) by {
        assert a == init + [x];
      }
      var i :| 0 <= i < |b| && b[i] == x;
      var rest := b[..i] + b[i + 1..];
      assert multiset(rest) == multiset(init) by {
        assert a == init + [x];
        RemoveAt(b, i);
      }
      TotalCountPermutes(init, rest);
      TotalCountRemove(b, i);
    }
  }

  lemma RemoveAt<T>(b: seq<T>, i: nat)
    requires i < |b|
    ensures multiset(b[..i] + b[i + 1..]) == multiset(b) - multiset{b[i]}
  {
    assert b == b[..i] + [b[i]] + b[i + 1..];
  }

  lemma {:induction false} TotalCountRemove(b: seq<TagInfo>, i: nat)
    requires i < |b|
    ensures TotalCount(b) == TotalCount(b[..i] + b[i + 1..]) + b[i].count
  {
    var front, x, back := b[..i], b[i], b[i + 1..];
    var tail := [x] + back;
    assert b == front + tail;
    TotalCountAppend(front, tail);
    TotalCountAppend([x], back);
    TotalCountAppend(front, back);
    TotalCountSingle(x);
  }

  lemma TotalCountSingle(x: TagInfo)
    ensures TotalCount([x]) == x.count
  {
    assert [x][..0] == [];
  }


  lemma {:induction false} TotalCountAppend(a: seq<TagInfo>, b: seq<TagInfo>)
    ensures TotalCount(a + b) == TotalCount(a) + TotalCount(b)
    decreases |b|
  {
    if b == [] {
      assert a + b == a;
    } else {
      var init := b[..|b| - 1];
      assert (a + b)[..|a + b| - 1] == a + init;
      TotalCountAppend(a, init);
    }
  }

  // ---------------------------------------------------------------------------------------------
  // Article URLs

  /** `CATEGORY_PATH`: the route segment for each category. */
  const CATEGORY_PATH: map<string, string> := map[
    "news" := "highlights",
    "alpha" := "alpha",
    "autopsy" := "autopsy",
    "kol-watch" := "kol-watch",
    "market-pulse" := "runner-pulse",
    "academy" := "academy"
  ]

  /** `articleUrl`: `/<route segment>/<slug>`, with `news` for a category that has no route. */
  function ArticleUrl(article: Article): string {
    var prefix := if article.category in CATEGORY_PATH then CATEGORY_PATH[article.category] else "news";
    "/" + prefix + "/" + article.slug
  }

  /**
   * The URL is the slug under the route segment of its category, and under `news` for a category
   * with no route; the category `news` itself is routed to `highlights`. The path ends in the slug.
   */
  lemma ArticleUrlSlug(article: Article)
    ensures article.category in CATEGORY_PATH ==>
              ArticleUrl(article) == "/" + CATEGORY_PATH[article.category] + "/" + article.slug
    ensures article.category !in CATEGORY_PATH ==> ArticleUrl(article) == "/news/" + article.slug
    ensures article.category == "news" ==> ArticleUrl(article) == "/highlights/" + article.slug
    ensures article.category == "market-pulse" ==> ArticleUrl(article) == "/runner-pulse/" + article.slug
    ensures ArticleUrl(article)[|ArticleUrl(article)| - |article.slug|..] == article.slug
  {
    var p := if article.category in CATEGORY_PATH then CATEGORY_PATH[article.category] else "news";
    assert ArticleUrl(article) == "/" + p + "/" + article.slug;
  }

  /**
   * The route segments are distinct and none is `news`, so the URL of a slug tells the category
   * apart: two articles with the same slug share a URL iff they share a routed category or both
   * have a category with no route.
   */
  lemma ArticleUrlRoute(a: Article, b: Article)
    requires a.slug == b.slug
    ensures ArticleUrl(a) == ArticleUrl(b) <==>
              (a.category in CATEGORY_PATH && a.category == b.category)
              || (a.category !in CATEGORY_PATH && b.category !in CATEGORY_PATH)
  {
    var pa := if a.category in CATEGORY_PATH then CATEGORY_PATH[a.category] else "news";
    var pb := if b.category in CATEGORY_PATH then CATEGORY_PATH[b.category] else "news";
    var ua, ub := ArticleUrl(a), ArticleUrl(b);
    assert ua == "/" + pa + "/" + a.slug;
    assert ub == "/" + pb + "/" + a.slug;
    if ua == ub {
      SegmentOf(pa, a.slug);
      SegmentOf(pb, a.slug);
      RouteSegments(a.category, b.category);
    }
  }

  /** The route segment of a URL is the text between its first two slashes. */
  lemma SegmentOf(p: string, slug: string)
    ensures |"/" + p + "/" + slug| == |p| + |slug| + 2
    ensures ("/" + p + "/" + slug)[1..|p| + 1] == p
  {
  }

  /** No two categories share a route segment, and no route segment is `news`. */
  lemma RouteSegments(c1: string, c2: string)
    ensures c1 in CATEGORY_PATH ==> CATEGORY_PATH[c1] != "news"
    ensures c1 in CATEGORY_PATH && c2 in CATEGORY_PATH && CATEGORY_PATH[c1] == CATEGORY_PATH[c2] ==> c1 == c2
  {
  }
}
