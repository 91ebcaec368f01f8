/**
 * How the two scripts meet: a draft written by the publisher, once saved in the article
 * directory as `<id>.json`, is what the validator then checks.
 */
module Pipeline {
  import opened Wrappers
  import opened Text
  import opened Json
  import opened Publish
  import opened ValidateArticles

  /**
   * A fresh draft fails validation on one count only: it has no category yet. Its slug matches
   * its file name, its post has a URL, a text and four numeric counters, and its body is not
   * empty, so nothing else is reported, and no warning either.
   */
  lemma DraftNeedsOnlyCategory(argv: seq<string>, now: int, civil: int -> Civil, urlPath: string -> Option<string>, dex: Option<Dex>)
    requires TweetUrl(Parse(argv)) != []
    ensures var d, id := DraftOf(argv, now, civil, urlPath, dex), DraftId(argv, now, civil, urlPath);
            && ArticleErrors(id + ".json", d) == [MissingField("category")]
            && ArticleWarnings(d) == []
  {
    var post, id := PostOfArgs(argv, urlPath), DraftId(argv, now, civil, urlPath);
    var iso := ToIsoWithOffset(now, OFFSET_MINUTES, civil);
    var d := DraftOf(argv, now, civil, urlPath, dex);
    DraftReads(post, id, id, iso, dex);
    SourcePostReads(post, iso);
    var date := DateSlug(now, OFFSET_MINUTES, civil);
    KebabIsSlug(post.kolHandle + "-" + Or(post.token, "token") + "-" + date);
    DateSlugIsPrefix(now, OFFSET_MINUTES, civil);
    ArticleIdNonEmpty(post.kolHandle, post.token, ShiftedFields(now, OFFSET_MINUTES, civil));
    assert iso != [];
    SlugHasNoExtension(id);
    ExpectedSlugOfPlainName(id);
    assert d == Draft(post, id, id, iso, dex);
    assert Field(d, "slug") == Some(Str(id));
    assert id != [];
    assert Truthy(Field(d, "headline"));
    assert Truthy(Field(d, "publishedAt"));
    assert Truthy(Field(d, "author"));
    assert Field(d, "category") == None;
    assert Field(d, "sourcePost") == Some(SourcePost(post, iso));
    assert Truthy(Field(SourcePost(post, iso), "url"));
    assert Truthy(Field(SourcePost(post, iso), "text"));
    assert Field(d, "body").Some? && NonEmptyArray(Field(d, "body").value);
    OnlyCategoryMissing(id + ".json", d, id, SourcePost(post, iso));
  }

  /**
   * An article whose slug matches its file, whose required fields other than the category are
   * present, whose post is complete with numeric counters and whose body is not empty is reported
   * for its missing category alone.
   */
  lemma OnlyCategoryMissing(file: string, article: Json, slug: string, post: Json)
    requires Field(article, "slug") == Some(Str(slug)) && slug != [] && ExpectedSlug(file) == slug
    requires Truthy(Field(article, "headline")) && Truthy(Field(article, "publishedAt")) && Truthy(Field(article, "author"))
    requires Field(article, "category") == None
    requires Field(article, "sourcePost") == Some(post) && post.Obj?
    requires Truthy(Field(post, "url")) && Truthy(Field(post, "text"))
    requires Field(post, "engagement") == Some(NO_ENGAGEMENT)
    requires Field(article, "body").Some? && NonEmptyArray(Field(article, "body").value)
    ensures ArticleErrors(file, article) == [MissingField("category")]
    ensures ArticleWarnings(article) == []
  {
    assert MissingFields(article, REQUIRED_FIELDS) == [MissingField("category")] by {
      assert forall f :: f in ["slug", "headline", "publishedAt", "author", "body"] ==> Truthy(Field(article, f));
      OnlyCategoryField(article);
    }
    assert SourcePostErrors(article) == [] by {
      NoEngagementErrors();
    }
    assert SlugErrors(file, article) == [];
    assert BodyErrors(article) == [];
  }

  lemma OnlyCategoryField(article: Json)
    requires forall f :: f in ["slug", "headline", "publishedAt", "author", "body"] ==> Truthy(Field(article, f))
    requires Field(article, "category") == None
    ensures MissingFields(article, REQUIRED_FIELDS) == [MissingField("category")]
  {
    assert REQUIRED_FIELDS == ["slug", "headline"] + ["category"] + ["publishedAt", "author", "body"];
    MissingFieldsAppend(article, ["slug", "headline"] + ["category"], ["publishedAt", "author", "body"]);
    MissingFieldsAppend(article, ["slug", "headline"], ["category"]);
    MissingFieldsPresent(article, ["slug", "headline"]);
    MissingFieldsPresent(article, ["publishedAt", "author", "body"]);
    assert ["category"] == [] + ["category"];
  }

  /** A slug has no `.`, so no `.json` inside it. */
  lemma SlugHasNoExtension(s: string)
    requires IsSlug(s)
    ensures !Contains(s, ".json")
  {
    if Contains(s, ".json") {
      ContainsFirstChar(s, ".json");
      assert false;
    }
  }

  /** A post without engagement yet has four numeric counters, so no counter is reported. */
  lemma NoEngagementErrors()
    ensures EngagementErrors(NO_ENGAGEMENT, ENGAGEMENT_FIELDS) == []
  {
    NumbersPass(NO_ENGAGEMENT, ENGAGEMENT_FIELDS);
  }

  lemma {:induction false} NumbersPass(eng: Json, fields: seq<string>)
    requires forall f :: f in fields ==> TypeOf(Field(eng, f)) == "number"
    ensures EngagementErrors(eng, fields) == []
  {
    if fields != [] {
      NumbersPass(eng, fields[..|fields| - 1]);
    }
  }

  /** Checking two lists of fields is checking one, then the other. */
  lemma {:induction false} MissingFieldsAppend(article: Json, xs: seq<string>, ys: seq<string>)
    ensures MissingFields(article, xs + ys) == MissingFields(article, xs) + MissingFields(article, ys)
  {
    if ys != [] {
      var init := ys[..|ys| - 1];
      assert (xs + ys)[..|xs + ys| - 1] == xs + init;
      MissingFieldsAppend(article, xs, init);
    } else {
      assert xs + ys == xs;
    }
  }

  lemma {:induction false} MissingFieldsPresent(article: Json, fields: seq<string>)
    requires forall f :: f in fields ==> Truthy(Field(article, f))
    ensures MissingFields(article, fields) == []
  {
    if fields != [] {
      MissingFieldsPresent(article, fields[..|fields| - 1]);
    }
  }
}
