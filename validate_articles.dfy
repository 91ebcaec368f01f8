/**
 * The article validator (scripts/validate-articles.js): every `.json` file of the article
 * directory is parsed and checked against a fixed rule set; problems are errors or warnings, and
 * the process fails exactly when there was an error.
 *
 * Listing the directory and reading the files are inputs: each file arrives as its name and its
 * parsed content, `None` when the text is not valid JSON. The console messages are modelled as
 * the `Problem` values they describe.
 */
module ValidateArticles {
  import opened Wrappers
  import opened Text
  import opened Seqs
  import opened Json

  const REQUIRED_FIELDS: seq<string> := ["slug", "headline", "category", "publishedAt", "author", "body"]
  const VALID_CATEGORIES: seq<string> := ["news", "launchpad", "autopsy", "kol-watch", "academy", "alpha", "market-pulse"]
  const ENGAGEMENT_FIELDS: seq<string> := ["replies", "reposts", "likes", "views"]

  /** One message of the report. */
  datatype Problem =
    | MissingField(field: string)
    | SlugMismatch(expected: string, actual: Json)
    | MissingUrl
    | MissingText
    | NotANumber(field: string, got: string)
    | BodyNotNonEmptyArray
    | UnknownCategory(category: Json)
    | NoSourcePost

  /** `file.replace('.json', '')`: only the first occurrence of `.json` is removed. */
  function ExpectedSlug(file: string): string {
    ReplaceFirst(file, ".json", "")
  }

  // ---------------------------------------------------------------------------------------------
  // The rules for one article

  /** One `missing required field` error per field of `fields` whose value is falsy, in order. */
  function MissingFields(article: Json, fields: seq<string>): seq<Problem> {
    if fields == [] then []
    else
      var f := fields[|fields| - 1];
      MissingFields(article, fields[..|fields| - 1]) + (if Truthy(Field(article, f)) then [] else [MissingField(f)])
  }

  /** One error per engagement counter whose `typeof` is not `number`, in order. */
  function EngagementErrors(eng: Json, fields: seq<string>): seq<Problem> {
    if fields == [] then []
    else
      var f := fields[|fields| - 1];
      var t := TypeOf(Field(eng, f));
      EngagementErrors(eng, fields[..|fields| - 1]) + (if t == "number" then [] else [NotANumber(f, t)])
  }

  function SlugErrors(file: string, article: Json): seq<Problem> {
    var slug := Field(article, "slug");
    if Truthy(slug) && slug.value != Str(ExpectedSlug(file)) then [SlugMismatch(ExpectedSlug(file), slug.value)] else []
  }

  /** The checks of a present `sourcePost`. */
  function PostErrors(post: Json): seq<Problem> {
    var eng := Field(post, "engagement");
    (if Truthy(Field(post, "url")) then [] else [MissingUrl])
    + (if Truthy(Field(post, "text")) then [] else [MissingText])
    + (if Truthy(eng) then EngagementErrors(eng.value, ENGAGEMENT_FIELDS) else [])
  }

  function SourcePostErrors(article: Json): seq<Problem> {
    var post := Field(article, "sourcePost");
    if Truthy(post) then PostErrors(post.value) else []
  }

  /** `body` is a non-empty array. */
  predicate NonEmptyArray(v: Json) {
    v.Arr? && v.items != []
  }

  function BodyErrors(article: Json): seq<Problem> {
    var body := Field(article, "body");
    if Truthy(body) && !NonEmptyArray(body.value) then [BodyNotNonEmptyArray] else []
  }

  /** The errors reported for one parsed file, in the order the checks run. */
  function ArticleErrors(file: string, article: Json): seq<Problem> {
    MissingFields(article, REQUIRED_FIELDS) + SlugErrors(file, article) + SourcePostErrors(article) + BodyErrors(article)
  }

  /** The warnings reported for one parsed file. */
  function ArticleWarnings(article: Json): seq<Problem> {
    var category := Field(article, "category");
    (if Truthy(category) && !(category.value.Str? && category.value.s in VALID_CATEGORIES) then [UnknownCategory(category.value)] else [])
    + (if Truthy(Field(article, "sourcePost")) then [] else [NoSourcePost])
  }

  /** What checking one parsed value gives: its problems, or the `TypeError` reading a field of `null` throws. */
  datatype Checked = Checked(errors: seq<Problem>, warnings: seq<Problem>) | TypeError

  /** The body of the file loop after parsing: `articleErrors` and `articleWarnings` filled by `push`. */
  method CheckArticle(file: string, article: Json) returns (result: Checked)
    ensures article.Null? ==> result == TypeError
    ensures !article.Null? ==> result == Checked(ArticleErrors(file, article), ArticleWarnings(article))
  {
    if article.Null? {
      return TypeError;
    }
    var articleErrors: seq<Problem> := [];
    var articleWarnings: seq<Problem> := [];
    for k := 0 to |REQUIRED_FIELDS|
      invariant articleErrors == MissingFields(article, REQUIRED_FIELDS[..k])
    {
      assert REQUIRED_FIELDS[..k + 1][..k] == REQUIRED_FIELDS[..k];
      if !Truthy(Field(article, REQUIRED_FIELDS[k])) {
        articleErrors := articleErrors + [MissingField(REQUIRED_FIELDS[k])];
      }
    }
    assert REQUIRED_FIELDS[..|REQUIRED_FIELDS|] == REQUIRED_FIELDS;

    ghost var required := articleErrors;
    var expectedSlug := ReplaceFirst(file, ".json", "");
    var slug := Field(article, "slug");
    if Truthy(slug) && slug.value != Str(expectedSlug) {
      articleErrors := articleErrors + [SlugMismatch(expectedSlug, slug.value)];
    }
    assert articleErrors == required + SlugErrors(file, article);

    var category := Field(article, "category");
    if Truthy(category) && !(category.value.Str? && category.value.s in VALID_CATEGORIES) {
      articleWarnings := articleWarnings + [UnknownCategory(category.value)];
    }

    ghost var beforePost := articleErrors;
    var post := Field(article, "sourcePost");
    if Truthy(post) {
      var postErrors := CheckSourcePost(post.value);
      articleErrors := articleErrors + postErrors;
    } else {
      articleWarnings := articleWarnings + [NoSourcePost];
    }
    assert articleErrors == beforePost + SourcePostErrors(article);

    ghost var beforeBody := articleErrors;
    var body := Field(article, "body");
    if Truthy(body) && !(body.value.Arr? && body.value.items != []) {
      articleErrors := articleErrors + [BodyNotNonEmptyArray];
    }
    assert articleErrors == beforeBody + BodyErrors(article);
    assert articleErrors == required + SlugErrors(file, article) + SourcePostErrors(article) + BodyErrors(article);
    result := Checked(articleErrors, articleWarnings);
  }

  /** The `sourcePost` block of the loop body. */
  method CheckSourcePost(post: Json) returns (errs: seq<Problem>)
    ensures errs == PostErrors(post)
  {
    errs := [];
    if !Truthy(Field(post, "url")) {
      errs := errs + [MissingUrl];
    }
    if !Truthy(Field(post, "text")) {
      errs := errs + [MissingText];
    }
    var eng := Field(post, "engagement");
    if Truthy(eng) {
      var counterErrors := CheckEngagement(eng.value);
      errs := errs + counterErrors;
    }
  }

  /** The loop over the four engagement counters. */
  method CheckEngagement(eng: Json) returns (errs: seq<Problem>)
    ensures errs == EngagementErrors(eng, ENGAGEMENT_FIELDS)
  {
    errs := [];
    for k := 0 to |ENGAGEMENT_FIELDS|
      invariant errs == EngagementErrors(eng, ENGAGEMENT_FIELDS[..k])
    {
      assert ENGAGEMENT_FIELDS[..k + 1][..k] == ENGAGEMENT_FIELDS[..k];
      var t := TypeOf(Field(eng, ENGAGEMENT_FIELDS[k]));
      if t != "number" {
        errs := errs + [NotANumber(ENGAGEMENT_FIELDS[k], t)];
      }
    }
    assert ENGAGEMENT_FIELDS[..|ENGAGEMENT_FIELDS|] == ENGAGEMENT_FIELDS;
  }

  // ---------------------------------------------------------------------------------------------
  // What the rules promise

  /** Each required field that is missing or falsy gives exactly one error, and a present one none. */
  lemma RequiredFieldErrors(file: string, article: Json, f: string)
    requires f in REQUIRED_FIELDS
    ensures multiset(ArticleErrors(file, article))[MissingField(f)] == if Truthy(Field(article, f)) then 0 else 1
  {
    var required := MissingFields(article, REQUIRED_FIELDS);
    var later := SlugErrors(file, article) + SourcePostErrors(article) + BodyErrors(article);
    var x := MissingField(f);
    assert multiset(required)[x] == if Truthy(Field(article, f)) then 0 else 1 by {
      MissingFieldsCount(article, REQUIRED_FIELDS, f);
    }
    assert multiset(later)[x] == 0 by {
      LaterChecksNoMissingField(file, article, f);
    }
    assert multiset(ArticleErrors(file, article))[x] == multiset(required)[x] + multiset(later)[x] by {
      AppendRegroup(required, SlugErrors(file, article), SourcePostErrors(article), BodyErrors(article));
      CountAppend(required, later, x);
    }
  }

  lemma {:induction false} MissingFieldsCount(article: Json, fields: seq<string>, f: string)
    requires forall i, j :: 0 <= i < j < |fields| ==> fields[i] != fields[j]
    ensures multiset(MissingFields(article, fields))[MissingField(f)] == if f in fields && !Truthy(Field(article, f)) then 1 else 0
  {
    if fields != [] {
      var init := fields[..|fields| - 1];
      MissingFieldsCount(article, init, f);
      assert fields == init + [fields[|fields| - 1]];
    }
  }

  /** The checks after the required fields never report a missing field. */
  lemma LaterChecksNoMissingField(file: string, article: Json, f: string)
    ensures multiset(SlugErrors(file, article) + SourcePostErrors(article) + BodyErrors(article))[MissingField(f)] == 0
  {
    var later := SlugErrors(file, article) + SourcePostErrors(article) + BodyErrors(article);
    assert MissingField(f) !in later by {
      SourcePostKinds(article);
    }
    AbsentCount(later, MissingField(f));
  }

  lemma CountAppend<T>(a: seq<T>, b: seq<T>, x: T)
    ensures multiset(a + b)[x] == multiset(a)[x] + multiset(b)[x]
  {
  }

  lemma AbsentCount<T>(s: seq<T>, x: T)
    requires x !in s
    ensures multiset(s)[x] == 0
  {
  }

  /** Engagement checks only ever report counters that are not numbers, and only fields asked for. */
  lemma {:induction false} EngagementKinds(eng: Json, fields: seq<string>)
    ensures forall p :: p in EngagementErrors(eng, fields) ==> p.NotANumber? && p.field in fields && p.got == TypeOf(Field(eng, p.field)) && p.got != "number"
  {
    if fields != [] {
      EngagementKinds(eng, fields[..|fields| - 1]);
    }
  }

  /** A counter is reported exactly when its `typeof` is not `number`. */
  lemma {:induction false} EngagementComplete(eng: Json, fields: seq<string>, f: string)
    requires f in fields
    ensures TypeOf(Field(eng, f)) != "number" <==> NotANumber(f, TypeOf(Field(eng, f))) in EngagementErrors(eng, fields)
  {
    EngagementKinds(eng, fields);
    var init := fields[..|fields| - 1];
    if f != fields[|fields| - 1] {
      assert f in init;
      EngagementComplete(eng, init, f);
    }
  }

  /** A slug mismatch is reported only for a present slug that differs from the file name without `.json`. */
  lemma SlugMismatchRule(file: string, article: Json)
    ensures (exists p :: p in ArticleErrors(file, article) && p.SlugMismatch?)
            <==> Truthy(Field(article, "slug")) && Field(article, "slug").value != Str(ExpectedSlug(file))
  {
    MissingFieldKinds(article, REQUIRED_FIELDS);
    SourcePostKinds(article);
    if Truthy(Field(article, "slug")) && Field(article, "slug").value != Str(ExpectedSlug(file)) {
      assert SlugErrors(file, article) == [SlugMismatch(ExpectedSlug(file), Field(article, "slug").value)];
      assert ArticleErrors(file, article)[|MissingFields(article, REQUIRED_FIELDS)|].SlugMismatch?;
    }
  }

  lemma {:induction false} MissingFieldKinds(article: Json, fields: seq<string>)
    ensures forall p :: p in MissingFields(article, fields) ==> p.MissingField? && p.field in fields && !Truthy(Field(article, p.field))
  {
    if fields != [] {
      MissingFieldKinds(article, fields[..|fields| - 1]);
    }
  }

  /** The `sourcePost` checks report only missing `url`, missing `text` and engagement counters. */
  lemma SourcePostKinds(article: Json)
    ensures forall p :: p in SourcePostErrors(article) ==> p.MissingUrl? || p.MissingText? || p.NotANumber?
  {
    var post := Field(article, "sourcePost");
    if Truthy(post) {
      PostKinds(post.value);
    }
  }

  lemma PostKinds(post: Json)
    ensures forall p :: p in PostErrors(post) ==> p.MissingUrl? || p.MissingText? || p.NotANumber?
  {
    var eng := Field(post, "engagement");
    if Truthy(eng) {
      EngagementKinds(eng.value, ENGAGEMENT_FIELDS);
    }
  }

  /** An unknown category is a warning and never an error. */
  lemma CategoryOnlyWarns(file: string, article: Json)
    ensures forall p :: p in ArticleErrors(file, article) ==> !p.UnknownCategory?
    ensures (exists p :: p in ArticleWarnings(article) && p.UnknownCategory?)
            <==> Truthy(Field(article, "category")) && !(Field(article, "category").value.Str? && Field(article, "category").value.s in VALID_CATEGORIES)
  {
    MissingFieldKinds(article, REQUIRED_FIELDS);
    SourcePostKinds(article);
    var category := Field(article, "category");
    if Truthy(category) && !(category.value.Str? && category.value.s in VALID_CATEGORIES) {
      assert ArticleWarnings(article)[0].UnknownCategory?;
    }
  }

  /** With a `sourcePost`, a missing `url` and a missing `text` are errors, and there is no warning. */
  lemma SourcePostPresentRule(file: string, article: Json)
    requires Truthy(Field(article, "sourcePost"))
    ensures var post := Field(article, "sourcePost").value;
            && (MissingUrl in ArticleErrors(file, article) <==> !Truthy(Field(post, "url")))
            && (MissingText in ArticleErrors(file, article) <==> !Truthy(Field(post, "text")))
    ensures NoSourcePost !in ArticleWarnings(article)
  {
    var post := Field(article, "sourcePost").value;
    var earlier := MissingFields(article, REQUIRED_FIELDS) + SlugErrors(file, article);
    var eng := Field(post, "engagement");
    var counters := if Truthy(eng) then EngagementErrors(eng.value, ENGAGEMENT_FIELDS) else [];
    assert ArticleErrors(file, article) == earlier + ((if Truthy(Field(post, "url")) then [] else [MissingUrl]) + (if Truthy(Field(post, "text")) then [] else [MissingText]) + counters) + BodyErrors(article);
    assert MissingUrl !in earlier && MissingText !in earlier by {
      MissingFieldKinds(article, REQUIRED_FIELDS);
    }
    assert MissingUrl !in counters && MissingText !in counters by {
      if Truthy(eng) {
        EngagementKinds(eng.value, ENGAGEMENT_FIELDS);
      }
    }
  }

  /** Without a `sourcePost` there is the warning and none of the `sourcePost` errors. */
  lemma SourcePostAbsentRule(file: string, article: Json)
    requires !Truthy(Field(article, "sourcePost"))
    ensures NoSourcePost in ArticleWarnings(article)
    ensures forall p :: p in ArticleErrors(file, article) ==> !(p.MissingUrl? || p.MissingText? || p.NotANumber?)
  {
    MissingFieldKinds(article, REQUIRED_FIELDS);
    assert SourcePostErrors(article) == [];
  }

  /** With a present `engagement`, each counter that is not a number is one error naming its type. */
  lemma EngagementRule(file: string, article: Json, f: string)
    requires f in ENGAGEMENT_FIELDS
    requires Truthy(Field(article, "sourcePost"))
    requires Truthy(Field(Field(article, "sourcePost").value, "engagement"))
    ensures var eng := Field(Field(article, "sourcePost").value, "engagement").value;
            TypeOf(Field(eng, f)) != "number" <==> NotANumber(f, TypeOf(Field(eng, f))) in ArticleErrors(file, article)
  {
    var post := Field(article, "sourcePost").value;
    var eng := Field(post, "engagement").value;
    var x := NotANumber(f, TypeOf(Field(eng, f)));
    var earlier := MissingFields(article, REQUIRED_FIELDS) + SlugErrors(file, article);
    var checks := (if Truthy(Field(post, "url")) then [] else [MissingUrl]) + (if Truthy(Field(post, "text")) then [] else [MissingText]);
    var counters := EngagementErrors(eng, ENGAGEMENT_FIELDS);
    assert ArticleErrors(file, article) == earlier + (checks + counters) + BodyErrors(article);
    assert x !in earlier by {
      MissingFieldKinds(article, REQUIRED_FIELDS);
    }
    assert x in counters <==> TypeOf(Field(eng, f)) != "number" by {
      EngagementComplete(eng, ENGAGEMENT_FIELDS, f);
    }
  }

  /** A present `body` must be a non-empty array. */
  lemma BodyRule(file: string, article: Json)
    ensures BodyNotNonEmptyArray in ArticleErrors(file, article)
            <==> Truthy(Field(article, "body")) && !NonEmptyArray(Field(article, "body").value)
  {
    var earlier := MissingFields(article, REQUIRED_FIELDS) + SlugErrors(file, article) + SourcePostErrors(article);
    assert BodyNotNonEmptyArray !in earlier by {
      MissingFieldKinds(article, REQUIRED_FIELDS);
      SourcePostKinds(article);
    }
  }

  /** A missing `body` gives the required-field error and not the array error. */
  lemma MissingBodyRule(file: string, article: Json)
    requires !Truthy(Field(article, "body"))
    ensures MissingField("body") in ArticleErrors(file, article)
    ensures BodyNotNonEmptyArray !in ArticleErrors(file, article)
  {
    assert multiset(ArticleErrors(file, article))[MissingField("body")] == 1 by {
      RequiredFieldErrors(file, article, "body");
    }
    BodyRule(file, article);
  }

  /** For a file named `<name>.json` with no other `.json` in the name, the expected slug is the name. */
  lemma {:induction false} ExpectedSlugOfPlainName(name: string)
    requires !Contains(name, ".json")
    ensures ExpectedSlug(name + ".json") == name
  {
    if name != [] {
      assert !(".json" <= name + ".json") by {
        if |name| >= 5 {
          assert (name + ".json")[..5] == name[..5];
        } else {
          assert (name + ".json")[|name|] == '.';
        }
      }
      assert (name + ".json")[1..] == name[1..] + ".json";
      ExpectedSlugOfPlainName(name[1..]);
    }
  }

  /** As written, only the first `.json` goes: the file `a.json.json` expects the slug `a.json`. */
  lemma ExpectedSlugRemovesFirst()
    ensures ExpectedSlug("a.json.json") == "a.json"
  {
    assert "a.json.json"[0] != ".json"[0];
    assert "a.json.json"[1..] == ".json.json";
  }

  // ---------------------------------------------------------------------------------------------
  // The file loop

  /** A directory entry: its name, and its parsed content or `None` when it is not valid JSON. */
  datatype FileEntry = FileEntry(name: string, content: Option<Json>)

  /** The counters at the end, or the file whose `null` content threw and ended the run. */
  datatype Outcome = Finished(errors: nat, warnings: nat, checked: nat) | Crashed(file: string)

  /** `readdirSync(...).filter(f => f.endsWith('.json'))`. */
  function JsonFiles(entries: seq<FileEntry>): seq<FileEntry> {
    Filter(entries, (e: FileEntry) => HasSuffix(e.name, ".json"))
  }

  /** One file of the loop: a crash sticks, an unparseable file is one error, `null` throws. */
  function Step(o: Outcome, f: FileEntry): Outcome {
    if o.Crashed? then o
    else match f.content
      case None => Finished(o.errors + 1, o.warnings, o.checked)
      case Some(a) =>
        if a.Null? then Crashed(f.name)
        else Finished(o.errors + |ArticleErrors(f.name, a)|, o.warnings + |ArticleWarnings(a)|, o.checked + 1)
  }

  /** The outcome after the files of `files` were visited in order. */
  function Summary(files: seq<FileEntry>): Outcome {
    if files == [] then Finished(0, 0, 0)
    else Step(Summary(files[..|files| - 1]), files[|files| - 1])
  }

  /** Visiting one more file of a prefix. */
  lemma SummaryPrefix(files: seq<FileEntry>, i: nat)
    requires i < |files|
    ensures Summary(files[..i + 1]) == Step(Summary(files[..i]), files[i])
  {
    assert files[..i + 1][..i] == files[..i];
  }

  /** The exit status: an uncaught exception and `process.exit(1)` both end with status 1. */
  function ExitStatus(o: Outcome): nat {
    if o.Crashed? || o.errors > 0 then 1 else 0
  }

  /** The whole script over a directory listing: the outcome and the exit status. */
  method Validate(entries: seq<FileEntry>) returns (outcome: Outcome, status: nat)
    ensures outcome == Summary(JsonFiles(entries))
    ensures status == ExitStatus(outcome)
  {
    var files := Filter(entries, (e: FileEntry) => HasSuffix(e.name, ".json"));
    var errors: nat, warnings: nat, checked: nat := 0, 0, 0;
    for i := 0 to |files|
      invariant Summary(files[..i]) == Finished(errors, warnings, checked)
    {
      SummaryPrefix(files, i);
      var visited := VisitFile(files[i], errors, warnings, checked);
      if visited.Crashed? {
        CrashSticks(files, i + 1);
        return visited, 1;
      }
      errors, warnings, checked := visited.errors, visited.warnings, visited.checked;
    }
    assert files[..|files|] == files;
    outcome := Finished(errors, warnings, checked);
    status := if errors > 0 then 1 else 0;
  }

  /** The loop body for one file: an unparseable file adds an error and is skipped, `null` throws. */
  method VisitFile(file: FileEntry, errors: nat, warnings: nat, checked: nat) returns (o: Outcome)
    ensures o == Step(Finished(errors, warnings, checked), file)
  {
    if file.content.None? {
      return Finished(errors + 1, warnings, checked);
    }
    var checkedArticle := CheckArticle(file.name, file.content.value);
    if checkedArticle.TypeError? {
      return Crashed(file.name);
    }
    o := Finished(errors + |checkedArticle.errors|, warnings + |checkedArticle.warnings|, checked + 1);
  }

  /** Once a file has thrown, the outcome stays the crash. */
  lemma {:induction false} CrashSticks(files: seq<FileEntry>, n: nat)
    requires n <= |files| && Summary(files[..n]).Crashed?
    ensures Summary(files) == Summary(files[..n])
    decreases |files| - n
  {
    if n < |files| {
      assert files[..n + 1][..n] == files[..n];
      CrashSticks(files, n + 1);
    } else {
      assert files[..n] == files;
    }
  }

  /** The run crashes exactly when some file parses to `null`. */
  lemma {:induction false} CrashRule(files: seq<FileEntry>)
    ensures Summary(files).Crashed? <==> exists i :: 0 <= i < |files| && files[i].content == Some(Null)
  {
    if files != [] {
      var init := files[..|files| - 1];
      CrashRule(init);
      if exists i :: 0 <= i < |init| && init[i].content == Some(Null) {
        var i :| 0 <= i < |init| && init[i].content == Some(Null);
        assert files[i] == init[i];
      }
      if exists i :: 0 <= i < |files| && files[i].content == Some(Null) {
        var i :| 0 <= i < |files| && files[i].content == Some(Null);
        if i < |init| {
          assert init[i] == files[i];
        }
      }
    }
  }

  /** The files that parsed and the files that did not. */
  function Parsed(files: seq<FileEntry>): seq<FileEntry> {
    Filter(files, (f: FileEntry) => f.content.Some?)
  }

  function Unparsed(files: seq<FileEntry>): seq<FileEntry> {
    Filter(files, (f: FileEntry) => f.content.None?)
  }

  /** Errors and warnings summed over the parsed files. */
  function ErrorTotal(files: seq<FileEntry>): nat {
    if files == [] then 0
    else
      var f := files[|files| - 1];
      ErrorTotal(files[..|files| - 1]) + (if f.content.Some? && !f.content.value.Null? then |ArticleErrors(f.name, f.content.value)| else 0)
  }

  function WarningTotal(files: seq<FileEntry>): nat {
    if files == [] then 0
    else
      var f := files[|files| - 1];
      WarningTotal(files[..|files| - 1]) + (if f.content.Some? && !f.content.value.Null? then |ArticleWarnings(f.content.value)| else 0)
  }

  /**
   * Without a crash: every file that parsed is counted as checked once; an unparseable file adds
   * one error and is not checked; the other errors and the warnings are those of the articles.
   */
  lemma {:induction false} CounterRule(files: seq<FileEntry>)
    requires Summary(files).Finished?
    ensures Summary(files).checked == |Parsed(files)|
    ensures Summary(files).errors == |Unparsed(files)| + ErrorTotal(files)
    ensures Summary(files).warnings == WarningTotal(files)
  {
    if files != [] {
      var init := files[..|files| - 1];
      assert Summary(init).Finished?;
      CounterRule(init);
      ParsedLast(files);
    }
  }

  /** The last file adds one to exactly one of `Parsed` and `Unparsed`. */
  lemma ParsedLast(files: seq<FileEntry>)
    requires files != []
    ensures |Parsed(files)| == |Parsed(files[..|files| - 1])| + (if files[|files| - 1].content.Some? then 1 else 0)
    ensures |Unparsed(files)| == |Unparsed(files[..|files| - 1])| + (if files[|files| - 1].content.None? then 1 else 0)
  {
    var init := files[..|files| - 1];
    var f := files[|files| - 1];
    assert files == init + [f];
    FilterAppend(init, [f], (f: FileEntry) => f.content.Some?);
    FilterAppend(init, [f], (f: FileEntry) => f.content.None?);
  }

  /**
   * The script fails exactly when a file parses to `null`, a file is not valid JSON, or some article
   * has an error; warnings alone never make it fail.
   */
  lemma ExitRule(files: seq<FileEntry>)
    ensures ExitStatus(Summary(files)) == 1 <==>
              (exists i :: 0 <= i < |files| && files[i].content == Some(Null))
              || (exists i :: 0 <= i < |files| && files[i].content.None?)
              || (exists i :: 0 <= i < |files| && files[i].content.Some? && !files[i].content.value.Null? && ArticleErrors(files[i].name, files[i].content.value) != [])
  {
    CrashRule(files);
    if Summary(files).Finished? {
      CounterRule(files);
      UnparsedEmpty(files);
      ErrorTotalZero(files);
    }
  }

  lemma UnparsedEmpty(files: seq<FileEntry>)
    ensures Unparsed(files) == [] <==> forall i :: 0 <= i < |files| ==> files[i].content.Some?
  {
    if Unparsed(files) != [] {
      assert Unparsed(files)[0] in Unparsed(files);
    }
  }

  lemma {:induction false} ErrorTotalZero(files: seq<FileEntry>)
    ensures ErrorTotal(files) == 0 <==>
              forall i :: 0 <= i < |files| && files[i].content.Some? && !files[i].content.value.Null? ==> ArticleErrors(files[i].name, files[i].content.value) == []
  {
    if files != [] {
      var init := files[..|files| - 1];
      ErrorTotalZero(init);
      assert forall i :: 0 <= i < |init| ==> init[i] == files[i];
    }
  }
}
