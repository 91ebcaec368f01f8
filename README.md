# MemeDesk scripts and helpers, modelled in Dafny

MemeDesk is a memecoin news site built with Next.js, plus a handful of Node scripts that feed it.
This project models the logic in those scripts and in the small library helpers the site uses,
and proves what that logic promises.

- **The CT feed scanner** (`scripts/scan-ct-feed.js`, module `CtFeed`). For each tracked account
  it takes the RSS document from the first Nitter mirror that answers. It scans the `<item>` blocks
  with the lazy, case-insensitive tag regex and decodes the XML entities. It drops reposts, replies,
  untitled items and undated items. Each remaining post scores minus its age in hours plus 2 per
  keyword found. The scanner keeps the three best posts across all accounts and stamps them with
  one `fetchedAt`. It writes nothing when no mirror answered at all.
- **The list scorer** (`scripts/scan-list.js`, module `ScanList`):
  - cashtag extraction (`$` followed by 2–10 capitals at a word boundary);
  - the second scoring formula (freshness up to 10, keywords, cashtags, a tier bonus);
  - relative time stamps such as `13s`, `3m`, `2h`;
  - the lookup from lower-cased handle to tier.
- **Tags** (`src/lib/tags.ts`, module `Tags`):
  - `tagToSlug`;
  - the slug-to-tag map, where the first tag seen wins;
  - the tag counts, ranked by count and then by name;
  - the articles carrying a tag;
  - article URLs.
- **The publisher** (`scripts/publish.js`, module `Publish`):
  - the argument parser;
  - `kebab` and `ensureHandle`;
  - the handle and status id taken from a post URL;
  - the UTC+8 timestamp and date slug;
  - the draft article it builds;
  - the run that writes the draft and appends it to `articles.json`.
- **The validator** (`scripts/validate-articles.js`, module `ValidateArticles`):
  - the per-article errors and warnings;
  - the counters over a directory listing;
  - the exit status.
- **`timeAgo`** (`src/lib/format.ts`, module `Format`). It puts the elapsed time into the minutes,
  hours or days bucket.
- **The RSS feed route** (`src/app/feed.xml/route.ts`, module `FeedXml`):
  - `escXml`;
  - the newest-first order;
  - the `<item>` of each article.
- **Where publisher and validator meet** (module `Pipeline`). A fresh draft, saved as
  `<id>.json`, fails validation only for its missing category.

Support modules:
- `Wrappers` (`Option`);
- `Text`: ASCII case mapping, JavaScript `trim` and `\s`, `includes`, global and first-match
  `replace`, run collapsing, decimal numerals, `padStart(2, '0')`;
- `Seqs`: `filter`;
- `Sorting`: the stable sort of `Array.prototype.sort` under a total-preorder comparator;
- `Json`: parsed JSON values, with JavaScript truthiness and `typeof`;
- `Articles`: the article fields the site reads.

Everything outside the program becomes a parameter:
- the clock is `now`, in integer milliseconds;
- `new Date(string)` is a partial function `string -> Option<int>`;
- `new URL(u).pathname` is `string -> Option<string>`;
- the UTC calendar fields of an instant are a function `int -> Civil`;
- a fetch is a function from request URL to a reply or a network error;
- the DexScreener lookup is an optional record of already formatted strings;
- the parsed `articles.json` is an optional JSON value;
- the files a run writes are returned as a list of writes.

The model follows the code as written:
- The CT scanner keeps future-dated posts: their age counts as zero. So a post's `publishedAt`
  may come after its `fetchedAt`.
- The doc comment of `tagToSlug` gives `"Pump.fun" → "pump-fun"`, but the code deletes the period
  and yields `pumpfun`. `Tags.PunctuationDropped` states what the code does.
- The validator's expected slug is `file.replace('.json', '')`, which removes only the first
  `.json`. `ValidateArticles.ExpectedSlugRemovesFirst` shows `a.json.json` expecting `a.json`.
- `signalEmoji` in the draft is the four characters the script file literally holds (a UTF-8
  emoji read as Windows-1252), not the emoji.
- In `scan-list.js`, a unit suffix with no count (`"m"`) gives `parseInt` NaN, and
  `new Date(NaN).toISOString()` then throws a `RangeError` outside the `try`. The model returns `RangeError` for that case.
- In the validator, an article file that parses to `null` makes `article[field]` throw, which
  ends the run. The model records this as `Crashed`.

## Model

| member | source | states |
|---|---|---|
| CtFeed.DecodeXml | scripts/scan-ct-feed.js:51-63 | empty input gives the empty string; the result is always trimmed |
| CtFeed.DecodePlainText | scripts/scan-ct-feed.js:53-62 | text with no `&`, `<` or `]` only gets trimmed |
| CtFeed.DecodeIsSequential | scripts/scan-ct-feed.js:56-58 | the passes run in turn, `&amp;` first, so `&amp;lt;` decodes to `<` |
| CtFeed.FindClose | scripts/scan-ct-feed.js:66 | a closing tag found lies at or after the search start and inside the block |
| CtFeed.FindCloseFirst | scripts/scan-ct-feed.js:66 | the lazy body ends at the first closing tag after the opening tag (matched ignoring ASCII case), and none is found only when there is none |
| CtFeed.TagMatchUnique | scripts/scan-ct-feed.js:66 | a match starting at a given offset has exactly one closing position |
| CtFeed.FindTag | scripts/scan-ct-feed.js:66 | a match found starts at or after `from`, and its tags fit inside the text without overlapping |
| CtFeed.FindTagMatches | scripts/scan-ct-feed.js:66 | what the scan finds is a match of the regex `<tag>([\s\S]*?)</tag>` (flag `i`) |
| CtFeed.FindTagLeftmost | scripts/scan-ct-feed.js:66 | no match starts between the search start and the match found |
| CtFeed.FindTagNone | scripts/scan-ct-feed.js:66 | when nothing is found, the regex matches nowhere after the start |
| CtFeed.LeftmostMatch | scripts/scan-ct-feed.js:66 | the leftmost match of the regex is exactly the one the scan returns |
| CtFeed.TagBody | scripts/scan-ct-feed.js:66-67 | the captured body is no longer than the block |
| CtFeed.TagBodyNone | scripts/scan-ct-feed.js:66-67 | there is no body exactly when the regex matches nowhere in the block |
| CtFeed.TagBodyFirstMatch | scripts/scan-ct-feed.js:66-67 | the body is the text between the leftmost opening tag and the first closing tag after it |
| CtFeed.ExtractTag | scripts/scan-ct-feed.js:65-68 | the result is trimmed, and it is `''` when the tag does not occur |
| CtFeed.ToXUrl | scripts/scan-ct-feed.js:70-77 | the result is `https://x.com` plus the link's pathname, or `https://x.com/<author>` when the link does not parse |
| CtFeed.HoursSince | scripts/scan-ct-feed.js:98 | the age in hours is never negative, and it is zero for a post dated now or later |
| CtFeed.ParseItem | scripts/scan-ct-feed.js:86-111 | an item yields a post iff its title and pubDate are non-empty, the title does not start with `RT @` or `@`, and the date parses; the post carries the account, the title and the parsed instant |
| CtFeed.ParseAllAdmissible | scripts/scan-ct-feed.js:91-111 | the posts kept are no more than the blocks, and each has the author, a non-empty trimmed title and no repost prefix |
| CtFeed.ParsedItemsAdmissible | scripts/scan-ct-feed.js:79-115 | every post `parseRss` emits has the given author, non-empty text and no repost prefix |
| CtFeed.ExecItem | scripts/scan-ct-feed.js:83-86 | one `exec` call returns the next item body, or reports that no item is left, and moves `lastIndex` forward |
| CtFeed.KeywordBonus | scripts/scan-ct-feed.js:100-103 | the loop adds 2 for each keyword contained in the lowered title |
| CtFeed.ScoreItem | scripts/scan-ct-feed.js:98-103 | the score lines compute minus the clamped age plus the keyword bonus, which is `Score` |
| CtFeed.ParseBlock | scripts/scan-ct-feed.js:86-111 | one loop iteration, including its `continue`s, computes exactly the post `ParseItem` specifies |
| CtFeed.ParseRss | scripts/scan-ct-feed.js:79-115 | the loop returns the posts of the item blocks, in document order, with skipped blocks removed |
| CtFeed.KeywordsDistinct | scripts/scan-ct-feed.js:31-47 | the keyword list has no duplicates |
| CtFeed.ScoreCountsDistinctKeywords | scripts/scan-ct-feed.js:98-103 | the score is minus the clamped age plus 2 per distinct keyword found (`sol` and `solana` both count) |
| CtFeed.FutureDatedScore | scripts/scan-ct-feed.js:98 | a future-dated post is kept with age zero, so its score is the keyword bonus alone |
| CtFeed.ScoreFavoursRecent | scripts/scan-ct-feed.js:98-99 | for the same text, a newer post scores at least as high |
| CtFeed.HourOldBeatsTwoDaysOld | scripts/scan-ct-feed.js:98-103 | a post one hour old outranks a post 48 hours old that has no keywords |
| CtFeed.FetchFeed | scripts/scan-ct-feed.js:117-134 | mirrors are tried in list order and the first OK reply is returned; `null` comes back iff every mirror failed |
| CtFeed.ScoreLeTotalPreorder | scripts/scan-ct-feed.js:158 | the comparator `b.score - a.score` is a total preorder, so the stable sort is well defined |
| CtFeed.SnapshotShape | scripts/scan-ct-feed.js:157-166 | the payload holds min(3, pool size) posts, all with the same `fetchedAt` |
| CtFeed.TopIsBest | scripts/scan-ct-feed.js:157-160 | kept posts are in non-increasing score order and come from the pool, and every post left out scores no higher than any post kept |
| CtFeed.Run | scripts/scan-ct-feed.js:136-166 | nothing is written iff no account got an OK reply; otherwise the payload is the snapshot of all accounts' posts, possibly empty |
| ScanList.UpperRun | scripts/scan-list.js:23 | the run of capitals from an offset is maximal |
| ScanList.CashtagsFrom | scripts/scan-list.js:23-24 | every tag found is 2 to 10 capital letters |
| ScanList.ExtractCashtags | scripts/scan-list.js:22-25 | every tag is 2 to 10 capital ASCII letters, with the `$` removed |
| ScanList.CashtagsFromIsEveryOffset | scripts/scan-list.js:23 | the global regex scan finds the cashtag at each offset where one starts, in order |
| ScanList.CashtagMembers | scripts/scan-list.js:22-25 | a tag is returned iff some offset holds `$` followed by that tag, which is the whole run of 2 to 10 capitals there, with no word character right after it |
| ScanList.NoDollarNoCashtags | scripts/scan-list.js:23 | text without `$` has no cashtags |
| ScanList.CashtagCount | scripts/scan-list.js:22-25 | there is one tag per cashtag occurrence, so repeats count each time |
| ScanList.ScoreTweet | scripts/scan-list.js:27-38 | the loop computes `TweetScore`: freshness `max(0, 10 - age)`, plus 2 per keyword, 3 per cashtag occurrence, and 2 for tier 1; an unparseable date gives NaN |
| ScanList.ScoreAtLeastContent | scripts/scan-list.js:29-36 | the score is at least its keyword, cashtag and tier points, which are never negative |
| ScanList.StaleTweetScore | scripts/scan-list.js:29 | after ten hours only the content points remain |
| ScanList.FutureTweetScore | scripts/scan-list.js:28-29 | a future timestamp is not clamped and earns more than 10 freshness points |
| ScanList.ScoreFavoursRecent | scripts/scan-list.js:28-29 | for the same text and tier, a newer tweet scores at least as high |
| ScanList.TierOneBonus | scripts/scan-list.js:36 | tier 1 adds exactly 2 points; any other tier adds nothing |
| ScanList.KeywordPoints | scripts/scan-list.js:31-33 | the keyword loop counts each distinct keyword found once |
| ScanList.LeadingValue | scripts/scan-list.js:45-47 | `parseInt` reads digits iff the text starts with a digit of the radix |
| ScanList.ParseIntNumeral | scripts/scan-list.js:45-47 | `parseInt` of a decimal numeral followed by a unit letter gives the number |
| ScanList.ParseIntUnsigned | scripts/scan-list.js:45-47 | without whitespace or a sign, `parseInt` reads the unsigned digits |
| ScanList.ParseRelativeTime | scripts/scan-list.js:40-54 | empty input is now; a trimmed string ending in `s`, `m` or `h` is its `parseInt` count of that unit before now, and only this branch can throw; any other string is its 2026 date when that parses to a valid instant, and now otherwise |
| ScanList.RelativeRoundTrip | scripts/scan-list.js:45-47 | `"<n>s"`, `"<n>m"` and `"<n>h"` read back as n seconds, minutes or hours before now |
| ScanList.CountSuffix | scripts/scan-list.js:44-47 | a count followed by a unit suffix is that count of units before now |
| ScanList.CountBranch | scripts/scan-list.js:45-47 | on trimmed input ending in `s`, `m` or `h`, the value is the parsed count of that unit before now |
| ScanList.BareUnitThrows | scripts/scan-list.js:45-47 | a unit with no count gives NaN, and the script throws rather than falling back to now |
| ScanList.BuildTierMap | scripts/scan-list.js:59-62 | the loop builds the map from lower-cased handle to tier, assigning the accounts in order |
| ScanList.TierMapKeys | scripts/scan-list.js:59-62 | the keys are exactly the accounts' lower-cased handles |
| ScanList.TierMapLastWins | scripts/scan-list.js:60-62 | for a handle, the entry is the tier of the last account with that lower-cased handle |
| Tags.TagToSlugIsSlug | src/lib/tags.ts:9-17 | a slug holds only `[a-z0-9-]`, has no `--`, and does not start or end with `-` |
| Tags.SlugFixpoint | src/lib/tags.ts:9-17 | a string that is already a slug is its own slug |
| Tags.TagToSlugIdempotent | src/lib/tags.ts:9-17 | slugging a slug changes nothing |
| Tags.PunctuationDropped | src/lib/tags.ts:12 | a character other than a letter, digit, whitespace or hyphen is deleted, not replaced (`Pump.fun` gives `pumpfun`) |
| Tags.AllTagsMembers | src/lib/tags.ts:26-27 | the flattened tags are exactly the tags of some article |
| Tags.FirstByKeys | src/lib/tags.ts:26-33 | the map's keys are the slugs of the tags, and each value is a tag with that slug |
| Tags.FirstByFirst | src/lib/tags.ts:26-33 | each slug maps to the first tag, in article-then-tag order, that produces it |
| Tags.FirstByStable | src/lib/tags.ts:29-31 | later tags never replace an entry |
| Tags.BuildSlugToTagMap | src/lib/tags.ts:23-35 | the nested loops build the first-wins map of all tags |
| Tags.SlugToTag | src/lib/tags.ts:41-44 | the lookup returns the entry of the first-wins map, or nothing |
| Tags.TagForSlugFound | src/lib/tags.ts:41-44 | a tag is found iff some article tag has that slug, and the tag found has that slug |
| Tags.SlugRoundTrip | src/lib/tags.ts:41-44 | looking up the slug of a known tag finds a tag with the same slug |
| Tags.GetArticlesByTag | src/lib/tags.ts:79-86 | the result is the articles having a tag with that slug, in input order; it is `[]` when the tag found is the empty string |
| Tags.WithSlugUnknown | src/lib/tags.ts:80-85 | an unknown slug selects no article |
| Tags.WithSlugMembers | src/lib/tags.ts:83-85 | an article is selected iff it is in the list and has some tag with that slug |
| Tags.Visit | src/lib/tags.ts:61-67 | one iteration raises the count of a known slug, or adds a new slug with count 1 and its tag |
| Tags.TallyFacts | src/lib/tags.ts:57-69 | one entry per distinct slug, in first-seen order; it holds the first tag and the number of tags with that slug |
| Tags.InfoLeTotalPreorder | src/lib/tags.ts:73 | the comparator, count descending and then tag ascending, is a total preorder |
| Tags.GetAllTags | src/lib/tags.ts:55-74 | the loops and the sort compute the ranked entries of all tags |
| Tags.RankedPermutes | src/lib/tags.ts:71-73 | sorting only reorders the entries |
| Tags.RankedOrdered | src/lib/tags.ts:73 | counts are non-increasing; equal counts come in tag order |
| Tags.RankedEntries | src/lib/tags.ts:71-72 | each ranked entry holds a slug, its first tag and its number of occurrences |
| Tags.RankedCovers | src/lib/tags.ts:71-72 | every tag's slug has an entry |
| Tags.RankedDistinct | src/lib/tags.ts:71-72 | no slug has two entries |
| Tags.RankedTotal | src/lib/tags.ts:57-73 | the counts sum to the total number of tags |
| Tags.TallyTotal | src/lib/tags.ts:59-69 | after the loops, the counts in the map add up to the number of tags visited |
| Tags.BumpTotal | src/lib/tags.ts:62-67 | each visited tag adds exactly one to the total count |
| Tags.ArticleUrlSlug | src/lib/tags.ts:89-101 | a category in `CATEGORY_PATH` gives `/<its route segment>/<slug>` (`news` goes to `/highlights/`), any other category gives `/news/<slug>`; the URL ends with the slug |
| Tags.ArticleUrlRoute | src/lib/tags.ts:89-101 | for one slug, two URLs are equal iff the categories are the same routed category or both have no route |
| Publish.ParseArgs | scripts/publish.js:8-27 | the index loop computes the `Parse` specification: options and positionals |
| Publish.ParseNext | scripts/publish.js:12-24 | one iteration consumes one argument, or a flag and its value, and records it |
| Publish.OptionKeys | scripts/publish.js:13-21 | the option keys are exactly the names of the flags given |
| Publish.OptionValues | scripts/publish.js:15-20 | an option value is `''` or a non-flag argument that was given |
| Publish.PositionalArgs | scripts/publish.js:22-24 | positionals are given arguments that are not flags |
| Publish.ParseFlag | scripts/publish.js:13-21 | `--k v` sets `k` to `v` and consumes `v`; `--k` before nothing, `''` or another flag sets `k` to `''` and consumes nothing |
| Publish.ParsePlainPrefix | scripts/publish.js:22-24 | leading non-flag arguments become positionals in order |
| Publish.NoFlags | scripts/publish.js:22-24 | without flags, every argument is positional, in order |
| Publish.KebabIsSlug | scripts/publish.js:29-36 | the result holds only `[a-z0-9-]`, has no `@` and no `--`, and does not start or end with `-` |
| Publish.KebabKeeps | scripts/publish.js:29-36 | every lower-case letter or digit of the lowered input survives |
| Publish.KebabOfSlug | scripts/publish.js:29-36 | a slug is its own kebab |
| Publish.KebabIdempotent | scripts/publish.js:29-36 | applying `kebab` twice equals applying it once |
| Publish.EnsureHandleShape | scripts/publish.js:124-127 | the result starts with `@`, followed by the handle without its `@`; empty input gives `@unknown` |
| Publish.EnsureHandleIdempotent | scripts/publish.js:124-127 | `ensureHandle` is idempotent |
| Publish.Split | scripts/publish.js:81 | `split('/')` gives at least one piece, and no piece holds the separator |
| Publish.SplitJoin | scripts/publish.js:81 | joining the pieces with the separator gives back the path |
| Publish.SplitNone | scripts/publish.js:81 | text without the separator is one piece |
| Publish.SplitAt | scripts/publish.js:81 | a separator ends the first piece |
| Publish.IndexOf | scripts/publish.js:83 | the index is that of the first occurrence, and -1 iff the element is absent |
| Publish.HandleShape | scripts/publish.js:78-89 | the handle is `@` plus the first non-empty path segment, and `''` when the URL does not parse or the path has no segment; the segment holds no `/` |
| Publish.StatusIdRule | scripts/publish.js:78-89 | the status id is the segment after the first `status` segment, `undefined` when `status` is last, and `''` when there is no `status` segment or the URL does not parse |
| Publish.PostUrl | scripts/publish.js:78-89 | the path `/<h>/status/<id>` gives handle `@<h>` and status id `<id>` |
| Publish.PostSegments | scripts/publish.js:81 | the non-empty segments of `/<h>/status/<id>` are `h`, `status` and `id` |
| Publish.PostPieces | scripts/publish.js:81 | `/<h>/status/<id>` splits into an empty piece, then `h`, `status` and `id` |
| Publish.DateSlugIsPrefix | scripts/publish.js:58-76 | the date slug is a prefix of the ISO timestamp and is followed by `T` |
| Publish.DateTextEnd | scripts/publish.js:74-75 | the date ends in a character `kebab` keeps |
| Publish.Offset480 | scripts/publish.js:66 | offset 480 is written `+08:00` |
| Publish.OffsetRoundTrip | scripts/publish.js:66 | the suffix is 6 characters: `+` iff the offset is non-negative, and the two-digit hours times 60 plus the minutes give back the absolute offset |
| Publish.Pad2Value | scripts/publish.js:61-66 | a padded number below 100 reads back as itself |
| Publish.ArticleIdNonEmpty | scripts/publish.js:162-163 | the article id is never empty |
| Publish.DraftReads | scripts/publish.js:165-213 | the draft's members: id, slug, publishedAt, no category, heroImage iff an image was given, sourcePost, kol, tags, body, headline, author |
| Publish.DraftIdentity | scripts/publish.js:162-169 | id and slug are the same non-empty slug without `@`, and there is no category |
| Publish.DraftTimestamps | scripts/publish.js:157-160 | `publishedAt` and the post timestamp are the same ISO string, and the id's date is its prefix |
| Publish.SourcePostReads | scripts/publish.js:187-192 | the post holds the URL, the text, the timestamp and four zero counters |
| Publish.DraftHandle | scripts/publish.js:137-138 | the KOL handle starts with `@`; without `--kol-handle` it is taken from the URL, or is `@unknown` |
| Publish.DraftNameFromUrl | scripts/publish.js:139 | without `--kol-name`, the name is the URL's handle without `@`, or `Unknown` |
| Publish.DraftImage | scripts/publish.js:165-170 | `heroImage` is present iff a non-empty `--image` was given, and it holds that value |
| Publish.DraftToken | scripts/publish.js:142 | the token is upper-cased; the first of three tags is the token, or `TOKEN` |
| Publish.Publish | scripts/publish.js:129-225 | no URL: usage and no writes. Otherwise the draft file is written first. An unreadable or non-array `articles.json` stops the run. If neither happens, the list is written back with exactly the draft appended |
| Pipeline.DraftNeedsOnlyCategory | scripts/validate-articles.js:39-82 | a draft saved as `<id>.json` has exactly one validation error, the missing category, and no warning |
| Pipeline.OnlyCategoryMissing | scripts/validate-articles.js:39-82 | an article complete but for its category yields that single error and no warning |
| Pipeline.OnlyCategoryField | scripts/validate-articles.js:39-43 | when only the category is falsy, the required-field check reports only that |
| Pipeline.SlugHasNoExtension | scripts/validate-articles.js:46 | a slug cannot contain `.json` |
| Pipeline.NoEngagementErrors | scripts/validate-articles.js:65-72 | the draft's zero counters are numbers and pass |
| Pipeline.NumbersPass | scripts/validate-articles.js:65-72 | counters that are all numbers give no error |
| Pipeline.MissingFieldsPresent | scripts/validate-articles.js:39-43 | truthy fields give no required-field error |
| ValidateArticles.CheckArticle | scripts/validate-articles.js:35-82 | the checks compute the article's errors and warnings; a `null` article throws |
| ValidateArticles.CheckSourcePost | scripts/validate-articles.js:57-73 | the `sourcePost` checks compute `PostErrors` |
| ValidateArticles.CheckEngagement | scripts/validate-articles.js:65-72 | the counter loop computes `EngagementErrors` |
| ValidateArticles.RequiredFieldErrors | scripts/validate-articles.js:39-43 | each required field yields exactly one error when missing or falsy, and none otherwise |
| ValidateArticles.MissingFieldsCount | scripts/validate-articles.js:39-43 | a field is reported once iff it is required and falsy |
| ValidateArticles.MissingFieldKinds | scripts/validate-articles.js:39-43 | required-field errors name required, falsy fields only |
| ValidateArticles.SlugMismatchRule | scripts/validate-articles.js:46-49 | there is a mismatch error iff the slug is present and differs from the file name minus `.json` |
| ValidateArticles.CategoryOnlyWarns | scripts/validate-articles.js:52-54 | a category outside the valid list is a warning, never an error |
| ValidateArticles.SourcePostPresentRule | scripts/validate-articles.js:57-63 | with a `sourcePost`, a missing `url` and a missing `text` are errors, and there is no warning |
| ValidateArticles.SourcePostAbsentRule | scripts/validate-articles.js:74-77 | without a `sourcePost`, there is only a warning and no `sourcePost` error |
| ValidateArticles.EngagementKinds | scripts/validate-articles.js:65-72 | counter errors name counter fields that are not numbers, with their `typeof` |
| ValidateArticles.EngagementComplete | scripts/validate-articles.js:65-72 | a counter that is not a number is reported, with its type |
| ValidateArticles.EngagementRule | scripts/validate-articles.js:65-72 | with `engagement` present, each counter that is not a number is an error |
| ValidateArticles.BodyRule | scripts/validate-articles.js:80-82 | there is a body error iff a body is present and is not a non-empty array |
| ValidateArticles.MissingBodyRule | scripts/validate-articles.js:39-43 | a missing body gives only the required-field error |
| ValidateArticles.ExpectedSlugOfPlainName | scripts/validate-articles.js:46 | `<name>.json` expects slug `name` when `name` holds no `.json` |
| ValidateArticles.ExpectedSlugRemovesFirst | scripts/validate-articles.js:46 | only the first `.json` is removed: `a.json.json` expects `a.json` |
| ValidateArticles.VisitFile | scripts/validate-articles.js:24-98 | one file: invalid JSON adds one error and is not checked; a `null` article throws; otherwise the article's errors and warnings are added and it counts as checked |
| ValidateArticles.Validate | scripts/validate-articles.js:21-105 | the loop over the `.json` files computes the summary and the exit status |
| ValidateArticles.CrashSticks | scripts/validate-articles.js:23-99 | once a file has thrown, later files change nothing |
| ValidateArticles.CrashRule | scripts/validate-articles.js:39-40 | the run ends in an exception iff some file parses to `null` |
| ValidateArticles.CounterRule | scripts/validate-articles.js:23-99 | `checked` counts the parsed files; errors are the invalid files plus the articles' errors; warnings are the articles' warnings |
| ValidateArticles.ExitRule | scripts/validate-articles.js:103-105 | the exit status is 1 iff some file is `null` or invalid JSON or has an error; warnings never affect it |
| Format.Elapsed | src/lib/format.ts:21-31 | an invalid date gives NaN; minutes are below 60, hours between 1 and 23, days at least 1 |
| Format.FutureIsNow | src/lib/format.ts:24-26 | a time at or after now renders as `0m ago` |
| Format.InvalidDate | src/lib/format.ts:21-31 | an invalid date renders as `NaNd ago` |
| Format.Buckets | src/lib/format.ts:25-30 | under 60 minutes: the minutes; under 1440: `floor(minutes/60)` hours; otherwise `floor(minutes/1440)` days |
| Format.DaysOfMinutes | src/lib/format.ts:27-29 | flooring to hours and then to days equals flooring minutes by 1440 |
| Format.Monotone | src/lib/format.ts:24-30 | an earlier instant never lands in a smaller bucket |
| Format.RenderInjective | src/lib/format.ts:26-30 | different buckets render as different text |
| Format.UnitLetter | src/lib/format.ts:26-30 | the text ends in `m ago`, `h ago` or `d ago`, after the bucket's decimal numeral |
| FeedXml.EscXmlAppend | src/app/feed.xml/route.ts:9 | escaping distributes over concatenation |
| FeedXml.EscXmlChar | src/app/feed.xml/route.ts:9 | each character is escaped on its own: `&`, `<`, `>` and `"` become entities |
| FeedXml.EscXmlEach | src/app/feed.xml/route.ts:9 | the four chained replaces equal escaping character by character |
| FeedXml.EscapedNoMarkup | src/app/feed.xml/route.ts:9 | the output has no raw `<`, `>` or `"` |
| FeedXml.EscapedEntities | src/app/feed.xml/route.ts:9 | every `&` in the output begins `&amp;`, `&lt;`, `&gt;` or `&quot;` |
| FeedXml.EscapePlain | src/app/feed.xml/route.ts:9 | apostrophes and all other characters pass unchanged |
| FeedXml.Sorted | src/app/feed.xml/route.ts:5-7 | the sorted copy has the same articles |
| FeedXml.NewestFirst | src/app/feed.xml/route.ts:5-7 | with valid dates, items are in non-increasing `publishedAt` order |
| FeedXml.ItemLinks | src/app/feed.xml/route.ts:16-17 | an item's `<link>` and `<guid>` are both `<base>/articles/<slug>` |
| FeedXml.OneItemPerArticle | src/app/feed.xml/route.ts:11-31 | the feed holds the item of every article |

## Left out

- Network: `fetch` in `fetchFeed` is a function from request URL to a reply or network error, so retries, timeouts and headers are not modelled. `fetchDexScreener` (scripts/publish.js:91-122) is not modelled; the publisher takes its outcome as an optional record of formatted strings.
- Console output: the log lines and the scan-list `main` instructions are not modelled. The filesystem is not modelled: reads become inputs and writes become returned values.
- `mkdirSync` and a failing `writeFileSync` in the CT scanner are not modelled.
- The `catch` in `run` around each account is not modelled: the model's fetch and parse cannot throw.
- Floating point: scores and ages are exact rationals (`real`), not IEEE doubles, so rounding is not modelled.
- `formatUsd` and `formatCompactUsd` (scripts/publish.js:38-56) are not modelled: they are `toFixed` on floats.
- The other formatters in src/lib/format.ts (`formatNumber`, `formatCurrency`, `formatCompact`, `formatPercent`) are not modelled: they use `Intl` and `toFixed`.
- Dates:
  - `new Date(string)`, `toISOString`, `toUTCString` and the UTC calendar fields of an instant are parameters, not implementations;
  - the RFC 822 and `Feb 26 2026` parsers are abstract partial functions;
  - CT feed posts carry their instant as milliseconds rather than its ISO text.
- URL parsing (WHATWG `new URL`) is a parameter returning the pathname or nothing.
- Case mapping is ASCII only. `toLowerCase`/`toUpperCase` of non-ASCII letters is not modelled; the regex `i` flag without `u` agrees with this for the tags involved.
- `localeCompare` in `getAllTags` is modelled as code-point order (`Text.StrLe`). `localeCompare` uses locale collation, so the tie order of tags that differ in case, accents or punctuation can differ from the model. Code-point order also differs from UTF-16 code-unit order for characters above U+FFFF against U+E000–U+FFFF.
- The DexScreener lookup in `publish.js` is the parameter `dex` of `Publish.Publish`, and the model does not tie it to the token: `fetchDexScreener('')` fails at once, so with an empty `--token` only `dex == None` occurs in the source, while the model accepts any `dex`.
- FeedXml.Sorted: with an invalid `publishedAt` the comparator of the feed route returns NaN, which the sort reads as 0. The comparator is then inconsistent, and the order JavaScript produces is implementation-defined. The model keeps such an article in place, which is one allowed outcome. `FeedXml.NewestFirst` requires valid dates.
- `CATEGORY_PATH` lookups in `articleUrl`: a category that names an `Object.prototype` property, such as `constructor`, makes `CATEGORY_PATH[category]` a function, not `undefined`. The model sends every category outside the table to `news`.
- JSON:
  - parsed values are a datatype, with objects as maps;
  - key order and the two-space pretty printing of `JSON.stringify` are not modelled;
  - neither are keys like `__proto__` that are special to JavaScript objects.
- Publish.Publish: a missing or unreadable `articles.json` and invalid JSON in it are one outcome, `Unreadable`; the model does not tell the two exceptions apart.
- UI: the React pages and components, `next.config.mjs`, `tailwind.config.ts`, src/lib/coingecko.ts, the newsletter route and the OG image script are not part of this model.
- CtFeed.TopIsBest: states the order and the best-of-pool property, not which of several equal-score posts the stable sort keeps. That follows from `SortBy` being a stable insertion sort, but no lemma states it.
- No lemma relates `escXml` and `decodeXml` as inverses. They are not: `decodeXml` decodes `&amp;` first and trims.
