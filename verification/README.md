# eng-blog content core, modelled in Dafny

The blog keeps its posts as markdown files with a YAML front matter block
in a `posts/` directory. This project models the code that works on those
files and on the lists of posts built from them:

- `lib/posts.ts`: date-prefix stripping, slug-to-file resolution, the post
  record with its defaults and reading time, the three-key newest-first
  order of `getAllPosts`, and the file name and front matter `createPost`
  derives.
- `app/api/publish/route.ts`: the in-memory per-client rate limiter, slug
  derivation, the hand-written front-matter serialiser, tag sanitising and
  the fixed order of the gates of `POST` (429, 401, 400, then the remote
  push).
- `app/api/posts/route.ts`: the JSON listing `GET /api/posts?limit=N`,
  with JavaScript's `parseInt` and `slice` semantics for the limit.
- `docs/update-blog-for-hoodini-repo.ts`: mapping remote posts to one
  record, the two-column HTML table built by nested loops, the
  two-language section, and splicing it between the README markers.
- `app/page.tsx` and `components/PostGrid.tsx`: the featured/loop/grid
  partition of the home page and the tag filter.
- `validate-posts.js`: the success and error counters and the exit code.

The directory listing is a `seq<string>` of file names. The parsed files
are a `map` from file name to front matter and body; a name missing from
the map is a file that cannot be read or parsed. The clock, the
environment variables, the remote APIs, markdown rendering and date
formatting are parameters. The mutable rate-limit map is a class whose
method is proved against a function on the map. The table builder is a
method with the source's two loops, proved equal to a recursive
definition of the table.

Modules, one file each: `Js` (the JavaScript string and array operations
used: truthiness, `||` defaults, `slice`, `indexOf`, `toLowerCase`,
`filter`, string `<`), `Sorting` (a reference sort: sorted and a
permutation), `Slug`, `Posts`, `PublishRateLimit`, `Publish`, `PostsApi`,
`BlogSection`, `HomePage`, `PostGrid`, `ValidatePosts`.

Behaviour of the code that the model follows:

- The default excerpt is the first 160 characters of the body plus
  `...`. Markup is not stripped.
- The publish route takes only the flat `{title, content, …}` body. It has
  no CMS-shaped payloads and no HTML-to-markdown conversion.
- `stripDatePrefix` needs a non-empty, single-line rest after the date,
  because the `.+` of the pattern does not match line terminators.
- `GET /api/posts` keeps the date prefix in the slug and sorts on the date
  alone.

## Model

| member | source | states |
|---|---|---|
| Js.IndexOf | docs/update-blog-for-hoodini-repo.ts:218-219 | `indexOf`: the result is an occurrence and no earlier index is one; `None` (for -1) exactly when the text does not occur |
| Js.Filter | lib/posts.ts:64 | `filter` keeps exactly the elements that pass, all of which pass, and never lengthens the list |
| Js.FilterSubsequence | components/PostGrid.tsx:19 | `filter` keeps the order of the elements it keeps |
| Js.LessTrichotomy | lib/posts.ts:95 | string `<` is a strict total order: exactly one of `a < b`, `a == b`, `b < a` |
| Js.LessTransitive | lib/posts.ts:95 | string `<` is transitive |
| Sorting.SortBy | lib/posts.ts:93-104 | the reference for `Array.prototype.sort`: the result is a permutation of the input, sorted by the given total preorder |
| Slug.CollapseRunsShape | app/api/publish/route.ts:27 | replacing each run of characters outside [a-z0-9] by `-` leaves only [a-z0-9-], no doubled hyphen, the same letters and digits in order, and is empty only for empty input |
| Slug.TrimHyphensKeepsShape | app/api/publish/route.ts:28 | trimming one leading and one trailing hyphen of a collapsed text gives a slug and keeps its letters and digits |
| Slug.Slugify | app/api/publish/route.ts:24-29 | `createSlug` always yields a slug (only [a-z0-9-], no doubled, leading or trailing hyphen) holding exactly the letters and digits of the lower-cased title |
| Slug.CollapseRunsWordSep | app/api/publish/route.ts:27 | where the hyphens go: a word of [a-z0-9] followed by a whole run of other characters becomes the word and one hyphen, and the collapsing goes on after the run |
| Slug.TrimHyphensOfWordEnds | app/api/publish/route.ts:28 | a text that starts and ends with a letter or digit loses nothing to the trimming |
| Slug.SlugifyTwoWords | app/api/publish/route.ts:24-29 | two words separated by a run without letters or digits become the two lower-cased words joined by exactly one hyphen |
| Slug.SlugifyExample | app/api/publish/route.ts:24-29 | `A, b` becomes `a-b` |
| Slug.SlugifyOfSlug | app/api/publish/route.ts:24-29 | a slug is its own slug |
| Slug.SlugifyIdempotent | lib/posts.ts:154-157 | deriving a slug twice gives the same slug as once |
| Posts.StripDatePrefix | lib/posts.ts:27-34 | the prefix is recognised exactly for 10 date-shaped characters, a hyphen and a non-empty single-line rest; when it is, the name is the prefix plus the slug; otherwise the slug is the whole name |
| Posts.StripDatePrefixOfDated | lib/posts.ts:27-34 | any digit-shaped date, hyphen and single-line rest strips to the rest, whether or not the date exists in the calendar |
| Posts.StripDatePrefixExamples | lib/posts.ts:28-33 | `2026-13-99-x` strips to `x`; `2026-01-05-` and `my-post` are kept whole |
| Posts.FirstMatchSpec | lib/posts.ts:45-54 | the scan returns a listing entry that matches with no earlier match, and nothing exactly when no entry matches |
| Posts.ResolvePostFile | lib/posts.ts:37-57 | an exact `{slug}.md` in the listing wins; any other result is a listing entry ending in `.md` whose stripped base name is the slug; `None` exactly when neither exists |
| Posts.FindPostFile | lib/posts.ts:37-57 | an exact `{slug}.md` wins; otherwise the first `.md` entry whose stripped base name is the slug; `None` when there is none; a result is a listing entry ending in `.md` |
| Posts.ReadingTime | lib/posts.ts:73-74 | at least one minute, and the least whole number of minutes at 200 words per minute that covers the word count |
| Posts.WordCountIsWords | lib/posts.ts:73 | `trim().split(/\s+/).length` is the number of words, except that text without words still counts as one |
| Posts.BuildPost | lib/posts.ts:76-87 | each field is the front-matter value when truthy and otherwise its default (`Untitled`, today, the 160-character excerpt with `...`, `[]`, the site author); title, excerpt and author are never empty; the reading time is at least 1 |
| Posts.Compare | lib/posts.ts:93-104 | the comparator answers -1 or 1, never 0 |
| Posts.CompareIsListedBefore | lib/posts.ts:93-104 | the comparator puts `a` first exactly when `a` is strictly before `b` in the order date descending, then date-prefixed first, then slug descending; it never answers 0 |
| Posts.ListedBeforeTotalPreorder | lib/posts.ts:93-104 | that order is total and transitive, so sorting by it is well defined up to equal keys |
| Posts.ListedAll | lib/posts.ts:62-89 | one record per `.md` file, in listing order |
| Posts.GetAllPosts | lib/posts.ts:59-109 | a file that cannot be read gives `[]`; otherwise the result is a permutation of the records of all `.md` files, sorted by the three-key order |
| Posts.GetAllPostsOrder | lib/posts.ts:91-104 | for any earlier position: not an older date; on the same date not a plain file before a date-prefixed one; on the same date and kind not a smaller slug |
| Posts.GetAllPostsSources | lib/posts.ts:63-89 | every listed post comes from a readable `.md` file of the listing, with its date prefix stripped for the slug |
| Posts.GetPostBySlug | lib/posts.ts:111-144 | `None` when no file resolves or it cannot be read; otherwise the record of the resolved file with the requested slug, the rendered body and the reading time of the raw body |
| Posts.CreatePost | lib/posts.ts:146-176 | the slug is the slug rule applied to the title; the file name is `{date}-{slug}.md`; the date, excerpt, cover image and tags (`[]`) take their defaults; title and body are kept; the author is fixed |
| Posts.CreatePostFileNameStrips | lib/posts.ts:154-160 | with a date-shaped date and a non-empty slug, the written file name strips back to the slug |
| Posts.CreatedPostResolves | lib/posts.ts:154-160 | once written into a listing where the slug did not resolve, the slug resolves to the new file |
| Posts.FirstMatchAppend | lib/posts.ts:46-54 | a matching entry added after a listing with no match is the first match |
| PublishRateLimit.Step | app/api/publish/route.ts:8-22 | a check is accepted exactly when fewer than 10 stored times are less than an hour old; a refusal leaves the log unchanged; an acceptance stores the pruned list plus `now` |
| PublishRateLimit.StepKeepsBound | app/api/publish/route.ts:8-22 | a check keeps every stored list at 10 or fewer, changes no other client's list, and on acceptance ends the client's list with `now` |
| PublishRateLimit.RequestLog.constructor | app/api/publish/route.ts:4 | the log starts empty |
| PublishRateLimit.RequestLog.CheckRateLimit | app/api/publish/route.ts:8-22 | the method returns the answer of `Step` and leaves the log as `Step` describes, keeping the bound |
| PublishRateLimit.EleventhInWindowRejected | app/api/publish/route.ts:14-16 | after 10 accepted requests from one client, all within less than an hour of a later request, that request is refused |
| PublishRateLimit.RecentOfStale | app/api/publish/route.ts:13 | pruning removes every time at least an hour old |
| PublishRateLimit.AcceptedAfterWindow | app/api/publish/route.ts:12-21 | once all stored times are an hour old, the next request is accepted and the list becomes just `now` |
| Publish.EscapeQuotes | app/api/publish/route.ts:40 | the quote-only escape as written: it never shortens the text and never starts with a bare quote |
| Publish.EscapeQuotesAppend | app/api/publish/route.ts:40 | the escape works character by character: `"` becomes `\"`, every other character is kept, and escaping a concatenation escapes each part |
| Publish.EscapeQuotesRoundTrip | app/api/publish/route.ts:40 | undoing the escape (`\"` back to `"`) gives every text back: the escape loses nothing |
| Publish.BackslashTitleMisread | app/api/publish/route.ts:40 | as written, `C:\` escapes to itself and the quoted value read back is never `C:\`, whatever follows the closing quote |
| Publish.BackslashTitleFileUnreadable | app/api/publish/route.ts:31-51 | as written, the front matter of a post titled `C:\` does not read back at all: the title's value runs into the next line |
| Publish.EscapeYaml | app/api/publish/route.ts:40 | the corrected escape never shortens the text and leaves no raw line break in it |
| Publish.EscapeYamlReadsBack | app/api/publish/route.ts:40-42 | the corrected escape round-trips: a quoted value written with it reads back as the text, and the reader stops at the closing quote |
| Publish.EscapeYamlAgrees | app/api/publish/route.ts:40 | for text without a backslash or line break, the corrected escape writes exactly what the source writes |
| Publish.ReadEscapeChar | app/api/publish/route.ts:40 | reading one escaped character adds exactly that character to the value |
| Publish.QuoteTags | app/api/publish/route.ts:44 | each tag becomes `"tag"`, one per tag |
| Publish.TagList | app/api/publish/route.ts:44 | the list is bracketed, and is `[]` exactly when there are no tags |
| Publish.TagListReadsBack | app/api/publish/route.ts:44 | tags without quote, backslash or line break read back from the written list as the same tags in the same order, and the reader stops right after `]` |
| Publish.FrontMatterFileReadsBack | app/api/publish/route.ts:39-48 | the template reads back field by field (title, date, excerpt, cover image, tags, the fixed author) and then gives the body unchanged, whenever each written value reads back |
| Publish.CreateMarkdownContentReadsBack | app/api/publish/route.ts:31-51 | as written: when the title and excerpt hold no backslash or line break and the date, cover image and tags need no escape, the file reads back as the title, the date, `excerpt \|\| content.slice(0, 160) + '...'`, `coverImage \|\| ''`, the tags in order, the fixed author and the body |
| Publish.CorrectedMarkdownContentReadsBack | app/api/publish/route.ts:31-51 | with the corrected escape the same read-back holds for every title and every excerpt |
| Publish.ClientKey | app/api/publish/route.ts:100-102 | the client key is the first non-empty of `x-forwarded-for` and `x-real-ip`, else `unknown`; it is never empty |
| Publish.StringEntries | app/api/publish/route.ts:149 | the type filter keeps exactly the strings the array holds |
| Publish.StringEntriesAppend | app/api/publish/route.ts:149 | the filter commutes with concatenation, so the kept strings are in array order |
| Publish.SanitizeTags | app/api/publish/route.ts:148-150 | `[]` for a non-array; otherwise the first `min(n, 10)` of the `n` string entries, in order |
| Publish.Check | app/api/publish/route.ts:105-145 | no early reply exactly when the rate check accepts, the key matches, the body parsed, title and content are present, and they are within 200 and 100000 characters; every early reply is a failure |
| Publish.PublishBody | app/api/publish/route.ts:152-185 | published exactly when the push of `{date}-{slug}.md` with the markdown built from the sanitised tags succeeds; a failed push gives 500 with the push's error or `Failed to create post in repository.`; success carries the slug of the title, the fixed message and `/posts/{date}-{slug}` |
| Publish.Gate | app/api/publish/route.ts:105-185 | 429 exactly when the rate check refuses; 401 exactly when it accepts and the key is missing or wrong; then 500 for a body that is not JSON and 400 for a missing title or content; a 400 only for a missing field or a field over its limit |
| Publish.PublishedPassedGates | app/api/publish/route.ts:105-185 | a published reply implies every gate passed, both lengths are within their limits, and the slug and URL are derived from the title and date |
| Publish.LengthLimits | app/api/publish/route.ts:132-145 | with the earlier gates passed, the reply is a 400 exactly when the title exceeds 200 or the content exceeds 100000 characters |
| Publish.HandlePublish | app/api/publish/route.ts:97-193 | the rate check records the request whatever a later gate decides, and the reply is that of the gates given the check's answer |
| PostsApi.ParseInt | app/api/posts/route.ts:22 | `NaN` exactly when no digit follows the leading white space and an optional sign; the value is not positive after `-` and not negative otherwise |
| PostsApi.ParseIntSkipsSpace | app/api/posts/route.ts:22 | leading JavaScript white space, the Unicode space separators included, does not change the result |
| PostsApi.ParseIntAfterIdeographicSpace | app/api/posts/route.ts:22 | `parseInt("\u30005")` is 5 |
| PostsApi.ParseIntOfDecimal | app/api/posts/route.ts:22 | `parseInt` reads any decimal numeral back as its value, signed or not, whatever non-digit text follows |
| PostsApi.ParseDigitsOfDecimal | app/api/posts/route.ts:22 | the leading digits of a numeral followed by a non-digit read back as its value |
| PostsApi.ParseIntOfPositive | app/api/posts/route.ts:22 | an unsigned numeral with trailing text reads as its value |
| PostsApi.ParseIntOfNegative | app/api/posts/route.ts:22 | a numeral after `-` reads as its negation |
| PostsApi.ParseIntFive | app/api/posts/route.ts:22 | the default `'5'` reads as 5 |
| PostsApi.SliceEnd | app/api/posts/route.ts:52 | `slice(0, end)`: at most the list length; a non-negative end is capped at the length, a negative one counts from the back, and `NaN` gives 0 |
| PostsApi.ApiExcerpt | app/api/posts/route.ts:42 | the default excerpt is the first 160 characters of the body, each line feed turned into a space and every other character kept, followed by `...` |
| PostsApi.ApiPostFor | app/api/posts/route.ts:29-47 | the slug is the file name without `.md`; the URL is the base URL, `/posts/` and the slug; title, date, excerpt, tags (`[]`) and author take their defaults; the cover image is present exactly when truthy |
| PostsApi.ApiPostsFor | app/api/posts/route.ts:27-48 | one record per `.md` file, in listing order |
| PostsApi.Compare | app/api/posts/route.ts:50 | the comparator answers -1 or 1, never 0 |
| PostsApi.CompareIsNewer | app/api/posts/route.ts:50 | the comparator puts `a` first exactly when its date is strictly later |
| PostsApi.NewerOrSameTotalPreorder | app/api/posts/route.ts:50 | "not older than" is total and transitive |
| PostsApi.SortedPrefix | app/api/posts/route.ts:50-52 | the first `k` of a sorted list are sorted, a sub-multiset, and none is older than any post left out |
| PostsApi.PrefixNotOlder | app/api/posts/route.ts:50-52 | no post of the prefix is older than a post after it |
| PostsApi.Get | app/api/posts/route.ts:19-66 | a 500 exactly when some `.md` file cannot be read; otherwise as many posts as `slice(0, parseInt(limit))` keeps, `total` is that number, the posts are records of the files, newest first, and none is older than a post left out |
| PostsApi.ListedUrlsResolve | app/api/posts/route.ts:30-46 | every record built from the `.md` files (`Get` returns a sub-multiset of them) has the URL base URL plus `/posts/` and the slug, and that slug resolves to its own file |
| PostsApi.DefaultLimitIsFive | app/api/posts/route.ts:22 | without a limit, the listing holds five posts, or every post when there are fewer `.md` files |
| BlogSection.ToBlogPost | docs/update-blog-for-hoodini-repo.ts:62-68 | empty or missing fields take their defaults (`Untitled`, `''`, the current time); the image is present exactly when non-empty |
| BlogSection.ToBlogPosts | docs/update-blog-for-hoodini-repo.ts:102-108 | one record per remote post, in order |
| BlogSection.ShortDesc | docs/update-blog-for-hoodini-repo.ts:149-151 | a description of up to 150 characters is kept; a longer one becomes its first 150 characters plus `...` |
| BlogSection.AppendCell | docs/update-blog-for-hoodini-repo.ts:131-154 | the appended text is exactly the cell of the post |
| BlogSection.Cell | docs/update-blog-for-hoodini-repo.ts:131-154 | a cell opens with the `<td>` tag and ends with the heading, description, date and closing lines; it is longer than those exactly when the post has a non-empty image URL |
| BlogSection.CellImage | docs/update-blog-for-hoodini-repo.ts:140-144 | the linked image appears in a cell exactly when the post has a non-empty image URL, right after the opening `<td>` |
| BlogSection.ChunksShape | docs/update-blog-for-hoodini-repo.ts:127-130 | rows of two: `ceil(n/2)` rows of one or two posts that together are the posts in order |
| BlogSection.ChunkAt | docs/update-blog-for-hoodini-repo.ts:127-130 | row `m` holds the posts from `2m` up to `min(2m+2, n)` |
| BlogSection.Section | docs/update-blog-for-hoodini-repo.ts:119-122 | the section is empty exactly when there are no posts |
| BlogSection.AppendRow | docs/update-blog-for-hoodini-repo.ts:128-157 | the inner loop appends one `<tr>` with the cells of the given posts in order |
| BlogSection.FormatPostsSection | docs/update-blog-for-hoodini-repo.ts:119-162 | the two nested loops produce exactly the heading, one row per pair of posts and the closing tag |
| BlogSection.AllSections | docs/update-blog-for-hoodini-repo.ts:164-183 | the no-posts comment exactly when both lists are empty; otherwise the English section comes first and the Hebrew one last, between two line breaks |
| BlogSection.FormatAllPostsAsMarkdown | docs/update-blog-for-hoodini-repo.ts:164-183 | the method builds exactly that text |
| BlogSection.Splice | docs/update-blog-for-hoodini-repo.ts:207-224 | `None` exactly when a marker is missing; otherwise the text up to the end of the first start marker, the section, and everything from the first end marker on |
| BlogSection.SpliceCurrentSection | docs/update-blog-for-hoodini-repo.ts:218-224 | splicing in the text already between the markers gives the README back unchanged |
| BlogSection.UpdateReadme | docs/update-blog-for-hoodini-repo.ts:185-234 | a failed Hebrew fetch writes nothing; a failed English fetch counts as no English posts; otherwise the README is spliced with both sections |
| HomePage.Home | app/page.tsx:15-49 | a featured post exactly when there are posts; at most four in the loop; the grid is always the posts from the sixth on, so the fallback never changes it |
| HomePage.HomePartition | app/page.tsx:15-49 | the featured post is the first; the loop holds posts 2 to 5; the grid is always the posts from the sixth on; together they are every post once, in order |
| HomePage.FeaturedIsNewest | app/page.tsx:8-15 | no post on the home page has a later date than the featured one |
| PostGrid.FilteredPosts | components/PostGrid.tsx:17-19 | `All` shows every post; any other tag shows exactly the posts whose tag list holds the lower-cased tag |
| PostGrid.FilteredIsSubsequence | components/PostGrid.tsx:17-19 | the filtered list keeps the order of the posts |
| PostGrid.UntaggedOnlyUnderAll | components/PostGrid.tsx:17-19 | a post without tags is shown only under `All` |
| PostGrid.CapitalisedTagNotMatched | components/PostGrid.tsx:12-19 | a post tagged `AI` is not shown under the `AI` button, one tagged `ai` is |
| ValidatePosts.CountPassing | validate-posts.js:11-21 | the number of passing files is at most the number of files |
| ValidatePosts.CountPassingAll | validate-posts.js:16-21 | every file passes exactly when the pass count equals the file count |
| ValidatePosts.AllPass | validate-posts.js:6-21 | every `.md` file of the listing passes exactly when all of them are counted as valid |
| ValidatePosts.Tally | validate-posts.js:11-26 | the loop counts the passing files as successes and every other file as an error |
| ValidatePosts.Validate | validate-posts.js:6-29 | successes and errors add up to the `.md` files; the exit code is 1 exactly when there is an error and 0 exactly when every `.md` file has a title, date and excerpt |

## Findings

| source | as written | input that shows it | evidently intended | confidence | as-written member | corrected member |
|---|---|---|---|---|---|---|
| app/api/publish/route.ts:40 | the title (and the excerpt, line 42) goes into a double-quoted YAML value with only `"` escaped; a backslash is written as it is | a title ending in a backslash, such as `C:\`: the line becomes `title: "C:\"`, the closing quote is read as an escaped quote, and the value read back is not the title | backslash (and line breaks) escaped as well, so the value reads back as the title | not executed; high | Publish.BackslashTitleFileUnreadable | Publish.CorrectedMarkdownContentReadsBack |

## Left out

- Publish.CreateMarkdownContent follows the source and writes the title and the excerpt with the quote-only escape. The publish route uses it. `Publish.CorrectedMarkdownContent` beside it uses the corrected escape (see Findings).
- Publish.ReadQuoted: models the YAML double-quoted reader only for the escapes `\"`, `\\`, `\n` and `\r`, and treats a raw line break as the end of the value. Line folding and the other escapes are not modelled.
- Publish.ReadFrontMatter reads only the layout the template writes: the fields in the template's order, each double-quoted, and the tags as a flow sequence of double-quoted items. It is the reader the round-trip lemmas are stated with, not a general YAML parser.
- Tag values, the date and the cover image are not escaped in the source. `Publish.TagListReadsBack` and `Publish.CreateMarkdownContentReadsBack` therefore ask for values without a quote, backslash or line break; a tag with a quote breaks the list.
- Front-matter parsing (gray-matter) and `matter.stringify` are not modelled. A parsed file is a record of optional strings plus a body; `createPost` produces the record it would serialise. Dates that YAML turns into `Date` objects, and non-string fields, are not modelled.
- File system effects are not modelled: `readdirSync`, `readFileSync`, `writeFileSync`, creating the posts directory at module load (lib/posts.ts:21-24), and overwriting an existing file of the same name. A failing `readdirSync` is not modelled either; the listing is always given.
- Markdown rendering in `getPostBySlug` is the parameter `render`.
- The remote repository push `createGitHubFile` (app/api/publish/route.ts:53-95) is the parameter `push`, which returns success or an optional error. Token handling and the HTTP calls are not modelled.
- The liveness `GET /api/publish` (app/api/publish/route.ts:196-202) only reports a fixed status and the time, so it is not modelled.
- A request body that is not valid JSON is `None`, answered with the catch-all 500. Body fields that are not strings are not modelled.
- The remote fetches of the README updater are parameters: `None` for a failed fetch, including a missing `GHOST_API_KEY`. The `limit=5` they request is enforced by the remote API and not checked here. `process.exit(1)` is `None`. Console output is left out.
- `toLocaleDateString('en-US', …)` is the parameter `formatDate`. `new Date().toISOString()` gives the parameters `nowIso` and `today`, and `Date.now()` gives `now`.
- Posts.IsSpace, Js.Lower: whitespace and lower-casing are ASCII only. JavaScript's `\s` and `toLowerCase` also cover Unicode characters.
- Js.Less, BlogSection.ShortDesc, Posts.DefaultExcerpt, PostsApi.ApiExcerpt, Publish.Check, Publish.LengthLimits: strings are sequences of Unicode characters. JavaScript compares, counts and slices UTF-16 code units, which differ for characters outside the Basic Multilingual Plane.
- PostsApi.ParseInt: numbers are unbounded integers. Precision loss above 2^53 and the `Infinity` of very long numerals are not modelled.
- Posts.GetAllPosts, PostsApi.Get: the sort is specified as sorted and a permutation. Both comparators answer 1 for equal keys, so the engine's order among equal keys is not pinned down.
- The rate-limit log is per process and requests are handled one at a time. Concurrency and multiple server instances are not modelled.
