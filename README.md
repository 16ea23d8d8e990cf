# Ghost Job Checker — a Dafny model of its core logic

Ghost Job Checker is a marketing site with a small scoring service. A visitor
pastes a job-posting link, and the service fetches the page. It reads the
page's `Last-Modified` date, sorts the posting into a freshness bucket
(fresh, aging, stale, or missing), and returns a score together with three
"signals". The front end reveals those signals one by one on timers. The
site also carries a blog, which reads its posts from a remote CMS feed or
from bundled posts. It keeps the document head's SEO tags up to date, and a
script renders the blog's sitemap.

This project models that logic and proves what it promises:

- `analyze.dfy` — the `/api/analyze` handler (`server/index.js`). It is a
  pure function from the request's `url` field, the outcome of the outbound
  fetch and the server clock to the HTTP response.
- `cms.dfy` — from `src/blog/cms.ts`: normalising the feed's records, validating
  them, filtering by publish date, and the stable newest-first sort. It also
  covers the choice between the feed and the bundled posts, with all of its
  fallbacks.
- `blog_page.dfy` — from `src/blog/BlogPage.tsx`:
  - the paragraph tokenizer, a `while` loop over `regex.exec`, proved
    against a declarative statement of the link pattern;
  - the brand-name split;
  - pathname and slug routing, and the post lookup;
  - the three-way SEO branch.
- `sitemap.dfy` — `escapeXml` and `toSitemapXml` from
  `scripts/generate-blog-sitemap.mjs`:
  - `escapeXml` escapes with the five predefined entities of section 4.6 of
    XML 1.0 (Fifth Edition);
  - `toSitemapXml` builds a `urlset` in the sitemaps.org 0.9 schema.
- `seo.dfy` — `src/seo.ts`. The document head is a class `Head` whose
  sequence of keyed nodes the `upsert*` methods change in place. `applySeo`
  and the two JSON-LD writers are fixed sequences of upserts. Each is proved
  against a specification function on the node sequence.
- `app.dfy` — the analysis flow and the legal accordion of `src/App.tsx`,
  as a class `Page`. The network reply and each timer firing are explicit
  events.
- `contact.dfy` — the `canSend` rule and the send state machine of
  `src/components/ContactSection.tsx`, as a class `Form`.
- `text.dfy`, `seqs.dfy`, `wrappers.dfy`, `blog_types.dfy` — shared pieces:
  - JavaScript white space and `trim`, `indexOf`, `split`/`join`, and the
    decimal rendering of integers;
  - sequence helpers and `Option`;
  - the blog's record types (`src/blog/types.ts`).

Things outside the program are inputs:

- `Date.parse` and `new Date(text)` are an oracle `parse: string -> Option<int>`,
  giving milliseconds or `None` for NaN.
- The clocks are `now`; the ISO date of today is `today`.
- `window.location` is passed as `pathname`, `origin` and `hash`.
- Every fetch is represented by the outcome it had.

## Model

| member | source | states |
|---|---|---|
| Analyze.DetectedDate | server/index.js:42-49 | Only a present, non-empty `Last-Modified` header is parsed. A header the parser rejects counts as no date. |
| Analyze.DaysOld | server/index.js:51-57 | The age exists exactly when a date was detected. It is the floor of the elapsed milliseconds over a day: `date + age·day <= now < date + (age+1)·day`, negative for a future date. |
| Analyze.InvalidUrlRejectedBeforeFetch | server/index.js:22-26 | A missing, empty or non-string `url` gets 400 `{error: "Invalid URL"}` whatever the fetch would have done, and only such a `url` gets a 400. |
| Analyze.FetchFailureIsOpaque | server/index.js:90-95 | A fetch that throws gives 500 `{error: "Failed to fetch job page"}`, with no score or signals. |
| Analyze.FetchedPageIsScored | server/index.js:28-89 | A fetched page always gets a 200 with a score, whatever its own HTTP status. |
| Analyze.AgeIsFlooredDays | server/index.js:42-57 | The age is absent exactly when `Last-Modified` is absent, empty or unparsable. Otherwise it is the floored day count between the parsed date and `now`. |
| Analyze.BucketsPartition | server/index.js:61-66 | The buckets partition all ages: no date → missing, ≤45 → fresh, 46..90 → aging, >90 → stale (each one an if-and-only-if). |
| Analyze.ScoreTable | server/index.js:68 | The score is always 25, 55 or 85, never increases as the posting ages, and is 25 both for no date and for a stale posting. |
| Analyze.SignalRules | server/index.js:72-89 | `stale` fires exactly for a stale posting and carries "N days old" or "No date detected". `weak` never fires. `inactivity` fires exactly when the status is not 200, independent of the date. |
| Analyze.StaleInfoRoundTrip | server/index.js:78 | The age can be read back from the text "N days old" for every integer N, negative ones included. |
| Analyze.DelaysIncrease | server/index.js:75-87 | The delays are 1000, 2200 and 3400 ms, strictly increasing from stale to weak to inactivity. |
| Text.Trim | src/blog/cms.ts:33-36 | `trim` leaves no white space at either end, is empty exactly when the input is all white space, and does not change a string that has no white space at its ends. |
| Text.TrimKeepsMiddle | src/blog/cms.ts:33-36 | `trim` removes only white space at the two ends: its result is a piece `s[a..b]` of the input with nothing but white space before `a` and after `b`. |
| Text.SplitJoin | src/blog/BlogPage.tsx:20 | Joining the pieces of `split(sep)` with `sep` gives the string back. |
| Text.SplitPieces | src/blog/BlogPage.tsx:20 | No piece of `split(sep)` contains `sep`. |
| Text.SplitSingle | src/blog/BlogPage.tsx:20-21 | `split(sep)` has one piece exactly when `sep` does not occur. |
| Text.DecimalRoundTrip | server/index.js:78 | The decimal text of an integer parses back to that integer. |
| Cms.TrimmedIfGiven | src/blog/cms.ts:37-40 | An optional field is kept exactly when it is given non-empty, and is then its trimmed value. |
| Cms.EnvironmentSettings | src/blog/cms.ts:22-24 | The feed URL is blank exactly when its variable is unset or white space, and is trimmed. Scheduled posts are never shown when their variable is unset. |
| Cms.ShowScheduledReadsTrue | src/blog/cms.ts:23-24 | "true", "TRUE" or "True", with any white space around it, turns on scheduled posts. |
| Cms.NormalizeTags | src/blog/cms.ts:43 | Normalised tags are never empty and never have white space at their ends, and there are no more of them than in the input. |
| Cms.NormalizeTagsIsTrimThenFilter | src/blog/cms.ts:43 | Tag normalisation is the source's pipeline: every tag trimmed, then the non-empty ones kept, in order. |
| Cms.NormalizeTagsSingle | src/blog/cms.ts:43 | A single tag comes out as its trimmed value, or is dropped exactly when it is all white space. |
| Cms.NormalizeTagsAppend | src/blog/cms.ts:43 | Tag normalisation works tag by tag, in order: it distributes over concatenation. |
| Cms.NormalizeTagsKeepsClean | src/blog/cms.ts:43 | Tags that are already trimmed and non-empty come out unchanged. |
| Cms.ToBlogPostTrims | src/blog/cms.ts:33-36 | Slug, title, description and publish date come out trimmed, and are blank exactly when the record's value is missing or all white space. A value without surrounding white space is kept as it is. |
| Cms.ToBlogPostDefaults | src/blog/cms.ts:37-42 | `updatedAt` and the author's role are present exactly when given non-empty. The author's name defaults to "Ghost Jobs Editorial Team" and is otherwise the trimmed name. The author type defaults to Organization. |
| Cms.ToBlogPostLists | src/blog/cms.ts:43-46 | Tags that are not an array become empty; an array of tags becomes its normalised tags, each trimmed and non-empty. Content, citations and methodology are the given arrays, or empty when they are not arrays. |
| Cms.ValidAfterNormalising | src/blog/cms.ts:50-52 | A normalised record is valid exactly when none of slug, title, description and publish date is blank. |
| Cms.Insert | src/blog/cms.ts:54-57 | Inserting into a newest-first list keeps it sorted and adds exactly that one post. |
| Cms.SortPostsDescending | src/blog/cms.ts:54-58 | The result is a permutation of the input, ordered by non-increasing parsed publish date (empty dates as the epoch). |
| Cms.SortIsStable | src/blog/cms.ts:54-58 | Posts with the same date keep their input order. |
| Cms.NormalizeEntries | src/blog/cms.ts:72-73 | Each feed entry is mapped through `toBlogPost`, one for one. |
| Cms.LoadPublishedPosts | src/blog/cms.ts:60-81 | The result is always sorted newest first, and is a permutation of the selected source. |
| Cms.FallbackSources | src/blog/cms.ts:60-81 | With no feed URL, when the request throws, or when the feed array holds a `null` record (so `toBlogPost` throws), the bundled posts are used, only the published ones unless scheduled posts are shown. A non-ok response or a payload that is not an array gives all bundled posts, unfiltered. |
| Cms.FeedPostsAreValidAndPublished | src/blog/cms.ts:72-76 | Every post taken from the feed is a normalised feed record. It is valid and, unless scheduled posts are shown, already published. |
| Cms.FeedPostsAreAllKept | src/blog/cms.ts:72-76 | Conversely, every feed record that normalises to a valid post, published unless scheduled posts are shown, is among the loaded posts. |
| BlogPage.MatchAt | src/blog/BlogPage.tsx:32 | A match at index `i` ends after `i` and within the text. |
| BlogPage.MatchAtSound | src/blog/BlogPage.tsx:32 | Every match found is an occurrence of `[anchor](href)`. The anchor is non-empty and has no `]`. The href is `http://` or `https://` followed by at least one character that is neither white space nor `)`. |
| BlogPage.MatchAtComplete | src/blog/BlogPage.tsx:32 | Every occurrence of the pattern at `i` is found at `i`, with exactly those groups and end. With `MatchAtSound`, the search matches exactly the pattern's language. |
| BlogPage.FindMatch | src/blog/BlogPage.tsx:37 | `exec` from `lastIndex` reports an index at or after it where the pattern matches. |
| BlogPage.FindMatchLeftmost | src/blog/BlogPage.tsx:37 | The search skips no match: the pattern matches nowhere before the index found, or nowhere at all when none is found. |
| BlogPage.RenderParagraphText | src/blog/BlogPage.tsx:31-50 | The loop produces exactly the specified token list of the paragraph, and terminates because `lastIndex` strictly increases. |
| BlogPage.TokensRoundTrip | src/blog/BlogPage.tsx:37-49 | Joining the text parts verbatim and the link parts as `[anchor](href)` gives back the input exactly. |
| BlogPage.TokensWellFormed | src/blog/BlogPage.tsx:37-49 | No text part is empty. A text part is always followed by a link, so two text parts never touch. Every link has a valid anchor and an http(s) href. |
| BlogPage.NoLinksPlainText | src/blog/BlogPage.tsx:47-49 | A paragraph without any link is a single text part, or no part when it is empty. |
| BlogPage.InterleaveText | src/blog/BlogPage.tsx:23-28 | The pieces interleaved with brand links show the pieces joined by the brand. There is one link fewer than there are pieces. |
| BlogPage.BrandSegmentsText | src/blog/BlogPage.tsx:18-29 | The split shows the same characters. It links every occurrence of "Ghost Job Checker" and no other text. It leaves the text unchanged exactly when the brand does not occur. |
| BlogPage.StripTrailingSlashes | src/blog/BlogPage.tsx:63 | Every trailing `/` is removed and nothing else: the result is a prefix, followed in the input only by slashes, and does not end with `/`. |
| BlogPage.NormalizePathnameShape | src/blog/BlogPage.tsx:63 | The normalised pathname is never empty, never ends with `/`, and normalising it again changes nothing. |
| BlogPage.SlugIsRemainder | src/blog/BlogPage.tsx:64 | Under `/blog/`, the slug is everything after that prefix, so `/blog/` + slug is the pathname. |
| BlogPage.SlugRoundTrip | src/blog/BlogPage.tsx:63-64 | `/blog/<slug>`, with any number of trailing slashes, routes to `<slug>`. |
| BlogPage.IndexPaths | src/blog/BlogPage.tsx:63-64 | A raw path routes to a post slug exactly when it starts with `/blog/` and has a character other than `/` after that prefix; `/`, `/blog`, `/blog/`, `/blog//` and every other path have the empty slug. |
| BlogPage.FindPost | src/blog/BlogPage.tsx:78 | The lookup returns the first listed post with that slug (every earlier post has another slug), and returns nothing exactly when no post has it. |
| BlogPage.PageCanonical | src/blog/BlogPage.tsx:80-117 | The canonical URL is origin + `/blog` on the index, and origin + the normalised pathname on the not-found and post pages. |
| BlogPage.PageJsonLd | src/blog/BlogPage.tsx:80-117 | Only the index writes the blog JSON-LD, and only a found post writes the post JSON-LD. A post page is typed "article". |
| BlogPage.ApplyPageSeo | src/blog/BlogPage.tsx:80-117 | The effect leaves the head the page's branch specifies, and sets the document title from that branch's title. |
| Sitemap.EscapeXmlChar | scripts/generate-blog-sitemap.mjs:15-22 | One character becomes its entity when it is one of `& < > " '`, and stays unchanged otherwise. |
| Sitemap.EscapeXmlIsPerCharacter | scripts/generate-blog-sitemap.mjs:15-22 | The `replaceAll` chain escapes character by character. Because `&` is replaced first, no entity is escaped twice. |
| Sitemap.EscapeXmlAppend | scripts/generate-blog-sitemap.mjs:15-22 | Escaping distributes over concatenation. |
| Sitemap.EscapedHasNoMarkup | scripts/generate-blog-sitemap.mjs:15-22 | The output contains no `<`, `>`, `"` or `'`. |
| Sitemap.AmpersandsBeginEntities | scripts/generate-blog-sitemap.mjs:16-21 | Every `&` of the output begins one of the five entities. |
| Sitemap.EscapeRoundTrip | scripts/generate-blog-sitemap.mjs:16-21 | Decoding the five entities of the output gives back the original string. |
| Sitemap.EscapeIdentity | scripts/generate-blog-sitemap.mjs:15-22 | A string with none of the five special characters is left unchanged. |
| Sitemap.EntriesShape | scripts/generate-blog-sitemap.mjs:33-47 | `/` (daily, 1.0) comes first and `/blog` (weekly, 0.8) second, neither with a lastmod. Then comes one monthly 0.7 entry per qualifying post, in input order: the post's blog entry, located at `/blog/<slug>`. There are 2 + (number of qualifying posts) entries. |
| Sitemap.QualifyingPostsExactly | scripts/generate-blog-sitemap.mjs:39 | A post gets a row exactly when its slug and publish date are non-empty and the date parses to a time not after `now`. |
| Sitemap.QualifyingPostsKeepOrder | scripts/generate-blog-sitemap.mjs:38-39 | Selection works post by post and keeps input order: it distributes over concatenation. |
| Sitemap.BlogLastMod | scripts/generate-blog-sitemap.mjs:44-49 | A blog row's lastmod is the first ten characters of `updatedAt`, else of `publishedAt`. It is never empty, and the rendered row contains a `<lastmod>` tag. |
| Sitemap.TodayIsNeverUsed | scripts/generate-blog-sitemap.mjs:44 | The fallback to today's date never takes effect: the entries do not depend on `today`. |
| Sitemap.StaticRows | scripts/generate-blog-sitemap.mjs:49-50 | The two static entries have no lastmod, and their rendered rows contain no `<lastmod>` tag. |
| Sitemap.LastmodLineIffLastmod | scripts/generate-blog-sitemap.mjs:49-50 | A rendered row contains a `<lastmod>` tag exactly when its entry has a non-empty lastmod, since the location is escaped and the frequency and priority hold no `<`. |
| Sitemap.DocumentFrame | scripts/generate-blog-sitemap.mjs:54 | The document starts with the XML declaration and the `urlset` of the sitemaps.org 0.9 namespace, and ends with `</urlset>` and a newline. |
| Seo.FindUpserted | src/seo.ts:12-51 | After an upsert the key reads back the new value, and every other key reads as before. |
| Seo.UpsertedKeepsOthers | src/seo.ts:12-51 | An upsert leaves the nodes of every other key as they were, in the same order. |
| Seo.UpsertedCount | src/seo.ts:12-51 | After an upsert there is at least one node for the key. A node is created only when there was none, so no duplicate is ever added. |
| Seo.UpsertedIdempotent | src/seo.ts:12-51 | Upserting the same value twice is the same as upserting it once. |
| Seo.UpsertedKeepsDistinct | src/seo.ts:12-51 | A head with at most one node per key keeps that property, so there is exactly one node for the key. |
| Seo.ApplySeoFind | src/seo.ts:53-87 | After `applySeo` every key reads the value its table gives, independent of the order of the upserts, or its old value when `applySeo` does not write it. |
| Seo.ApplySeoLookups | src/seo.ts:57-86 | `og:title` and `twitter:title` hold the full title. The canonical link and `og:url` both hold origin + path. `og:type` defaults to "website". The article times are written only when given, and otherwise read as before. No other key changes. |
| Seo.ApplySeoKeepsDistinct | src/seo.ts:53-87 | `applySeo` adds no duplicate node to a head that had none. |
| Seo.BlogPostJsonLdFields | src/seo.ts:103-129 | `dateModified` is the update date, else the publish date. The author's `@type` defaults to Organization. `mainEntityOfPage` is origin/blog/slug. |
| Seo.Head.FindNode | src/seo.ts:12-51 | The selector finds the first node with the key, or reports that there is none. |
| Seo.Head.Upsert | src/seo.ts:12-51 | Find or create, then set: the new node sequence is exactly the specified upsert, and the title is unchanged. |
| Seo.Head.UpsertMetaByName | src/seo.ts:12-20 | Upserts the `meta[name]` node with the content. |
| Seo.Head.UpsertMetaByProperty | src/seo.ts:22-30 | Upserts the `meta[property]` node with the content. |
| Seo.Head.UpsertCanonical | src/seo.ts:32-40 | Upserts the canonical link with the href. |
| Seo.Head.UpsertJsonLd | src/seo.ts:42-51 | Upserts the script with the id, replacing its JSON data. |
| Seo.Head.ApplySeo | src/seo.ts:53-87 | Sets the document title to "title \| Ghost Job Checker", which `og:title` and `twitter:title` also hold. The canonical link and `og:url` agree. Absent article times keep their old values. Every key outside the SEO set keeps its value. |
| Seo.Head.ApplyBlogIndexJsonLd | src/seo.ts:89-101 | The `jsonld-blog` script holds the Blog object, with url origin/blog. |
| Seo.Head.ApplyBlogPostJsonLd | src/seo.ts:103-129 | The `jsonld-blogpost` script holds the post's BlogPosting object. |
| App.ReplyOf | src/App.tsx:83-98 | A reply is used exactly when the response is 2xx with an analysis body, and then its score is the body's score. A network error or any other response is a failure. |
| App.NextIndex | src/App.tsx:100-118 | The next timer to run is the earliest due. Among equals it is the first scheduled. |
| App.ScheduleForIsScheduled | src/App.tsx:100-118 | A delivered reply schedules three distinct reveals and then the finish, with every signal still pending. The finish is last, due at the largest delay + 300: at least 300 ms after every reveal and exactly 300 ms after the last. |
| App.ServiceSchedule | src/App.tsx:100-118 | With the service's reply the signals appear after 1000, 2200 and 3400 ms and the score after 3700 ms. |
| App.ServiceErrorsFail | src/App.tsx:83-98 | The service's reply is used exactly when the `url` is valid and the page was fetched; a 400, a 500 or a network error ends in the failure branch. |
| App.FinishRunsLast | src/App.tsx:113-118 | The finish runs only after all three reveals have run, when it is the only timer left. |
| App.RevealKeepsScheduled | src/App.tsx:100-110 | Running a reveal keeps the schedule well formed and marks exactly that signal complete. |
| App.Toggle | src/App.tsx:56-58 | The section is open afterwards exactly when it was not open before. |
| App.ToggleTwice | src/App.tsx:56-58 | When no section or that same section was open, toggling a section twice restores the state. With the other section open, two toggles leave none open. |
| App.LegalFromHashNames | src/App.tsx:49-54 | `#terms` and `#privacy` open their sections, and no other hash opens one. |
| App.Page.constructor | src/App.tsx:28-54 | The page starts idle with an empty link, and with the legal section named by the hash open. |
| App.Page.ToggleLegal | src/App.tsx:56-58 | Toggles the open section, and nothing else changes. |
| App.Page.ResetAnalysis | src/App.tsx:60-68 | Back to idle, with no score and all signals pending. |
| App.Page.HandleAnalyze | src/App.tsx:70-89 | A blank link changes nothing. Otherwise the page is running, with no score, all signals pending and the request in flight. |
| App.Page.ReceiveReply | src/App.tsx:91-123 | A failure completes the run with no score, no timers and every signal still pending. A delivered reply schedules the reveals and the finish. |
| App.Page.FireNext | src/App.tsx:100-118 | A reveal sets only its own signal to complete. The finish sets the reply's score and completes the run, with every signal shown. |
| App.Page.CheckAnotherLink | src/App.tsx:226-232 | Does nothing while running. Otherwise it resets the analysis and clears the link. |
| Contact.CanSendIffNoBlankField | src/components/ContactSection.tsx:12-16 | The form can be sent exactly when none of the four fields is empty or all white space. |
| Contact.NothingToSend | src/components/ContactSection.tsx:12-16 | Four empty fields cannot be sent. |
| Contact.ErrorOf | src/components/ContactSection.tsx:39-57 | A thrown fetch gives "Network error. Please try again.". An ok reply with a truthy `ok` gives no error, and every other reply gives one. A reply whose body is not JSON gives the default message. Any error text is non-empty. |
| Contact.ServerErrorShown | src/components/ContactSection.tsx:41-45 | A failed reply shows the body's own `error` when it has one, else the default message. |
| Contact.Form.constructor | src/components/ContactSection.tsx:7-19 | The form starts idle with four empty fields, so the submit button is disabled. |
| Contact.Form.Edit | src/components/ContactSection.tsx:71-116 | An input's change sets only its own field. |
| Contact.Form.Submit | src/components/ContactSection.tsx:21-37 | Submitting sets the state to sending, clears the error and sends the current fields. The fields themselves are kept. |
| Contact.Form.Receive | src/components/ContactSection.tsx:39-57 | Success gives "sent" and clears all four fields, which disables the button. A failure gives "error" with the error text shown as is, and keeps the fields. |

## Left out

- Network and file I/O are outcome parameters: the node-fetch call, the browser `fetch` calls and the sitemap's file write. The Express and CORS wiring, the `/api/health` handler, `main` in the sitemap script and all console logging are not part of this model.
- The sitemap's `loadFeed` is not part of this model: its posts are the `posts` parameter of `toSitemapXml`.
- The page body the analyze handler reads (`response.text()`) is not used by the handler. Only a failure while reading it matters, and that is part of the `Threw` outcome.
- Date parsing and formatting (`new Date`, `Date.parse`, `toISOString`, `toLocaleDateString`) are an oracle and parameters. `formatDate` in the blog page is not part of this model.
- Analyze.DaysOld: the source divides floating-point milliseconds, while the model uses integer milliseconds. For time values, which are whole numbers, the floor is the same.
- Cms.SortKey: a date the parser rejects is keyed as the epoch. The source's comparator yields NaN there, which leaves the order up to the engine.
- Non-string values in the CMS feed's string fields, and non-string array elements, are not modelled. A string field is absent or a string. A `null` array element makes `toBlogPost` throw, and the model follows the resulting fallback.
- Cms.ToBlogPost: the author type is Person or Organization. The source passes any other non-empty `authorType` string from the feed through to the JSON-LD author `@type`. The model does not represent such strings.
- `toLowerCase` is modelled on ASCII letters only. No other character lower-cases to a letter of "true".
- Strings are sequences of Unicode code points, not UTF-16 code units.
- `JSON.stringify` is left out. A JSON-LD script holds the JSON value itself.
- The document head holds only the keyed nodes the SEO helpers address. Other DOM nodes, attributes other than the one set, and React rendering are not modelled.
- The blog page's posts arrive asynchronously. The SEO branch is modelled for a given list of posts (`PageFor`), and the `mounted` flag is timing glue.
- App.Page.constructor: the hash effect that runs after mounting is folded into construction.
- App.Page.HandleAnalyze: requires an idle page, since the Analyze button is rendered only while the page is idle.
- Real timers are not modelled. `setTimeout` clamping, 32-bit delay overflow and negative delays are out; the service's delays are fixed positive constants.
- Contact.Form.Submit: does not require `CanSend`. The handler itself does not check it; only the disabled button and the browser's `required` validation do, and neither is modelled.
- Contact.ErrorOf: a body whose `ok` or `error` is not a boolean or string is not modelled.
- Static markup and UI-only code are not part of this model: the gauge animation, pricing, the navigation bar, the MailerLite form, the bootstrap and the build config.
