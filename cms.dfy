/**
 * The blog content pipeline (src/blog/cms.ts): normalising feed records,
 * validating them, filtering by publish date, ordering newest first, and the
 * choice between the remote feed and the bundled posts.
 *
 * `Date.parse` is the oracle `parse` (a time value in milliseconds, `None` for
 * NaN) and `Date.now()` is the parameter `now`. The bundled `BLOG_POSTS` list
 * is the parameter `local`; the feed request's fate is a `FeedOutcome`.
 */
module Cms {
  import opened Wrappers
  import opened Text
  import opened BlogTypes
  import opened Seqs

  /**
   * One record of the feed's JSON array, as read. A string field is `None`
   * when it is missing or null; a list field is `None` when it is missing or
   * not an array.
   */
  datatype CmsPost = CmsPost(
    slug: Option<string>,
    title: Option<string>,
    description: Option<string>,
    publishedAt: Option<string>,
    updatedAt: Option<string>,
    authorName: Option<string>,
    authorRole: Option<string>,
    authorType: Option<AuthorType>,
    tags: Option<seq<string>>,
    content: Option<seq<ContentBlock>>,
    citations: Option<seq<BlogCitation>>,
    methodology: Option<seq<string>>)

  /** An element of the feed's array: `null` makes `toBlogPost` throw. */
  datatype FeedEntry = NullEntry | Entry(post: CmsPost)

  /** The parsed JSON payload of a successful response. */
  datatype FeedPayload = NotAnArray | Items(entries: seq<FeedEntry>)

  /** What happened to the feed request. */
  datatype FeedOutcome =
    | FeedThrew                     // fetch rejected, or the body was not JSON
    | FeedNotOk                     // `res.ok` was false
    | FeedJson(payload: FeedPayload)

  const DefaultAuthorName: string := "Ghost Jobs Editorial Team"

  /** The date an empty `publishedAt` is sorted as. */
  const EpochDate: string := "1970-01-01"

  /** `String(x || '')` for a string field. */
  function OrEmpty(f: Option<string>): string {
    f.GetOr("")
  }

  /** `x ? String(x).trim() : undefined`: only a non-empty value is kept, then trimmed. */
  function TrimmedIfGiven(f: Option<string>): (r: Option<string>)
    ensures r.Some? <==> f.Some? && f.value != ""
    ensures r.Some? ==> r.value == Trim(f.value) && IsTrimmed(r.value)
  {
    if f.Some? && f.value != "" then Some(Trim(f.value)) else None
  }

  /** `isPublished`: the date parses and is not after `now`. */
  predicate IsPublished(publishedAt: string, parse: string -> Option<int>, now: int) {
    parse(publishedAt).Some? && parse(publishedAt).value <= now
  }

  /** Each tag trimmed, empty tags dropped, order kept. */
  function NormalizeTags(tags: seq<string>): (r: seq<string>)
    ensures |r| <= |tags|
    ensures CleanTags(r)
  {
    if tags == [] then []
    else
      var t := Trim(tags[0]);
      var rest := NormalizeTags(tags[1..]);
      if t != "" then CleanCons(t, rest); [t] + rest else rest
  }

  /** No tag is empty and none has white space at its ends. */
  predicate CleanTags(tags: seq<string>) {
    forall i :: 0 <= i < |tags| ==> tags[i] != "" && IsTrimmed(tags[i])
  }

  lemma CleanCons(t: string, tags: seq<string>)
    requires t != "" && IsTrimmed(t) && CleanTags(tags)
    ensures CleanTags([t] + tags)
  {
    forall i | 0 <= i < |tags| + 1 ensures ([t] + tags)[i] != "" && IsTrimmed(([t] + tags)[i]) {
      if i > 0 { assert ([t] + tags)[i] == tags[i - 1]; }
    }
  }

  /** Tag normalisation works tag by tag: it distributes over concatenation. */
  lemma {:induction false} NormalizeTagsAppend(a: seq<string>, b: seq<string>)
    ensures NormalizeTags(a + b) == NormalizeTags(a) + NormalizeTags(b)
  {
    if a == [] {
      assert a + b == b;
    } else {
      assert (a + b)[0] == a[0] && (a + b)[1..] == a[1..] + b;
      NormalizeTagsAppend(a[1..], b);
    }
  }

  /** A non-empty string (`filter(Boolean)` on strings). */
  predicate NonEmpty(t: string) {
    t != ""
  }

  /** `tags.map(t => String(t).trim())`. */
  function TrimEach(tags: seq<string>): (r: seq<string>)
    ensures |r| == |tags| && forall i :: 0 <= i < |tags| ==> r[i] == Trim(tags[i])
  {
    seq(|tags|, i requires 0 <= i < |tags| => Trim(tags[i]))
  }

  /**
   * Tag normalisation is the source's pipeline: trim every tag, then keep the
   * non-empty ones in order.
   */
  lemma {:induction false} NormalizeTagsIsTrimThenFilter(tags: seq<string>)
    ensures NormalizeTags(tags) == Filter(NonEmpty, TrimEach(tags))
  {
    if tags != [] {
      var m := TrimEach(tags);
      assert m[0] == Trim(tags[0]);
      assert m[1..] == TrimEach(tags[1..]);
      NormalizeTagsIsTrimThenFilter(tags[1..]);
    }
  }

  /** A single tag is kept, trimmed, exactly when it is not blank. */
  lemma NormalizeTagsSingle(t: string)
    ensures NormalizeTags([t]) == if Trim(t) == "" then [] else [Trim(t)]
    ensures NormalizeTags([t]) == [] <==> AllWhitespace(t)
  {
    assert [t][1..] == [];
  }

  /** Tags that are already trimmed and non-empty are kept as they are. */
  lemma {:induction false} NormalizeTagsKeepsClean(tags: seq<string>)
    requires CleanTags(tags)
    ensures NormalizeTags(tags) == tags
  {
    if tags != [] {
      NormalizeTagsKeepsClean(tags[1..]);
    }
  }

  /** `toBlogPost`: trims the text fields and fills in the defaults. */
  function ToBlogPost(input: CmsPost): BlogPost {
    BlogPost(
      slug := Trim(OrEmpty(input.slug)),
      title := Trim(OrEmpty(input.title)),
      description := Trim(OrEmpty(input.description)),
      publishedAt := Trim(OrEmpty(input.publishedAt)),
      updatedAt := TrimmedIfGiven(input.updatedAt),
      author := BlogAuthor(
        name := Trim(if input.authorName.Some? && input.authorName.value != "" then input.authorName.value else DefaultAuthorName),
        role := TrimmedIfGiven(input.authorRole),
        kind := Some(input.authorType.GetOr(Organization))),
      tags := if input.tags.Some? then NormalizeTags(input.tags.value) else [],
      content := input.content.GetOr([]),
      citations := Some(input.citations.GetOr([])),
      methodology := Some(input.methodology.GetOr([])))
  }

  /**
   * The four required text fields come out trimmed: blank exactly when the
   * record's value is missing or white space, and unchanged when the value
   * has no white space at its ends.
   */
  lemma ToBlogPostTrims(input: CmsPost)
    ensures var r := ToBlogPost(input);
      IsTrimmed(r.slug) && IsTrimmed(r.title) && IsTrimmed(r.description) && IsTrimmed(r.publishedAt)
    ensures ToBlogPost(input).slug == "" <==> AllWhitespace(OrEmpty(input.slug))
    ensures ToBlogPost(input).title == "" <==> AllWhitespace(OrEmpty(input.title))
    ensures ToBlogPost(input).description == "" <==> AllWhitespace(OrEmpty(input.description))
    ensures ToBlogPost(input).publishedAt == "" <==> AllWhitespace(OrEmpty(input.publishedAt))
    ensures input.slug.Some? && IsTrimmed(input.slug.value) ==> ToBlogPost(input).slug == input.slug.value
    ensures input.title.Some? && IsTrimmed(input.title.value) ==> ToBlogPost(input).title == input.title.value
    ensures input.description.Some? && IsTrimmed(input.description.value) ==> ToBlogPost(input).description == input.description.value
    ensures input.publishedAt.Some? && IsTrimmed(input.publishedAt.value) ==> ToBlogPost(input).publishedAt == input.publishedAt.value
  {
  }

  /**
   * `updatedAt` and the author's role are kept only when given non-empty; the
   * author's name defaults to the editorial team and the author's type to
   * Organization.
   */
  lemma ToBlogPostDefaults(input: CmsPost)
    ensures ToBlogPost(input).updatedAt.Some? <==> input.updatedAt.Some? && input.updatedAt.value != ""
    ensures ToBlogPost(input).author.role.Some? <==> input.authorRole.Some? && input.authorRole.value != ""
    ensures input.authorName.None? || input.authorName == Some("") ==> ToBlogPost(input).author.name == DefaultAuthorName
    ensures input.authorName.Some? && input.authorName.value != "" ==> ToBlogPost(input).author.name == Trim(input.authorName.value)
    ensures ToBlogPost(input).author.kind == Some(if input.authorType.Some? then input.authorType.value else Organization)
  {
    DefaultAuthorNameIsTrimmed();
  }

  lemma DefaultAuthorNameIsTrimmed()
    ensures Trim(DefaultAuthorName) == DefaultAuthorName
  {
    assert DefaultAuthorName[0] == 'G';
    assert DefaultAuthorName[|DefaultAuthorName| - 1] == 'm';
    assert IsTrimmed(DefaultAuthorName);
  }

  /**
   * A list field that is not an array becomes empty; tags are trimmed, empty
   * tags dropped and the rest kept in order.
   */
  lemma ToBlogPostLists(input: CmsPost)
    ensures input.tags.None? ==> ToBlogPost(input).tags == []
    ensures input.tags.Some? ==> ToBlogPost(input).tags == NormalizeTags(input.tags.value)
    ensures forall t :: t in ToBlogPost(input).tags ==> t != "" && IsTrimmed(t)
    ensures input.content.None? ==> ToBlogPost(input).content == []
    ensures input.content.Some? ==> ToBlogPost(input).content == input.content.value
    ensures ToBlogPost(input).citations == Some(if input.citations.Some? then input.citations.value else [])
    ensures ToBlogPost(input).methodology == Some(if input.methodology.Some? then input.methodology.value else [])
  {
  }

  /** `isValidPost`: the four required text fields are all non-empty. */
  predicate IsValidPost(p: BlogPost) {
    p.slug != "" && p.title != "" && p.description != "" && p.publishedAt != ""
  }

  /**
   * A normalised record is valid exactly when its slug, title, description
   * and publish date are not blank.
   */
  lemma ValidAfterNormalising(input: CmsPost)
    ensures IsValidPost(ToBlogPost(input)) <==>
      !AllWhitespace(OrEmpty(input.slug)) && !AllWhitespace(OrEmpty(input.title)) &&
      !AllWhitespace(OrEmpty(input.description)) && !AllWhitespace(OrEmpty(input.publishedAt))
  {
  }

  // ---------------------------------------------------------------------------
  // Newest first
  // ---------------------------------------------------------------------------

  /**
   * The sort key `Date.parse(p.publishedAt || '1970-01-01')`. A date the
   * parser rejects (NaN, for which the source's order is left to the engine)
   * is keyed as the epoch.
   */
  function SortKey(p: BlogPost, parse: string -> Option<int>): int {
    parse(if p.publishedAt == "" then EpochDate else p.publishedAt).GetOr(0)
  }

  /** Non-increasing sort keys. */
  predicate SortedDescending(s: seq<BlogPost>, parse: string -> Option<int>) {
    forall i, j :: 0 <= i < j < |s| ==> SortKey(s[i], parse) >= SortKey(s[j], parse)
  }

  /** Putting a post no older than everything in a sorted list in front keeps it sorted. */
  lemma PrependSorted(y: BlogPost, s: seq<BlogPost>, parse: string -> Option<int>)
    requires SortedDescending(s, parse)
    requires forall e :: e in s ==> SortKey(e, parse) <= SortKey(y, parse)
    ensures SortedDescending([y] + s, parse)
  {
    var r := [y] + s;
    forall i, j | 0 <= i < j < |r| ensures SortKey(r[i], parse) >= SortKey(r[j], parse) {
      assert r[j] == s[j - 1];
      if i > 0 { assert r[i] == s[i - 1]; } else { assert r[j] in s; }
    }
  }

  /**
   * Inserts `x` into a list sorted newest first, before the first post that is
   * not newer than it.
   */
  function Insert(x: BlogPost, s: seq<BlogPost>, parse: string -> Option<int>): (r: seq<BlogPost>)
    requires SortedDescending(s, parse)
    ensures SortedDescending(r, parse)
    ensures multiset(r) == multiset(s) + multiset{x}
  {
    if s == [] || SortKey(s[0], parse) <= SortKey(x, parse) then
      PrependSorted(x, s, parse);
      [x] + s
    else
      var rest := Insert(x, s[1..], parse);
      assert s == [s[0]] + s[1..];
      forall e | e in rest ensures SortKey(e, parse) <= SortKey(s[0], parse) {
        assert e in multiset(rest);
        assert e in multiset(s[1..]) || e == x;
        if e != x { assert e in s[1..]; }
      }
      PrependSorted(s[0], rest, parse);
      [s[0]] + rest
  }

  /**
   * `sortPostsDescending`: a stable sort of a copy of `posts`, newest first.
   * The input sequence is a value, so it cannot be changed.
   */
  function SortPostsDescending(posts: seq<BlogPost>, parse: string -> Option<int>): (r: seq<BlogPost>)
    ensures SortedDescending(r, parse)
    ensures multiset(r) == multiset(posts)
  {
    if posts == [] then []
    else
      assert posts == [posts[0]] + posts[1..];
      Insert(posts[0], SortPostsDescending(posts[1..], parse), parse)
  }

  /** The posts of `s` whose sort key is `k`, in order. */
  function WithKey(s: seq<BlogPost>, k: int, parse: string -> Option<int>): seq<BlogPost> {
    if s == [] then []
    else (if SortKey(s[0], parse) == k then [s[0]] else []) + WithKey(s[1..], k, parse)
  }

  /** `WithKey` on a list with a known first post. */
  lemma WithKeyCons(y: BlogPost, s: seq<BlogPost>, k: int, parse: string -> Option<int>)
    ensures WithKey([y] + s, k, parse) == (if SortKey(y, parse) == k then [y] else []) + WithKey(s, k, parse)
  {
    assert ([y] + s)[0] == y && ([y] + s)[1..] == s;
  }

  lemma SortedTail(s: seq<BlogPost>, parse: string -> Option<int>)
    requires s != [] && SortedDescending(s, parse)
    ensures SortedDescending(s[1..], parse)
  {
    forall i, j | 0 <= i < j < |s| - 1 ensures SortKey(s[1..][i], parse) >= SortKey(s[1..][j], parse) {
      assert s[1..][i] == s[i + 1] && s[1..][j] == s[j + 1];
    }
  }

  lemma {:induction false} InsertWithKey(x: BlogPost, s: seq<BlogPost>, k: int, parse: string -> Option<int>)
    requires SortedDescending(s, parse)
    ensures WithKey(Insert(x, s, parse), k, parse) ==
      (if SortKey(x, parse) == k then [x] else []) + WithKey(s, k, parse)
  {
    if s == [] || SortKey(s[0], parse) <= SortKey(x, parse) {
      WithKeyCons(x, s, k, parse);
    } else {
      SortedTail(s, parse);
      InsertWithKey(x, s[1..], k, parse);
      assert Insert(x, s, parse) == [s[0]] + Insert(x, s[1..], parse);
      assert s == [s[0]] + s[1..];
      WithKeyPastNewer(x, s[0], s[1..], Insert(x, s[1..], parse), k, parse);
    }
  }

  /** Putting a strictly newer post in front of both sides keeps `x` placed first among key `k`. */
  lemma WithKeyPastNewer(x: BlogPost, y: BlogPost, s: seq<BlogPost>, rest: seq<BlogPost>, k: int,
                         parse: string -> Option<int>)
    requires SortKey(y, parse) > SortKey(x, parse)
    requires WithKey(rest, k, parse) == (if SortKey(x, parse) == k then [x] else []) + WithKey(s, k, parse)
    ensures WithKey([y] + rest, k, parse) == (if SortKey(x, parse) == k then [x] else []) + WithKey([y] + s, k, parse)
  {
    WithKeyCons(y, rest, k, parse);
    WithKeyCons(y, s, k, parse);
  }

  /**
   * The sort is stable: posts with the same date keep their input order
   * (`Array.prototype.sort` is stable).
   */
  lemma {:induction false} SortIsStable(posts: seq<BlogPost>, k: int, parse: string -> Option<int>)
    ensures WithKey(SortPostsDescending(posts, parse), k, parse) == WithKey(posts, k, parse)
  {
    if posts != [] {
      SortIsStable(posts[1..], k, parse);
      InsertWithKey(posts[0], SortPostsDescending(posts[1..], parse), k, parse);
    }
  }

  // ---------------------------------------------------------------------------
  // Source selection
  // ---------------------------------------------------------------------------

  /** `VITE_BLOG_FEED_URL`, trimmed; the feed is used only when it is non-empty. */
  function FeedUrl(raw: Option<string>): string {
    Trim(OrEmpty(raw))
  }

  /** ASCII lower-casing (no other character lower-cases to a letter of "true"). */
  function AsciiLower(s: string): (r: string)
    ensures |r| == |s|
    ensures forall i :: 0 <= i < |s| ==> r[i] == if 'A' <= s[i] <= 'Z' then (s[i] as int + 32) as char else s[i]
  {
    if s == [] then []
    else [if 'A' <= s[0] <= 'Z' then (s[0] as int + 32) as char else s[0]] + AsciiLower(s[1..])
  }

  /** `VITE_BLOG_SHOW_SCHEDULED`: set when it reads "true" in any letter case, ignoring surrounding white space. */
  predicate ShowScheduled(raw: Option<string>) {
    AsciiLower(Trim(OrEmpty(raw))) == "true"
  }

  /**
   * The feed URL is blank exactly when the variable is unset or white space;
   * scheduled posts are shown only when the variable is set, and never when it
   * is unset.
   */
  lemma EnvironmentSettings(raw: Option<string>)
    ensures FeedUrl(raw) == "" <==> raw.None? || AllWhitespace(raw.value)
    ensures IsTrimmed(FeedUrl(raw))
    ensures ShowScheduled(raw) ==> raw.Some? && |Trim(raw.value)| == 4
    ensures !ShowScheduled(None)
  {
    assert AllWhitespace("");
  }

  /** "true", "TRUE" or "True", with any white space around it, shows scheduled posts. */
  lemma ShowScheduledReadsTrue(s: string)
    requires Trim(s) == "true" || Trim(s) == "TRUE" || Trim(s) == "True"
    ensures ShowScheduled(Some(s))
  {
    var t := Trim(s);
    assert |t| == 4 && (t[0] == 't' || t[0] == 'T') && (t[1] == 'r' || t[1] == 'R')
                    && (t[2] == 'u' || t[2] == 'U') && (t[3] == 'e' || t[3] == 'E');
    LowersToTrue(t);
  }

  lemma LowersToTrue(t: string)
    requires |t| == 4 && (t[0] == 't' || t[0] == 'T') && (t[1] == 'r' || t[1] == 'R')
    requires (t[2] == 'u' || t[2] == 'U') && (t[3] == 'e' || t[3] == 'E')
    ensures AsciiLower(t) == "true"
  {
    var l := AsciiLower(t);
    assert l[0] == 't' && l[1] == 'r' && l[2] == 'u' && l[3] == 'e';
  }

  function PublishedOnly(posts: seq<BlogPost>, parse: string -> Option<int>, now: int): seq<BlogPost> {
    Filter((p: BlogPost) => IsPublished(p.publishedAt, parse, now), posts)
  }

  /** The bundled posts, without the scheduled ones unless those are shown. */
  function LocalPosts(local: seq<BlogPost>, showScheduled: bool, parse: string -> Option<int>, now: int): seq<BlogPost> {
    if showScheduled then local else PublishedOnly(local, parse, now)
  }

  /** No entry of the feed's array is `null`, so normalising it does not throw. */
  predicate NoNullEntries(entries: seq<FeedEntry>) {
    forall i :: 0 <= i < |entries| ==> entries[i].Entry?
  }

  function NormalizeEntries(entries: seq<FeedEntry>): (r: seq<BlogPost>)
    requires NoNullEntries(entries)
    ensures |r| == |entries|
    ensures forall i :: 0 <= i < |r| ==> r[i] == ToBlogPost(entries[i].post)
  {
    seq(|entries|, i requires 0 <= i < |entries| => ToBlogPost(entries[i].post))
  }

  /** The feed's posts: normalised, valid and, unless scheduled posts are shown, published. */
  function FeedPosts(entries: seq<FeedEntry>, showScheduled: bool, parse: string -> Option<int>, now: int): seq<BlogPost>
    requires NoNullEntries(entries)
  {
    var valid := Filter(IsValidPost, NormalizeEntries(entries));
    if showScheduled then valid else PublishedOnly(valid, parse, now)
  }

  /** The list `loadPublishedPosts` hands to the sort, by what happened to the feed. */
  function SelectSource(feedUrl: string, showScheduled: bool, local: seq<BlogPost>, outcome: FeedOutcome,
                        parse: string -> Option<int>, now: int): seq<BlogPost>
  {
    if feedUrl == "" then LocalPosts(local, showScheduled, parse, now)
    else match outcome
      case FeedThrew => LocalPosts(local, showScheduled, parse, now)
      case FeedNotOk => local
      case FeedJson(NotAnArray) => local
      case FeedJson(Items(entries)) =>
        if NoNullEntries(entries) then FeedPosts(entries, showScheduled, parse, now)
        else LocalPosts(local, showScheduled, parse, now)
  }

  /** `loadPublishedPosts`. */
  function LoadPublishedPosts(feedUrl: string, showScheduled: bool, local: seq<BlogPost>, outcome: FeedOutcome,
                              parse: string -> Option<int>, now: int): (r: seq<BlogPost>)
    ensures SortedDescending(r, parse)
    ensures multiset(r) == multiset(SelectSource(feedUrl, showScheduled, local, outcome, parse, now))
  {
    SortPostsDescending(SelectSource(feedUrl, showScheduled, local, outcome, parse, now), parse)
  }

  /**
   * Without a feed URL, or when the request throws, the bundled posts are used,
   * published ones only unless scheduled posts are shown; a non-ok response or a
   * payload that is not an array falls back to all bundled posts, unfiltered.
   */
  lemma FallbackSources(feedUrl: string, showScheduled: bool, local: seq<BlogPost>, outcome: FeedOutcome,
                        parse: string -> Option<int>, now: int)
    ensures feedUrl == "" || outcome.FeedThrew? ==>
      SelectSource(feedUrl, showScheduled, local, outcome, parse, now) ==
        (if showScheduled then local else Filter((p: BlogPost) => IsPublished(p.publishedAt, parse, now), local))
    ensures feedUrl != "" && (outcome.FeedNotOk? || outcome == FeedJson(NotAnArray)) ==>
      SelectSource(feedUrl, showScheduled, local, outcome, parse, now) == local
    ensures feedUrl != "" && outcome.FeedJson? && outcome.payload.Items? && !NoNullEntries(outcome.payload.entries) ==>
      SelectSource(feedUrl, showScheduled, local, outcome, parse, now) == LocalPosts(local, showScheduled, parse, now)
  {
  }

  /**
   * Every post taken from the feed is valid and, unless scheduled posts are
   * shown, already published.
   */
  lemma FeedPostsAreValidAndPublished(feedUrl: string, showScheduled: bool, local: seq<BlogPost>, entries: seq<FeedEntry>,
                                      parse: string -> Option<int>, now: int, p: BlogPost)
    requires feedUrl != "" && NoNullEntries(entries)
    requires p in LoadPublishedPosts(feedUrl, showScheduled, local, FeedJson(Items(entries)), parse, now)
    ensures IsValidPost(p)
    ensures !showScheduled ==> IsPublished(p.publishedAt, parse, now)
    ensures exists i :: 0 <= i < |entries| && p == ToBlogPost(entries[i].post)
  {
    var r := LoadPublishedPosts(feedUrl, showScheduled, local, FeedJson(Items(entries)), parse, now);
    var src := SelectSource(feedUrl, showScheduled, local, FeedJson(Items(entries)), parse, now);
    assert p in multiset(r);
    assert p in src;
    var valid := Filter(IsValidPost, NormalizeEntries(entries));
    assert p in valid;
    var normalized := NormalizeEntries(entries);
    var i :| 0 <= i < |normalized| && normalized[i] == p;
  }

  /**
   * Conversely, every feed record that normalises to a valid post, and is
   * published unless scheduled posts are shown, is among the posts loaded.
   */
  lemma FeedPostsAreAllKept(feedUrl: string, showScheduled: bool, local: seq<BlogPost>, entries: seq<FeedEntry>,
                            parse: string -> Option<int>, now: int, i: nat)
    requires feedUrl != "" && NoNullEntries(entries) && i < |entries|
    requires IsValidPost(ToBlogPost(entries[i].post))
    requires showScheduled || IsPublished(ToBlogPost(entries[i].post).publishedAt, parse, now)
    ensures ToBlogPost(entries[i].post) in LoadPublishedPosts(feedUrl, showScheduled, local, FeedJson(Items(entries)), parse, now)
  {
    var p := ToBlogPost(entries[i].post);
    var normalized := NormalizeEntries(entries);
    assert normalized[i] == p;
    var valid := Filter(IsValidPost, normalized);
    assert p in valid;
    var src := SelectSource(feedUrl, showScheduled, local, FeedJson(Items(entries)), parse, now);
    assert p in src;
    assert p in multiset(src);
  }
}
