/**
 * The sitemap generator (scripts/generate-blog-sitemap.mjs): the XML escaping
 * of the five predefined entities of section 4.6 of XML 1.0 (Fifth Edition),
 * as the "Entity escaping" section of the sitemaps.org protocol asks, and the
 * serialiser that turns the feed's posts into a `urlset` of the sitemaps.org
 * 0.9 schema.
 *
 * `Date.parse` is the oracle `parse`, `Date.now()` the parameter `now`, and
 * `new Date().toISOString().slice(0, 10)` the parameter `today`.
 */
module Sitemap {
  import opened Wrappers
  import opened Text
  import opened Seqs

  const SiteOrigin: string := "https://ghostjobs.trusted-tools.com"

  // ---------------------------------------------------------------------------
  // Escaping
  // ---------------------------------------------------------------------------

  /** `s.replaceAll(c, rep)` for a one-character pattern. */
  function ReplaceAll(s: string, c: char, rep: string): string {
    if s == [] then [] else (if s[0] == c then rep else [s[0]]) + ReplaceAll(s[1..], c, rep)
  }

  /** `escapeXml`: the five `replaceAll` calls, `&` first. */
  function EscapeXml(s: string): string {
    ReplaceAll(ReplaceAll(ReplaceAll(ReplaceAll(ReplaceAll(s,
      '&', "&amp;"), '<', "&lt;"), '>', "&gt;"), '"', "&quot;"), '\'', "&apos;")
  }

  /** The five characters XML reserves in character data and attribute values. */
  predicate IsSpecial(c: char) {
    c == '&' || c == '<' || c == '>' || c == '"' || c == '\''
  }

  /** The escape of one character: its entity, or the character itself. */
  function EscapeChar(c: char): string {
    match c
    case '&' => "&amp;"
    case '<' => "&lt;"
    case '>' => "&gt;"
    case '"' => "&quot;"
    case '\'' => "&apos;"
    case _ => [c]
  }

  /** Escaping character by character: the reference definition for `EscapeXml`. */
  function EscapeEach(s: string): string {
    if s == [] then [] else EscapeChar(s[0]) + EscapeEach(s[1..])
  }

  lemma {:induction false} ReplaceAllAppend(a: string, b: string, c: char, rep: string)
    ensures ReplaceAll(a + b, c, rep) == ReplaceAll(a, c, rep) + ReplaceAll(b, c, rep)
  {
    if a == [] {
      assert a + b == b;
    } else {
      assert (a + b)[0] == a[0] && (a + b)[1..] == a[1..] + b;
      ReplaceAllAppend(a[1..], b, c, rep);
    }
  }

  lemma {:induction false} ReplaceAllAbsent(s: string, c: char, rep: string)
    requires c !in s
    ensures ReplaceAll(s, c, rep) == s
  {
    if s != [] {
      ReplaceAllAbsent(s[1..], c, rep);
    }
  }

  lemma EscapeXmlAppend(a: string, b: string)
    ensures EscapeXml(a + b) == EscapeXml(a) + EscapeXml(b)
  {
    var a1, b1 := ReplaceAll(a, '&', "&amp;"), ReplaceAll(b, '&', "&amp;");
    ReplaceAllAppend(a, b, '&', "&amp;");
    var a2, b2 := ReplaceAll(a1, '<', "&lt;"), ReplaceAll(b1, '<', "&lt;");
    ReplaceAllAppend(a1, b1, '<', "&lt;");
    var a3, b3 := ReplaceAll(a2, '>', "&gt;"), ReplaceAll(b2, '>', "&gt;");
    ReplaceAllAppend(a2, b2, '>', "&gt;");
    var a4, b4 := ReplaceAll(a3, '"', "&quot;"), ReplaceAll(b3, '"', "&quot;");
    ReplaceAllAppend(a3, b3, '"', "&quot;");
    ReplaceAllAppend(a4, b4, '\'', "&apos;");
  }

  lemma ReplaceAllSingle(c: char, d: char, rep: string)
    ensures ReplaceAll([c], d, rep) == if c == d then rep else [c]
  {
    assert ReplaceAll([c], d, rep) == (if c == d then rep else [c]) + ReplaceAll([], d, rep);
  }

  // The chain of `replaceAll` calls on a one-character string, one lemma per
  // special character: the steps before the character's own pattern leave it
  // alone, its own step turns it into its entity, and no later pattern occurs
  // in that entity.

  lemma EscapeXmlAmp(c: char)
    requires c == '&'
    ensures EscapeXml([c]) == "&amp;"
  {
    var s1 := ReplaceAll([c], '&', "&amp;");
    ReplaceAllSingle(c, '&', "&amp;");
    assert s1 == "&amp;";
    var s2 := ReplaceAll(s1, '<', "&lt;");
    ReplaceAllAbsent(s1, '<', "&lt;");
    assert s2 == "&amp;";
    var s3 := ReplaceAll(s2, '>', "&gt;");
    ReplaceAllAbsent(s2, '>', "&gt;");
    assert s3 == "&amp;";
    var s4 := ReplaceAll(s3, '"', "&quot;");
    ReplaceAllAbsent(s3, '"', "&quot;");
    assert s4 == "&amp;";
    var s5 := ReplaceAll(s4, '\'', "&apos;");
    ReplaceAllAbsent(s4, '\'', "&apos;");
    assert s5 == "&amp;";
    assert EscapeXml([c]) == s5;
  }

  lemma EscapeXmlLt(c: char)
    requires c == '<'
    ensures EscapeXml([c]) == "&lt;"
  {
    var s1 := ReplaceAll([c], '&', "&amp;");
    ReplaceAllSingle(c, '&', "&amp;");
    assert s1 == [c];
    var s2 := ReplaceAll(s1, '<', "&lt;");
    ReplaceAllSingle(c, '<', "&lt;");
    assert s2 == "&lt;";
    var s3 := ReplaceAll(s2, '>', "&gt;");
    ReplaceAllAbsent(s2, '>', "&gt;");
    assert s3 == "&lt;";
    var s4 := ReplaceAll(s3, '"', "&quot;");
    ReplaceAllAbsent(s3, '"', "&quot;");
    assert s4 == "&lt;";
    var s5 := ReplaceAll(s4, '\'', "&apos;");
    ReplaceAllAbsent(s4, '\'', "&apos;");
    assert s5 == "&lt;";
    assert EscapeXml([c]) == s5;
  }

  lemma EscapeXmlGt(c: char)
    requires c == '>'
    ensures EscapeXml([c]) == "&gt;"
  {
    var s1 := ReplaceAll([c], '&', "&amp;");
    ReplaceAllSingle(c, '&', "&amp;");
    assert s1 == [c];
    var s2 := ReplaceAll(s1, '<', "&lt;");
    ReplaceAllSingle(c, '<', "&lt;");
    assert s2 == [c];
    var s3 := ReplaceAll(s2, '>', "&gt;");
    ReplaceAllSingle(c, '>', "&gt;");
    assert s3 == "&gt;";
    var s4 := ReplaceAll(s3, '"', "&quot;");
    ReplaceAllAbsent(s3, '"', "&quot;");
    assert s4 == "&gt;";
    var s5 := ReplaceAll(s4, '\'', "&apos;");
    ReplaceAllAbsent(s4, '\'', "&apos;");
    assert s5 == "&gt;";
    assert EscapeXml([c]) == s5;
  }

  lemma EscapeXmlQuot(c: char)
    requires c == '"'
    ensures EscapeXml([c]) == "&quot;"
  {
    var s1 := ReplaceAll([c], '&', "&amp;");
    ReplaceAllSingle(c, '&', "&amp;");
    assert s1 == [c];
    var s2 := ReplaceAll(s1, '<', "&lt;");
    ReplaceAllSingle(c, '<', "&lt;");
    assert s2 == [c];
    var s3 := ReplaceAll(s2, '>', "&gt;");
    ReplaceAllSingle(c, '>', "&gt;");
    assert s3 == [c];
    var s4 := ReplaceAll(s3, '"', "&quot;");
    ReplaceAllSingle(c, '"', "&quot;");
    assert s4 == "&quot;";
    var s5 := ReplaceAll(s4, '\'', "&apos;");
    ReplaceAllAbsent(s4, '\'', "&apos;");
    assert s5 == "&quot;";
    assert EscapeXml([c]) == s5;
  }

  lemma EscapeXmlApos(c: char)
    requires c == '\''
    ensures EscapeXml([c]) == "&apos;"
  {
    var s1 := ReplaceAll([c], '&', "&amp;");
    ReplaceAllSingle(c, '&', "&amp;");
    assert s1 == [c];
    var s2 := ReplaceAll(s1, '<', "&lt;");
    ReplaceAllSingle(c, '<', "&lt;");
    assert s2 == [c];
    var s3 := ReplaceAll(s2, '>', "&gt;");
    ReplaceAllSingle(c, '>', "&gt;");
    assert s3 == [c];
    var s4 := ReplaceAll(s3, '"', "&quot;");
    ReplaceAllSingle(c, '"', "&quot;");
    assert s4 == [c];
    var s5 := ReplaceAll(s4, '\'', "&apos;");
    ReplaceAllSingle(c, '\'', "&apos;");
    assert s5 == "&apos;";
    assert EscapeXml([c]) == s5;
  }

  /** A character that is not special goes through the chain unchanged. */
  lemma EscapeXmlPlainChar(c: char)
    requires !IsSpecial(c)
    ensures EscapeXml([c]) == [c]
  {
    ReplaceAllSingle(c, '&', "&amp;");
    ReplaceAllSingle(c, '<', "&lt;");
    ReplaceAllSingle(c, '>', "&gt;");
    ReplaceAllSingle(c, '"', "&quot;");
    ReplaceAllSingle(c, '\'', "&apos;");
  }

  lemma EscapeXmlChar(c: char)
    ensures EscapeXml([c]) == EscapeChar(c)
  {
    if c == '&' { EscapeXmlAmp(c); }
    else if c == '<' { EscapeXmlLt(c); }
    else if c == '>' { EscapeXmlGt(c); }
    else if c == '"' { EscapeXmlQuot(c); }
    else if c == '\'' { EscapeXmlApos(c); }
    else { EscapeXmlPlainChar(c); }
  }

  /**
   * `escapeXml` replaces every special character by its entity and leaves the
   * others alone: because `&` is replaced first, no entity is escaped twice.
   */
  lemma {:induction false} EscapeXmlIsPerCharacter(s: string)
    ensures EscapeXml(s) == EscapeEach(s)
  {
    if s == [] {
    } else {
      assert s == [s[0]] + s[1..];
      EscapeXmlAppend([s[0]], s[1..]);
      EscapeXmlChar(s[0]);
      EscapeXmlIsPerCharacter(s[1..]);
    }
  }

  /** The escaped text has no `<`, `>`, `"` or `'` left. */
  lemma {:induction false} EscapedHasNoMarkup(s: string)
    ensures forall i :: 0 <= i < |EscapeXml(s)| ==> EscapeXml(s)[i] !in {'<', '>', '"', '\''}
  {
    EscapeXmlIsPerCharacter(s);
    EscapeEachHasNoMarkup(s);
  }

  lemma {:induction false} EscapeEachHasNoMarkup(s: string)
    ensures forall i :: 0 <= i < |EscapeEach(s)| ==> EscapeEach(s)[i] !in {'<', '>', '"', '\''}
  {
    if s != [] {
      EscapeEachHasNoMarkup(s[1..]);
      var e, t := EscapeChar(s[0]), EscapeEach(s[1..]);
      forall i | 0 <= i < |e + t| ensures (e + t)[i] !in {'<', '>', '"', '\''} {
        if i >= |e| { assert (e + t)[i] == t[i - |e|]; }
      }
    }
  }

  /** One of the five entities starts at index `i` of `t`. */
  predicate EntityAt(t: string, i: nat)
    requires i <= |t|
  {
    var rest := t[i..];
    StartsWith(rest, "&amp;") || StartsWith(rest, "&lt;") || StartsWith(rest, "&gt;") ||
    StartsWith(rest, "&quot;") || StartsWith(rest, "&apos;")
  }

  /** Every `&` of the escaped text begins one of the five entities. */
  lemma {:induction false} AmpersandsBeginEntities(s: string)
    ensures forall i :: 0 <= i < |EscapeXml(s)| && EscapeXml(s)[i] == '&' ==> EntityAt(EscapeXml(s), i)
  {
    EscapeXmlIsPerCharacter(s);
    EscapeEachAmpersands(s);
  }

  lemma {:induction false} EscapeEachAmpersands(s: string)
    ensures forall i :: 0 <= i < |EscapeEach(s)| && EscapeEach(s)[i] == '&' ==> EntityAt(EscapeEach(s), i)
  {
    if s != [] {
      EscapeEachAmpersands(s[1..]);
      var e, t := EscapeChar(s[0]), EscapeEach(s[1..]);
      assert EscapeEach(s) == e + t;
      forall i | 0 <= i < |e + t| && (e + t)[i] == '&' ensures EntityAt(e + t, i) {
        if i >= |e| {
          assert (e + t)[i..] == t[i - |e|..];
        } else {
          assert i == 0 && IsSpecial(s[0]);
          assert (e + t)[i..] == e + t;
        }
      }
    }
  }

  /** Decoding of the five entities; any other character is kept. */
  function Unescape(t: string): string
    decreases |t|
  {
    if t == [] then []
    else if StartsWith(t, "&amp;") then "&" + Unescape(t[5..])
    else if StartsWith(t, "&lt;") then "<" + Unescape(t[4..])
    else if StartsWith(t, "&gt;") then ">" + Unescape(t[4..])
    else if StartsWith(t, "&quot;") then "\"" + Unescape(t[6..])
    else if StartsWith(t, "&apos;") then "'" + Unescape(t[6..])
    else [t[0]] + Unescape(t[1..])
  }

  // Decoding an escaped character followed by anything, one lemma per entity.

  lemma UnescapeAmp(c: char, rest: string)
    requires c == '&'
    ensures Unescape(EscapeChar(c) + rest) == [c] + Unescape(rest)
  {
    var t := EscapeChar(c) + rest;
    assert t[0] == '&' && t[1] == 'a' && t[2] == 'm';
    assert t[..5] == "&amp;" && t[5..] == rest;
  }

  lemma UnescapeLt(c: char, rest: string)
    requires c == '<'
    ensures Unescape(EscapeChar(c) + rest) == [c] + Unescape(rest)
  {
    var t := EscapeChar(c) + rest;
    assert t[0] == '&' && t[1] == 'l';
    assert t[..4] == "&lt;" && t[4..] == rest;
  }

  lemma UnescapeGt(c: char, rest: string)
    requires c == '>'
    ensures Unescape(EscapeChar(c) + rest) == [c] + Unescape(rest)
  {
    var t := EscapeChar(c) + rest;
    assert t[0] == '&' && t[1] == 'g';
    assert t[..4] == "&gt;" && t[4..] == rest;
  }

  lemma UnescapeQuot(c: char, rest: string)
    requires c == '"'
    ensures Unescape(EscapeChar(c) + rest) == [c] + Unescape(rest)
  {
    var t := EscapeChar(c) + rest;
    assert t[0] == '&' && t[1] == 'q';
    assert t[..6] == "&quot;" && t[6..] == rest;
  }

  lemma UnescapeApos(c: char, rest: string)
    requires c == '\''
    ensures Unescape(EscapeChar(c) + rest) == [c] + Unescape(rest)
  {
    var t := EscapeChar(c) + rest;
    assert t[0] == '&' && t[1] == 'a' && t[2] == 'p';
    assert t[..6] == "&apos;" && t[6..] == rest;
  }

  lemma UnescapePlain(c: char, rest: string)
    requires !IsSpecial(c)
    ensures Unescape(EscapeChar(c) + rest) == [c] + Unescape(rest)
  {
    var t := EscapeChar(c) + rest;
    assert t[0] == c && t[1..] == rest;
    NoEntityAt(t);
  }

  /** Text that does not start with `&` starts no entity. */
  lemma NoEntityAt(t: string)
    requires t != [] && t[0] != '&'
    ensures !StartsWith(t, "&amp;") && !StartsWith(t, "&lt;") && !StartsWith(t, "&gt;")
    ensures !StartsWith(t, "&quot;") && !StartsWith(t, "&apos;")
  {
    assert forall n :: 1 <= n <= |t| ==> t[..n][0] == '&' ==> t[0] == '&';
  }

  lemma UnescapeStep(c: char, rest: string)
    ensures Unescape(EscapeChar(c) + rest) == [c] + Unescape(rest)
  {
    if c == '&' { UnescapeAmp(c, rest); }
    else if c == '<' { UnescapeLt(c, rest); }
    else if c == '>' { UnescapeGt(c, rest); }
    else if c == '"' { UnescapeQuot(c, rest); }
    else if c == '\'' { UnescapeApos(c, rest); }
    else { UnescapePlain(c, rest); }
  }

  /** Decoding the entities of an escaped string gives the original back. */
  lemma {:induction false} EscapeRoundTrip(s: string)
    ensures Unescape(EscapeXml(s)) == s
  {
    EscapeXmlIsPerCharacter(s);
    EscapeEachRoundTrip(s);
  }

  lemma {:induction false} EscapeEachRoundTrip(s: string)
    ensures Unescape(EscapeEach(s)) == s
  {
    if s != [] {
      UnescapeStep(s[0], EscapeEach(s[1..]));
      EscapeEachRoundTrip(s[1..]);
    }
  }

  /** A string with none of the five special characters is left unchanged. */
  lemma {:induction false} EscapeIdentity(s: string)
    requires forall i :: 0 <= i < |s| ==> !IsSpecial(s[i])
    ensures EscapeXml(s) == s
  {
    EscapeXmlIsPerCharacter(s);
    EscapeEachIdentity(s);
  }

  lemma {:induction false} EscapeEachIdentity(s: string)
    requires forall i :: 0 <= i < |s| ==> !IsSpecial(s[i])
    ensures EscapeEach(s) == s
  {
    if s != [] {
      EscapeEachIdentity(s[1..]);
    }
  }

  // ---------------------------------------------------------------------------
  // The urlset
  // ---------------------------------------------------------------------------

  /**
   * An element of the feed's array as the script reads it: a field is `None`
   * when it is missing or null (a `null` element reads as a record with every
   * field missing, since `p?.slug` is then undefined).
   */
  datatype FeedRecord = FeedRecord(slug: Option<string>, publishedAt: Option<string>, updatedAt: Option<string>)

  /** A JavaScript string is truthy when it is not empty. */
  predicate Truthy(f: Option<string>) {
    f.Some? && f.value != ""
  }

  /** The script's `isPublished`: `Date.parse(publishedAt || '')` is a number not after `now`. */
  predicate IsPublished(publishedAt: Option<string>, parse: string -> Option<int>, now: int) {
    var ts := parse(if Truthy(publishedAt) then publishedAt.value else "");
    ts.Some? && ts.value <= now
  }

  /** The filter of `toSitemapXml`: a slug, a publish date, and that date not in the future. */
  predicate Qualifies(p: FeedRecord, parse: string -> Option<int>, now: int) {
    Truthy(p.slug) && Truthy(p.publishedAt) && IsPublished(p.publishedAt, parse, now)
  }

  /** One `<url>` entry: `lastmod` is `None` when no `<lastmod>` line is written. */
  datatype UrlEntry = UrlEntry(loc: string, changefreq: string, priority: string, lastmod: Option<string>)

  function StaticEntries(): seq<UrlEntry> {
    [ UrlEntry(SiteOrigin + "/", "daily", "1.0", None),
      UrlEntry(SiteOrigin + "/blog", "weekly", "0.8", None) ]
  }

  /** The first ten characters of `updatedAt`, else of `publishedAt`, else of today's date. */
  function LastMod(p: FeedRecord, today: string): string {
    Take(if Truthy(p.updatedAt) then p.updatedAt.value
         else if Truthy(p.publishedAt) then p.publishedAt.value
         else today, 10)
  }

  function BlogEntry(p: FeedRecord, today: string): UrlEntry {
    UrlEntry(SiteOrigin + "/blog/" + p.slug.GetOr(""), "monthly", "0.7", Some(LastMod(p, today)))
  }

  function QualifyingPosts(posts: seq<FeedRecord>, parse: string -> Option<int>, now: int): seq<FeedRecord> {
    Filter((p: FeedRecord) => Qualifies(p, parse, now), posts)
  }

  /** The two static entries, then one entry per qualifying post, in input order. */
  function Entries(posts: seq<FeedRecord>, parse: string -> Option<int>, now: int, today: string): seq<UrlEntry> {
    var q := QualifyingPosts(posts, parse, now);
    StaticEntries() + seq(|q|, i requires 0 <= i < |q| => BlogEntry(q[i], today))
  }

  /** The text of one `<url>` element; the `<lastmod>` line only when there is a non-empty lastmod. */
  function RenderEntry(u: UrlEntry): string {
    var lastmodLine := if Truthy(u.lastmod) then "\n    <lastmod>" + EscapeXml(u.lastmod.value) + "</lastmod>" else "";
    "  <url>\n    <loc>" + EscapeXml(u.loc) + "</loc>" + lastmodLine +
    "\n    <changefreq>" + u.changefreq + "</changefreq>\n    <priority>" + u.priority + "</priority>\n  </url>"
  }

  const XmlHeader: string := "<?xml version=\"1.0\" encoding=\"UTF-8\"?>\n<urlset xmlns=\"http://www.sitemaps.org/schemas/sitemap/0.9\">\n"
  const XmlFooter: string := "\n</urlset>\n"

  /** `toSitemapXml`. */
  function ToSitemapXml(posts: seq<FeedRecord>, parse: string -> Option<int>, now: int, today: string): string {
    var entries := Entries(posts, parse, now, today);
    var rows := seq(|entries|, i requires 0 <= i < |entries| => RenderEntry(entries[i]));
    XmlHeader + Join(rows, "\n") + XmlFooter
  }

  /**
   * `/` (daily, 1.0) comes first and `/blog` (weekly, 0.8) second, neither with
   * a lastmod; then one monthly, 0.7 entry per qualifying post, in input order.
   */
  lemma EntriesShape(posts: seq<FeedRecord>, parse: string -> Option<int>, now: int, today: string)
    ensures var e := Entries(posts, parse, now, today);
      |e| == 2 + |QualifyingPosts(posts, parse, now)| &&
      e[0] == UrlEntry(SiteOrigin + "/", "daily", "1.0", None) &&
      e[1] == UrlEntry(SiteOrigin + "/blog", "weekly", "0.8", None)
    ensures var e := Entries(posts, parse, now, today);
      var q := QualifyingPosts(posts, parse, now);
      forall i :: 0 <= i < |q| ==>
        Truthy(q[i].slug) && Truthy(q[i].publishedAt) &&
        e[2 + i].loc == SiteOrigin + "/blog/" + q[i].slug.value &&
        e[2 + i].changefreq == "monthly" && e[2 + i].priority == "0.7" && e[2 + i].lastmod.Some? &&
        e[2 + i] == BlogEntry(q[i], today)
  {
    var q := QualifyingPosts(posts, parse, now);
    var e := Entries(posts, parse, now, today);
    forall i | 0 <= i < |q| ensures Truthy(q[i].slug) && Truthy(q[i].publishedAt) && e[2 + i] == BlogEntry(q[i], today) {
      assert q[i] in q;
    }
  }

  /** A post gets an entry exactly when its slug and publish date are set and the date has passed. */
  lemma QualifyingPostsExactly(posts: seq<FeedRecord>, parse: string -> Option<int>, now: int, p: FeedRecord)
    ensures p in QualifyingPosts(posts, parse, now) <==>
      p in posts && Truthy(p.slug) && Truthy(p.publishedAt) &&
      parse(p.publishedAt.value).Some? && parse(p.publishedAt.value).value <= now
  {
  }

  /** The entries of a concatenation are those of the parts: the input order is kept. */
  lemma QualifyingPostsKeepOrder(a: seq<FeedRecord>, b: seq<FeedRecord>, parse: string -> Option<int>, now: int)
    ensures QualifyingPosts(a + b, parse, now) == QualifyingPosts(a, parse, now) + QualifyingPosts(b, parse, now)
  {
    FilterAppend((p: FeedRecord) => Qualifies(p, parse, now), a, b);
  }

  /**
   * A blog entry's lastmod is the first ten characters of `updatedAt`, else of
   * `publishedAt`; it is never empty, so its row always has a `<lastmod>` line.
   */
  lemma BlogLastMod(p: FeedRecord, today: string)
    requires Truthy(p.slug) && Truthy(p.publishedAt)
    ensures BlogEntry(p, today).lastmod ==
      Some(Take(if Truthy(p.updatedAt) then p.updatedAt.value else p.publishedAt.value, 10))
    ensures Truthy(BlogEntry(p, today).lastmod)
    ensures Contains(RenderEntry(BlogEntry(p, today)), "<lastmod>")
  {
    LastmodLineIffLastmod(BlogEntry(p, today));
  }

  /** Today's date is never used: every qualifying post has a publish date. */
  lemma TodayIsNeverUsed(posts: seq<FeedRecord>, parse: string -> Option<int>, now: int, t1: string, t2: string)
    ensures Entries(posts, parse, now, t1) == Entries(posts, parse, now, t2)
  {
    var q := QualifyingPosts(posts, parse, now);
    forall i | 0 <= i < |q| ensures BlogEntry(q[i], t1) == BlogEntry(q[i], t2) {
      assert q[i] in q;
    }
  }

  /**
   * Every `<` of `s` opens a tag whose second character is not `a`, so no
   * `<lastmod>` starts there.
   */
  predicate NoLastmodTag(s: string) {
    forall i :: 0 <= i < |s| && s[i] == '<' ==> i + 2 < |s| && s[i + 2] != 'a'
  }

  lemma NoLastmodTagConcat(a: string, b: string)
    requires NoLastmodTag(a) && NoLastmodTag(b)
    ensures NoLastmodTag(a + b)
  {
    forall i | 0 <= i < |a + b| && (a + b)[i] == '<' ensures i + 2 < |a + b| && (a + b)[i + 2] != 'a' {
      if i >= |a| {
        assert b[i - |a|] == '<';
      }
    }
  }

  lemma NoLastmodTagWithoutMarkup(s: string)
    requires forall i :: 0 <= i < |s| ==> s[i] != '<'
    ensures NoLastmodTag(s)
  {
  }

  /** The fixed pieces of a row without its lastmod line. */
  lemma RowPiecesHaveNoLastmodTag()
    ensures NoLastmodTag("  <url>\n    <loc>") && NoLastmodTag("</loc>")
    ensures NoLastmodTag("\n    <changefreq>") && NoLastmodTag("</changefreq>\n    <priority>")
    ensures NoLastmodTag("</priority>\n  </url>")
  {
  }

  lemma NotContainsLastmod(s: string)
    requires NoLastmodTag(s)
    ensures !Contains(s, "<lastmod>")
  {
    forall k: int | 0 <= k ensures !OccursAt(s, "<lastmod>", k) {
      if k + 9 <= |s| && s[k] == '<' {
        assert s[k..k + 9][2] == s[k + 2];
      } else if k + 9 <= |s| {
        assert s[k..k + 9][0] == s[k];
      }
    }
  }

  /**
   * A row has a `<lastmod>` tag exactly when its entry has a non-empty
   * lastmod (the location is escaped, and the change frequency and priority
   * hold no `<`).
   */
  lemma LastmodLineIffLastmod(u: UrlEntry)
    requires forall i :: 0 <= i < |u.changefreq| ==> u.changefreq[i] != '<'
    requires forall i :: 0 <= i < |u.priority| ==> u.priority[i] != '<'
    ensures Contains(RenderEntry(u), "<lastmod>") <==> Truthy(u.lastmod)
  {
    if Truthy(u.lastmod) {
      RowWithLastmodLine(u);
    } else {
      RowWithoutLastmodLine(u);
    }
  }

  lemma RowWithLastmodLine(u: UrlEntry)
    requires Truthy(u.lastmod)
    ensures Contains(RenderEntry(u), "<lastmod>")
  {
    var head := "  <url>\n    <loc>" + EscapeXml(u.loc) + "</loc>" + "\n    ";
    var tail := EscapeXml(u.lastmod.value) + "</lastmod>" + "\n    <changefreq>" + u.changefreq +
      "</changefreq>\n    <priority>" + u.priority + "</priority>\n  </url>";
    assert "\n    <lastmod>" == "\n    " + "<lastmod>";
    Regroup("  <url>\n    <loc>", EscapeXml(u.loc), "</loc>", "\n    ", "<lastmod>", EscapeXml(u.lastmod.value),
      "</lastmod>", "\n    <changefreq>", u.changefreq, "</changefreq>\n    <priority>", u.priority, "</priority>\n  </url>");
    assert RenderEntry(u) == head + "<lastmod>" + tail;
    MiddleOfConcat(head, "<lastmod>", tail);
    assert OccursAt(RenderEntry(u), "<lastmod>", |head|);
  }

  /** The row with a lastmod line, regrouped around its `<lastmod>` tag. */
  lemma Regroup(a: string, e: string, b: string, l1: string, l2: string, v: string, l3: string,
                c: string, cf: string, d: string, pr: string, f: string)
    ensures a + e + b + (l1 + l2 + v + l3) + c + cf + d + pr + f
         == (a + e + b + l1) + l2 + (v + l3 + c + cf + d + pr + f)
  {
  }

  lemma RowWithoutLastmodLine(u: UrlEntry)
    requires !Truthy(u.lastmod)
    requires forall i :: 0 <= i < |u.changefreq| ==> u.changefreq[i] != '<'
    requires forall i :: 0 <= i < |u.priority| ==> u.priority[i] != '<'
    ensures !Contains(RenderEntry(u), "<lastmod>")
  {
    var e := EscapeXml(u.loc);
    var head := "  <url>\n    <loc>" + e + "</loc>";
    var mid := "\n    <changefreq>" + u.changefreq + "</changefreq>\n    <priority>";
    var tail := mid + u.priority + "</priority>\n  </url>";
    assert RenderEntry(u) == head + tail;
    RowPiecesHaveNoLastmodTag();
    EscapedHasNoMarkup(u.loc);
    NoLastmodTagWithoutMarkup(e);
    NoLastmodTagWithoutMarkup(u.changefreq);
    NoLastmodTagWithoutMarkup(u.priority);
    NoLastmodTagConcat("  <url>\n    <loc>", e);
    NoLastmodTagConcat("  <url>\n    <loc>" + e, "</loc>");
    NoLastmodTagConcat("\n    <changefreq>", u.changefreq);
    NoLastmodTagConcat("\n    <changefreq>" + u.changefreq, "</changefreq>\n    <priority>");
    NoLastmodTagConcat(mid, u.priority);
    NoLastmodTagConcat(mid + u.priority, "</priority>\n  </url>");
    NoLastmodTagConcat(head, tail);
    NotContainsLastmod(head + tail);
  }

  /** The two static rows carry no `<lastmod>` tag. */
  lemma StaticRows(k: nat)
    requires k < 2
    ensures StaticEntries()[k].lastmod.None?
    ensures !Contains(RenderEntry(StaticEntries()[k]), "<lastmod>")
  {
    var u := StaticEntries()[k];
    assert u.changefreq == "daily" || u.changefreq == "weekly";
    assert u.priority == "1.0" || u.priority == "0.8";
    LastmodLineIffLastmod(u);
  }

  /**
   * The document starts with the XML declaration and the `urlset` of the
   * sitemaps.org 0.9 namespace and ends with `</urlset>` and a newline.
   */
  lemma DocumentFrame(posts: seq<FeedRecord>, parse: string -> Option<int>, now: int, today: string)
    ensures StartsWith(ToSitemapXml(posts, parse, now, today),
      "<?xml version=\"1.0\" encoding=\"UTF-8\"?>\n<urlset xmlns=\"http://www.sitemaps.org/schemas/sitemap/0.9\">\n")
    ensures var x := ToSitemapXml(posts, parse, now, today);
      |x| >= 11 && x[|x| - 11..] == "\n</urlset>\n"
  {
    var x := ToSitemapXml(posts, parse, now, today);
    var entries := Entries(posts, parse, now, today);
    var rows := seq(|entries|, i requires 0 <= i < |entries| => RenderEntry(entries[i]));
    assert x == XmlHeader + Join(rows, "\n") + XmlFooter;
    assert x[..|XmlHeader|] == XmlHeader;
    assert x[|x| - 11..] == XmlFooter;
  }
}
