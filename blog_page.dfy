/**
 * The text rendering, routing and SEO choices of the blog page
 * (src/blog/BlogPage.tsx): the paragraph tokenizer that turns
 * `[anchor](http…)` into links, the brand-name split, the pathname/slug
 * normalisation, the post lookup and the three-way SEO branch.
 */
module BlogPage {
  import opened Wrappers
  import opened Text
  import opened Seqs
  import opened BlogTypes
  import opened Seo

  // ---------------------------------------------------------------------------
  // Paragraph links: /\[([^\]]+)\]\((https?:\/\/[^\s)]+)\)/g
  // ---------------------------------------------------------------------------

  /** A character of the URL run `[^\s)]`. */
  predicate HrefChar(c: char) {
    !IsWhitespace(c) && c != ')'
  }

  /** Anchor text: one or more characters, none of them `]`. */
  predicate ValidAnchor(anchor: string) {
    anchor != [] && forall k :: 0 <= k < |anchor| ==> anchor[k] != ']'
  }

  /** What follows the scheme: one or more characters of `[^\s)]`. */
  predicate ValidRest(rest: string) {
    rest != [] && forall k :: 0 <= k < |rest| ==> HrefChar(rest[k])
  }

  /** A link target: `https://` or `http://` followed by a valid rest. */
  predicate ValidHref(href: string) {
    (StartsWith(href, "https://") && ValidRest(href[8..])) ||
    (StartsWith(href, "http://") && ValidRest(href[7..]))
  }

  /** The source text of a link: `[anchor](href)`. */
  function LinkSource(anchor: string, href: string): string {
    "[" + anchor + "](" + href + ")"
  }

  /**
   * The pattern matches at index `i` with these two groups: the regular
   * language of the pattern, stated declaratively.
   */
  predicate IsLinkAt(text: string, i: nat, anchor: string, href: string) {
    ValidAnchor(anchor) && ValidHref(href) && OccursAt(text, LinkSource(anchor, href), i)
  }

  /** A match: both groups and the index just past it. */
  datatype LinkMatch = LinkMatch(anchor: string, href: string, end: nat)

  /** The first index at or after `from` holding `c`, or `|text|`. */
  function IndexOfChar(text: string, from: nat, c: char): (r: nat)
    requires from <= |text|
    ensures from <= r <= |text|
    ensures r < |text| ==> text[r] == c
    ensures forall k :: from <= k < r ==> text[k] != c
    decreases |text| - from
  {
    if from == |text| || text[from] == c then from else IndexOfChar(text, from + 1, c)
  }

  /** The end of the longest run of `[^\s)]` starting at `from`. */
  function HrefRunEnd(text: string, from: nat): (r: nat)
    requires from <= |text|
    ensures from <= r <= |text|
    ensures r < |text| ==> !HrefChar(text[r])
    ensures forall k :: from <= k < r ==> HrefChar(text[k])
    decreases |text| - from
  {
    if from == |text| || !HrefChar(text[from]) then from else HrefRunEnd(text, from + 1)
  }

  /** The length of the scheme at `p`: 8 for `https://`, 7 for `http://`, 0 for neither. */
  function SchemeLength(text: string, p: nat): nat {
    if p + 7 <= |text| && text[p] == 'h' && text[p + 1] == 't' && text[p + 2] == 't' && text[p + 3] == 'p' then
      if p + 8 <= |text| && text[p + 4] == 's' && text[p + 5] == ':' && text[p + 6] == '/' && text[p + 7] == '/' then 8
      else if text[p + 4] == ':' && text[p + 5] == '/' && text[p + 6] == '/' then 7
      else 0
    else 0
  }

  /** `SchemeLength` recognises exactly the two literal schemes of the pattern, preferring `https://`. */
  lemma SchemeLengthLiterals(text: string, p: nat)
    ensures SchemeLength(text, p) == 8 <==> OccursAt(text, "https://", p)
    ensures SchemeLength(text, p) == 7 <==> OccursAt(text, "http://", p) && !OccursAt(text, "https://", p)
    ensures SchemeLength(text, p) == 0 || SchemeLength(text, p) == 7 || SchemeLength(text, p) == 8
  {
    if OccursAt(text, "https://", p) {
      var w := text[p..p + 8];
      assert w[0] == 'h' && w[1] == 't' && w[2] == 't' && w[3] == 'p';
      assert w[4] == 's' && w[5] == ':' && w[6] == '/' && w[7] == '/';
    }
    if OccursAt(text, "http://", p) {
      var w := text[p..p + 7];
      assert w[0] == 'h' && w[1] == 't' && w[2] == 't' && w[3] == 'p';
      assert w[4] == ':' && w[5] == '/' && w[6] == '/';
    }
    if SchemeLength(text, p) == 8 {
      assert text[p..p + 8] == "https://";
    }
    if SchemeLength(text, p) == 7 {
      assert text[p..p + 7] == "http://";
    }
  }

  /**
   * The pattern tried at index `i`. Every character class of the pattern
   * excludes the character that ends it, so the engine never needs to
   * backtrack: the anchor runs to the first `]`, the URL run is the longest one,
   * and the attempt either succeeds that way or not at all.
   */
  function MatchAt(text: string, i: nat): (r: Option<LinkMatch>)
    requires i <= |text|
    ensures r.Some? ==> i < r.value.end <= |text|
  {
    if i < |text| && text[i] == '[' then
      var j := IndexOfChar(text, i + 1, ']');
      if j > i + 1 && j + 1 < |text| && text[j + 1] == '(' then
        var p := j + 2;
        var scheme := SchemeLength(text, p);
        if scheme == 0 then None
        else
          var e := HrefRunEnd(text, p + scheme);
          if e > p + scheme && e < |text| && text[e] == ')' then
            Some(LinkMatch(text[i + 1..j], text[p..e], e + 1))
          else None
      else None
    else None
  }

  /** The text of a successful `MatchAt`, split at the positions it found. */
  lemma MatchAtParts(text: string, i: nat) returns (j: nat, p: nat, scheme: nat, e: nat)
    requires i <= |text| && MatchAt(text, i).Some?
    ensures i + 1 < j && p == j + 2 && p + scheme < e < |text|
    ensures text[i] == '[' && text[j] == ']' && text[j + 1] == '(' && text[e] == ')'
    ensures forall k :: i + 1 <= k < j ==> text[k] != ']'
    ensures scheme == SchemeLength(text, p) && scheme > 0
    ensures forall k :: p + scheme <= k < e ==> HrefChar(text[k])
    ensures MatchAt(text, i).value == LinkMatch(text[i + 1..j], text[p..e], e + 1)
  {
    j := IndexOfChar(text, i + 1, ']');
    p := j + 2;
    scheme := SchemeLength(text, p);
    e := HrefRunEnd(text, p + scheme);
  }

  lemma AnchorSliceValid(text: string, i: nat, j: nat)
    requires i + 1 < j <= |text|
    requires forall k :: i + 1 <= k < j ==> text[k] != ']'
    ensures ValidAnchor(text[i + 1..j])
  {
    var anchor := text[i + 1..j];
    forall k | 0 <= k < |anchor| ensures anchor[k] != ']' {
      assert anchor[k] == text[i + 1 + k];
    }
  }

  lemma HrefSliceValid(text: string, p: nat, scheme: nat, e: nat)
    requires p + scheme < e <= |text|
    requires scheme == SchemeLength(text, p) && scheme > 0
    requires forall k :: p + scheme <= k < e ==> HrefChar(text[k])
    ensures ValidHref(text[p..e])
  {
    var href := text[p..e];
    var rest := href[scheme..];
    forall k | 0 <= k < |rest| ensures HrefChar(rest[k]) {
      assert rest[k] == text[p + scheme + k];
    }
    SchemeLengthLiterals(text, p);
    assert href[..scheme] == text[p..p + scheme];
  }

  /** `text[i..e + 1]` is `[anchor](href)` for the anchor and href between the delimiters. */
  lemma LinkSlice(text: string, i: nat, j: nat, e: nat)
    requires i < j && j + 2 <= e < |text|
    requires text[i] == '[' && text[j] == ']' && text[j + 1] == '(' && text[e] == ')'
    ensures text[i..e + 1] == LinkSource(text[i + 1..j], text[j + 2..e])
  {
    var src := LinkSource(text[i + 1..j], text[j + 2..e]);
    assert src == ['['] + text[i + 1..j] + [']', '('] + text[j + 2..e] + [')'];
    assert text[i..e + 1] == [text[i]] + text[i + 1..j] + [text[j], text[j + 1]] + text[j + 2..e] + [text[e]];
  }

  /** Every match `MatchAt` reports is an occurrence of the pattern. */
  lemma MatchAtSound(text: string, i: nat)
    requires i <= |text| && MatchAt(text, i).Some?
    ensures var m := MatchAt(text, i).value;
      IsLinkAt(text, i, m.anchor, m.href) && m.end == i + |LinkSource(m.anchor, m.href)|
  {
    var j, p, scheme, e := MatchAtParts(text, i);
    AnchorSliceValid(text, i, j);
    HrefSliceValid(text, p, scheme, e);
    LinkSlice(text, i, j, e);
  }

  /** Where an occurrence of `[anchor](href)` at `i` puts its delimiters and its two groups. */
  lemma LinkChars(text: string, i: nat, anchor: string, href: string)
    requires OccursAt(text, LinkSource(anchor, href), i)
    ensures i + |anchor| + |href| + 4 <= |text|
    ensures text[i] == '[' && text[i + 1 + |anchor|] == ']' && text[i + 2 + |anchor|] == '('
    ensures text[i + 3 + |anchor| + |href|] == ')'
    ensures text[i + 1..i + 1 + |anchor|] == anchor
    ensures text[i + 3 + |anchor|..i + 3 + |anchor| + |href|] == href
  {
    var src := LinkSource(anchor, href);
    var n := |anchor|;
    assert src == "[" + anchor + ("](" + href + ")");
    MiddleOfConcat("[", anchor, "](" + href + ")");
    MiddleOfConcat("[" + anchor + "](", href, ")");
    SliceOfSlice(text, i, i + |src|, 1, 1 + n);
    SliceOfSlice(text, i, i + |src|, 3 + n, 3 + n + |href|);
  }

  /** The label search stops at the `]` that closes a valid anchor. */
  lemma AnchorEnd(text: string, i: nat, anchor: string)
    requires ValidAnchor(anchor) && i + 1 + |anchor| < |text|
    requires text[i + 1..i + 1 + |anchor|] == anchor
    requires text[i + 1 + |anchor|] == ']'
    ensures IndexOfChar(text, i + 1, ']') == i + 1 + |anchor|
  {
    assert forall k :: i + 1 <= k < i + 1 + |anchor| ==> text[k] == anchor[k - i - 1];
    var j := IndexOfChar(text, i + 1, ']');
  }

  /** The scheme and URL run of a valid href followed by `)`. */
  lemma HrefEnd(text: string, p: nat, href: string)
    requires ValidHref(href) && p + |href| < |text|
    requires text[p..p + |href|] == href
    requires text[p + |href|] == ')'
    ensures SchemeLength(text, p) > 0
    ensures HrefRunEnd(text, p + SchemeLength(text, p)) == p + |href|
    ensures SchemeLength(text, p) < |href|
  {
    var scheme := if StartsWith(href, "https://") && ValidRest(href[8..]) then 8 else 7;
    assert href[..scheme] == text[p..p + scheme];
    SchemeLengthLiterals(text, p);
    if scheme == 7 {
      assert text[p + 4] == href[4] == ':';
      assert !OccursAt(text, "https://", p);
    }
    assert SchemeLength(text, p) == scheme;
    var end := p + |href|;
    forall k | p + scheme <= k < end ensures HrefChar(text[k]) {
      assert text[k] == href[k - p] == href[scheme..][k - p - scheme];
    }
    var e := HrefRunEnd(text, p + scheme);
    assert e == end;
  }

  /**
   * Every occurrence of the pattern at `i` is the match `MatchAt` reports:
   * together with `MatchAtSound`, the pattern matches at `i` exactly when
   * `MatchAt` succeeds, and its groups are determined.
   */
  lemma MatchAtComplete(text: string, i: nat, anchor: string, href: string)
    requires IsLinkAt(text, i, anchor, href)
    ensures MatchAt(text, i) == Some(LinkMatch(anchor, href, i + |LinkSource(anchor, href)|))
  {
    LinkChars(text, i, anchor, href);
    MatchAtDelimited(text, i, anchor, href);
    assert |LinkSource(anchor, href)| == |anchor| + |href| + 4;
  }

  /** `MatchAt` on text laid out as `[anchor](href)` at `i`, given position by position. */
  lemma MatchAtDelimited(text: string, i: nat, anchor: string, href: string)
    requires ValidAnchor(anchor) && ValidHref(href) && i + |anchor| + |href| + 4 <= |text|
    requires text[i] == '[' && text[i + 1 + |anchor|] == ']' && text[i + 2 + |anchor|] == '('
    requires text[i + 3 + |anchor| + |href|] == ')'
    requires text[i + 1..i + 1 + |anchor|] == anchor
    requires text[i + 3 + |anchor|..i + 3 + |anchor| + |href|] == href
    ensures MatchAt(text, i) == Some(LinkMatch(anchor, href, i + |anchor| + |href| + 4))
  {
    AnchorEnd(text, i, anchor);
    var j := i + 1 + |anchor|;
    var p := j + 2;
    HrefEnd(text, p, href);
    MatchAtWhen(text, i, j, SchemeLength(text, p), p + |href|);
  }

  /** `MatchAt` succeeds when each of its tests passes, with the groups between the positions found. */
  lemma MatchAtWhen(text: string, i: nat, j: nat, scheme: nat, e: nat)
    requires i < j && j + 1 < |text| && e < |text|
    requires text[i] == '[' && IndexOfChar(text, i + 1, ']') == j && j > i + 1 && text[j + 1] == '('
    requires scheme == SchemeLength(text, j + 2) && scheme > 0
    requires j + 2 + scheme < e && HrefRunEnd(text, j + 2 + scheme) == e && text[e] == ')'
    ensures MatchAt(text, i) == Some(LinkMatch(text[i + 1..j], text[j + 2..e], e + 1))
  {
  }

  /** `linkRegex.exec` from `from`: the leftmost index at or after `from` where the pattern matches. */
  function FindMatch(text: string, from: nat): (r: Option<nat>)
    requires from <= |text|
    ensures r.Some? ==> from <= r.value <= |text| && MatchAt(text, r.value).Some?
    decreases |text| - from
  {
    if MatchAt(text, from).Some? then Some(from)
    else if from == |text| then None
    else FindMatch(text, from + 1)
  }

  /** The search skips no match: the pattern matches nowhere between `from` and the index found (or the end). */
  lemma {:induction false} FindMatchLeftmost(text: string, from: nat, k: nat)
    requires from <= k <= |text|
    requires FindMatch(text, from).None? || k < FindMatch(text, from).value
    ensures MatchAt(text, k).None?
    decreases |text| - from
  {
    if k > from {
      FindMatchLeftmost(text, from + 1, k);
    }
  }

  /** A rendered piece of a paragraph: plain text, or a link with its anchor. */
  datatype Part = TextPart(s: string) | LinkPart(anchor: string, href: string)

  /** The text between the previous match and the next one, as a part when it is not empty. */
  function Gap(text: string, from: nat, start: nat): seq<Part>
    requires from <= start <= |text|
  {
    if start > from then [TextPart(text[from..start])] else []
  }

  /** The parts the tokenizer produces for `text[from..]`. */
  function TokensFrom(text: string, from: nat): seq<Part>
    requires from <= |text|
    decreases |text| - from
  {
    match FindMatch(text, from)
    case None => if from < |text| then [TextPart(text[from..])] else []
    case Some(start) =>
      var m := MatchAt(text, start).value;
      Gap(text, from, start) + [LinkPart(m.anchor, m.href)] + TokensFrom(text, m.end)
  }

  /** One step of the tokenizer: the text before the next match, the link, then the rest. */
  lemma TokensStep(text: string, from: nat)
    requires from <= |text| && FindMatch(text, from).Some?
    ensures var start := FindMatch(text, from).value;
      var m := MatchAt(text, start).value;
      TokensFrom(text, from) == Gap(text, from, start) + [LinkPart(m.anchor, m.href)] + TokensFrom(text, m.end)
  {
  }

  /** Past the last match, the rest of the text (if any) is one text part. */
  lemma TokensEnd(text: string, from: nat)
    requires from <= |text| && FindMatch(text, from).None?
    ensures TokensFrom(text, from) == if from < |text| then [TextPart(text[from..])] else []
  {
  }

  /** `renderParagraphText` up to the React elements: the exec loop over the paragraph. */
  method RenderParagraphText(text: string) returns (parts: seq<Part>)
    ensures parts == TokensFrom(text, 0)
  {
    parts := [];
    var lastIndex := 0;
    var found := FindMatch(text, lastIndex);
    while found.Some?
      invariant lastIndex <= |text|
      invariant found == FindMatch(text, lastIndex)
      invariant parts + TokensFrom(text, lastIndex) == TokensFrom(text, 0)
      decreases |text| - lastIndex
    {
      var start := found.value;
      var m := MatchAt(text, start).value;
      ghost var before := lastIndex;
      ghost var old_parts := parts;
      if start > lastIndex {
        parts := parts + [TextPart(text[lastIndex..start])];
      }
      parts := parts + [LinkPart(m.anchor, m.href)];
      lastIndex := m.end;
      found := FindMatch(text, lastIndex);
      TokensStep(text, before);
      ghost var head := Gap(text, before, start);
      ghost var link := [LinkPart(m.anchor, m.href)];
      assert parts == old_parts + head + link;
      assert TokensFrom(text, before) == head + link + TokensFrom(text, lastIndex);
      AppendAssoc(old_parts, head, link, TokensFrom(text, lastIndex));
    }
    TokensEnd(text, lastIndex);
    if lastIndex < |text| {
      parts := parts + [TextPart(text[lastIndex..])];
    }
  }

  /** The source text a part came from. */
  function PartSource(p: Part): string {
    match p
    case TextPart(s) => s
    case LinkPart(anchor, href) => LinkSource(anchor, href)
  }

  function Render(parts: seq<Part>): string {
    if parts == [] then [] else PartSource(parts[0]) + Render(parts[1..])
  }

  lemma {:induction false} RenderAppend(a: seq<Part>, b: seq<Part>)
    ensures Render(a + b) == Render(a) + Render(b)
  {
    if a == [] {
      assert a + b == b;
    } else {
      assert (a + b)[1..] == a[1..] + b;
      RenderAppend(a[1..], b);
    }
  }

  lemma RenderSingle(p: Part)
    ensures Render([p]) == PartSource(p)
  {
    assert [p][1..] == [];
  }

  /** Rendering one tokenizer step gives back the text it covered. */
  lemma RenderStep(text: string, from: nat, start: nat, end: nat, link: seq<Part>, rest: seq<Part>)
    requires from <= start <= end <= |text|
    requires Render(link) == text[start..end]
    requires Render(rest) == text[end..]
    ensures Render(Gap(text, from, start) + link + rest) == text[from..]
  {
    RenderThree(Gap(text, from, start), link, rest);
    RenderGap(text, from, start);
    SliceSplit(text, from, start, end);
  }

  lemma RenderThree(a: seq<Part>, b: seq<Part>, c: seq<Part>)
    ensures Render(a + b + c) == Render(a) + Render(b) + Render(c)
  {
    RenderAppend(a + b, c);
    RenderAppend(a, b);
  }

  lemma RenderGap(text: string, from: nat, start: nat)
    requires from <= start <= |text|
    ensures Render(Gap(text, from, start)) == text[from..start]
  {
    if start > from {
      RenderSingle(TextPart(text[from..start]));
    }
  }

  lemma SliceSplit<T>(s: seq<T>, a: nat, b: nat, c: nat)
    requires a <= b <= c <= |s|
    ensures s[a..] == s[a..b] + s[b..c] + s[c..]
  {
    SliceThree(s[a..], b - a, c - a);
    SliceOfSlice(s, a, |s|, 0, b - a);
    SliceOfSlice(s, a, |s|, b - a, c - a);
    assert s[a..][c - a..] == s[c..];
  }

  /** The characters a match covers render back from its link part. */
  lemma MatchAtText(text: string, i: nat)
    requires i <= |text| && MatchAt(text, i).Some?
    ensures var m := MatchAt(text, i).value;
      Render([LinkPart(m.anchor, m.href)]) == text[i..m.end]
  {
    var m := MatchAt(text, i).value;
    MatchAtSound(text, i);
    RenderSingle(LinkPart(m.anchor, m.href));
  }

  /** The text after the last match renders back from its text part. */
  lemma RenderTail(text: string, from: nat)
    requires from <= |text|
    ensures Render(if from < |text| then [TextPart(text[from..])] else []) == text[from..]
  {
    if from < |text| {
      RenderSingle(TextPart(text[from..]));
    }
  }

  /** The parts are a lossless split of the paragraph: putting their sources back together gives the text. */
  lemma {:induction false} TokensRoundTrip(text: string, from: nat)
    requires from <= |text|
    ensures Render(TokensFrom(text, from)) == text[from..]
    decreases |text| - from
  {
    var f := FindMatch(text, from);
    if f.None? {
      TokensEnd(text, from);
      RenderTail(text, from);
    } else {
      var start := f.value;
      TokensStep(text, from);
      var m := MatchAt(text, start).value;
      MatchAtText(text, start);
      TokensRoundTrip(text, m.end);
      RenderStep(text, from, start, m.end, [LinkPart(m.anchor, m.href)], TokensFrom(text, m.end));
    }
  }

  /**
   * The parts are well formed: no text part is empty, a text part is always
   * followed by a link (so two text parts never touch), and every link has a
   * anchor without `]` and an http(s) URL without spaces or `)`.
   */
  predicate WellFormed(parts: seq<Part>) {
    (forall k :: 0 <= k < |parts| && parts[k].TextPart? ==> parts[k].s != []) &&
    (forall k :: 0 <= k < |parts| - 1 && parts[k].TextPart? ==> parts[k + 1].LinkPart?) &&
    (forall k :: 0 <= k < |parts| && parts[k].LinkPart? ==> ValidAnchor(parts[k].anchor) && ValidHref(parts[k].href))
  }

  /** One tokenizer step in front of well-formed parts keeps them well formed. */
  lemma WellFormedStep(text: string, from: nat, start: nat, anchor: string, href: string, tail: seq<Part>)
    requires from <= start <= |text|
    requires ValidAnchor(anchor) && ValidHref(href) && WellFormed(tail)
    ensures WellFormed(Gap(text, from, start) + [LinkPart(anchor, href)] + tail)
  {
    var head := Gap(text, from, start);
    var r := head + [LinkPart(anchor, href)] + tail;
    forall k | 0 <= k < |r| - 1 && r[k].TextPart? ensures r[k + 1].LinkPart? {
      if k >= |head| + 1 {
        assert r[k] == tail[k - |head| - 1] && r[k + 1] == tail[k - |head|];
      }
    }
    forall k | 0 <= k < |r| && r[k].TextPart? ensures r[k].s != [] {
      if k >= |head| + 1 {
        assert r[k] == tail[k - |head| - 1];
      }
    }
    forall k | 0 <= k < |r| && r[k].LinkPart? ensures ValidAnchor(r[k].anchor) && ValidHref(r[k].href) {
      if k >= |head| + 1 {
        assert r[k] == tail[k - |head| - 1];
      }
    }
  }

  lemma {:induction false} TokensWellFormed(text: string, from: nat)
    requires from <= |text|
    ensures WellFormed(TokensFrom(text, from))
    decreases |text| - from
  {
    var f := FindMatch(text, from);
    if f.None? {
      TokensEnd(text, from);
    } else {
      var start := f.value;
      TokensStep(text, from);
      var m := MatchAt(text, start).value;
      MatchAtSound(text, start);
      TokensWellFormed(text, m.end);
      WellFormedStep(text, from, start, m.anchor, m.href, TokensFrom(text, m.end));
    }
  }

  /** A paragraph without a single link occurrence is one plain-text part (or none when empty). */
  lemma NoLinksPlainText(text: string)
    requires forall i, anchor, href :: !IsLinkAt(text, i, anchor, href)
    ensures TokensFrom(text, 0) == if text == [] then [] else [TextPart(text)]
  {
    var f := FindMatch(text, 0);
    if f.Some? {
      var m := MatchAt(text, f.value).value;
      MatchAtSound(text, f.value);
      assert false;
    }
  }

  // ---------------------------------------------------------------------------
  // Brand name links
  // ---------------------------------------------------------------------------

  const Brand: string := "Ghost Job Checker"

  /** A piece of a text part: plain text, or the brand name linked to the home page. */
  datatype Segment = Plain(s: string) | BrandLink

  /** Each piece followed by a brand link, except the last. */
  function Interleave(pieces: seq<string>): seq<Segment>
    requires |pieces| >= 1
  {
    if |pieces| == 1 then [Plain(pieces[0])] else [Plain(pieces[0]), BrandLink] + Interleave(pieces[1..])
  }

  /** `renderLinkedBrandText`. */
  function BrandSegments(text: string): seq<Segment> {
    var pieces := Split(text, Brand);
    if |pieces| == 1 then [Plain(text)] else Interleave(pieces)
  }

  function SegmentText(g: Segment): string {
    match g
    case Plain(s) => s
    case BrandLink => Brand
  }

  function SegmentsText(gs: seq<Segment>): string {
    if gs == [] then [] else SegmentText(gs[0]) + SegmentsText(gs[1..])
  }

  function LinkCount(gs: seq<Segment>): nat {
    if gs == [] then 0 else (if gs[0] == BrandLink then 1 else 0) + LinkCount(gs[1..])
  }

  lemma {:induction false} InterleaveText(pieces: seq<string>)
    requires |pieces| >= 1
    ensures SegmentsText(Interleave(pieces)) == Join(pieces, Brand)
    ensures LinkCount(Interleave(pieces)) == |pieces| - 1
    ensures forall k :: 0 <= k < |Interleave(pieces)| && Interleave(pieces)[k].Plain? ==>
      Interleave(pieces)[k].s in pieces
  {
    if |pieces| > 1 {
      var rest := Interleave(pieces[1..]);
      var r := Interleave(pieces);
      InterleaveText(pieces[1..]);
      assert r[0] == Plain(pieces[0]) && r[1] == BrandLink && r[2..] == rest;
      assert r[1..][1..] == rest;
      forall k | 0 <= k < |r| && r[k].Plain? ensures r[k].s in pieces {
        if k >= 2 {
          assert r[k] == rest[k - 2];
          assert r[k].s in pieces[1..];
        }
      }
    }
  }

  /**
   * The brand split shows the same characters, links every occurrence of the
   * brand name (and nothing else), and leaves text without the brand as it is.
   */
  lemma BrandSegmentsText(text: string)
    ensures SegmentsText(BrandSegments(text)) == text
    ensures LinkCount(BrandSegments(text)) == |Split(text, Brand)| - 1
    ensures forall k :: 0 <= k < |BrandSegments(text)| && BrandSegments(text)[k].Plain? ==>
      !Contains(BrandSegments(text)[k].s, Brand)
    ensures BrandSegments(text) == [Plain(text)] <==> !Contains(text, Brand)
  {
    var pieces := Split(text, Brand);
    SplitJoin(text, Brand);
    SplitSingle(text, Brand);
    SplitPieces(text, Brand);
    if |pieces| == 1 {
      assert SegmentsText([Plain(text)]) == text + SegmentsText([]);
      assert LinkCount([Plain(text)]) == 0 + LinkCount([]);
    } else {
      InterleaveText(pieces);
      var r := Interleave(pieces);
      assert r[1] == BrandLink;
      forall k | 0 <= k < |r| && r[k].Plain? ensures !Contains(r[k].s, Brand) {
        var t :| 0 <= t < |pieces| && pieces[t] == r[k].s;
      }
    }
  }

  // ---------------------------------------------------------------------------
  // Routing
  // ---------------------------------------------------------------------------

  /** `replace(/\/+$/, '')`: drop every trailing `/`. */
  function StripTrailingSlashes(p: string): (r: string)
    ensures |r| <= |p| && r == p[..|r|]
    ensures r == [] || r[|r| - 1] != '/'
    ensures forall k :: |r| <= k < |p| ==> p[k] == '/'
  {
    if p != [] && p[|p| - 1] == '/' then StripTrailingSlashes(p[..|p| - 1]) else p
  }

  /** The page's pathname: trailing slashes dropped, an empty result read as `/blog`. */
  function NormalizePathname(raw: string): string {
    var stripped := StripTrailingSlashes(raw);
    if stripped == [] then "/blog" else stripped
  }

  /** The slug of a pathname: what follows a leading `/blog/`, else empty. */
  function SlugOf(pathname: string): string {
    if StartsWith(pathname, "/blog/") then ReplaceFirst(pathname, "/blog/", "") else ""
  }

  /** A normalised pathname is never empty and never ends with `/`; normalising twice changes nothing. */
  lemma NormalizePathnameShape(raw: string)
    ensures var p := NormalizePathname(raw);
      p != [] && p[|p| - 1] != '/' && NormalizePathname(p) == p
  {
    var p := NormalizePathname(raw);
    assert p[|p| - 1] != '/';
    assert StripTrailingSlashes(p) == p;
  }

  /** The slug is everything after the leading `/blog/`, so `/blog/` + slug is the pathname again. */
  lemma SlugIsRemainder(pathname: string)
    requires StartsWith(pathname, "/blog/")
    ensures SlugOf(pathname) == pathname[6..]
    ensures "/blog/" + SlugOf(pathname) == pathname
  {
    assert pathname[0..6] == "/blog/";
    assert IndexOf(pathname, "/blog/") == Some(0);
  }

  /** `/blog/<slug>`, with any number of trailing slashes, routes back to `<slug>` when the slug has no trailing `/`. */
  lemma SlugRoundTrip(slug: string, slashes: nat)
    requires slug != [] && slug[|slug| - 1] != '/'
    ensures SlugOf(NormalizePathname("/blog/" + slug + Slashes(slashes))) == slug
  {
    var raw := "/blog/" + slug + Slashes(slashes);
    StripSlashes("/blog/" + slug, slashes);
    var p := NormalizePathname(raw);
    assert p == "/blog/" + slug;
    assert p[..6] == "/blog/";
    SlugIsRemainder(p);
    assert p[6..] == slug;
  }

  function Slashes(n: nat): (r: string)
    ensures |r| == n && forall k :: 0 <= k < n ==> r[k] == '/'
  {
    if n == 0 then [] else Slashes(n - 1) + "/"
  }

  lemma {:induction false} StripSlashes(p: string, n: nat)
    requires p != [] && p[|p| - 1] != '/'
    ensures StripTrailingSlashes(p + Slashes(n)) == p
  {
    if n == 0 {
      assert p + Slashes(0) == p;
    } else {
      var q := p + Slashes(n);
      assert q[|q| - 1] == '/';
      assert q[..|q| - 1] == p + Slashes(n - 1);
      StripSlashes(p, n - 1);
    }
  }

  /**
   * A raw pathname routes to a post slug exactly when it starts with `/blog/`
   * and has a character other than `/` after that prefix; every other path
   * (`/`, `/blog`, `/blog/`, `/blog//`, `/about`, ...) has the empty slug and
   * shows the index.
   */
  lemma IndexPaths(raw: string)
    ensures SlugOf(NormalizePathname(raw)) != "" <==>
      StartsWith(raw, "/blog/") && exists k :: 6 <= k < |raw| && raw[k] != '/'
  {
    var stripped := StripTrailingSlashes(raw);
    var p := NormalizePathname(raw);
    if SlugOf(p) != "" {
      assert StartsWith(p, "/blog/");
      assert p == stripped;
      assert p[5] == '/';
      var k := |p| - 1;
      assert raw[k] == p[k] != '/';
      assert raw[..6] == p[..6];
    }
    if StartsWith(raw, "/blog/") && exists k :: 6 <= k < |raw| && raw[k] != '/' {
      var k :| 6 <= k < |raw| && raw[k] != '/';
      assert k < |stripped|;
      assert stripped[..6] == raw[..6];
      assert p == stripped;
      SlugIsRemainder(p);
      assert p[6..] != [];
    }
  }

  /** `posts.find(p => p.slug === slug)`: the first post with that slug. */
  function FindPost(posts: seq<BlogPost>, slug: string): (r: Option<BlogPost>)
    ensures r.Some? ==> r.value.slug == slug
    ensures r.Some? ==> exists i :: 0 <= i < |posts| && posts[i] == r.value && forall j :: 0 <= j < i ==> posts[j].slug != slug
    ensures r.None? <==> forall p :: p in posts ==> p.slug != slug
  {
    if posts == [] then None
    else if posts[0].slug == slug then Some(posts[0])
    else
      var r := FindPost(posts[1..], slug);
      if r.Some? then
        var i :| 0 <= i < |posts| - 1 && posts[1..][i] == r.value && forall j :: 0 <= j < i ==> posts[1..][j].slug != slug;
        assert posts[i + 1] == r.value && forall j :: 0 <= j < i + 1 ==> posts[j].slug != slug by {
          forall j | 0 <= j < i + 1 ensures posts[j].slug != slug {
            if j > 0 { assert posts[j] == posts[1..][j - 1]; }
          }
        }
        r
      else r
  }

  // ---------------------------------------------------------------------------
  // The SEO branch
  // ---------------------------------------------------------------------------

  /** Which page the route shows. */
  datatype Page = IndexPage | NotFoundPage(pathname: string) | PostPage(post: BlogPost)

  function PageFor(rawPathname: string, posts: seq<BlogPost>): Page {
    var pathname := NormalizePathname(rawPathname);
    var slug := SlugOf(pathname);
    if slug == "" then IndexPage
    else match FindPost(posts, slug)
      case None => NotFoundPage(pathname)
      case Some(post) => PostPage(post)
  }

  const IndexDescription: string :=
    "Ghost Job Checker blog covering ghost jobs, job search strategy, and hiring signal analysis."

  /** The `applySeo` options of each page. */
  function PageSeoOptions(page: Page): SeoOptions {
    match page
    case IndexPage => SeoOptions("Blog", IndexDescription, Some("/blog"), None, None, None)
    case NotFoundPage(pathname) =>
      SeoOptions("Blog Post Not Found", "The requested blog post was not found.", Some(pathname), None, None, None)
    case PostPage(post) =>
      SeoOptions(post.title, post.description, Some("/blog/" + post.slug), Some(Article),
                 Some(post.publishedAt), post.updatedAt)
  }

  function PostLd(post: BlogPost): PostLdInput {
    PostLdInput(post.title, post.description, post.slug, post.publishedAt, post.updatedAt, post.author)
  }

  /** The head after the page's SEO effect has run. */
  function PageHead(nodes: seq<HeadNode>, page: Page, rawPathname: string, origin: string): seq<HeadNode> {
    var seo := ApplySeoNodes(nodes, PageSeoOptions(page), rawPathname, origin);
    match page
    case IndexPage => Upserted(seo, JsonLd("jsonld-blog"), Script(BlogIndexJsonLd(origin)))
    case NotFoundPage(_) => seo
    case PostPage(post) => Upserted(seo, JsonLd("jsonld-blogpost"), Script(BlogPostJsonLd(PostLd(post), origin)))
  }

  /**
   * The canonical URL is origin + `/blog` on the index and origin + the
   * normalised pathname on every other page: for a post, `/blog/` + its slug
   * is that pathname.
   */
  lemma PageCanonical(nodes: seq<HeadNode>, rawPathname: string, posts: seq<BlogPost>, origin: string)
    ensures var page := PageFor(rawPathname, posts);
      Find(PageHead(nodes, page, rawPathname, origin), Canonical) ==
        Some(Attr(origin + if page.IndexPage? then "/blog" else NormalizePathname(rawPathname)))
  {
    var page := PageFor(rawPathname, posts);
    var seo := ApplySeoNodes(nodes, PageSeoOptions(page), rawPathname, origin);
    ApplySeoLookups(nodes, PageSeoOptions(page), rawPathname, origin, Canonical);
    var pathname := NormalizePathname(rawPathname);
    if page.PostPage? {
      SlugIsRemainder(pathname);
      FindUpserted(seo, JsonLd("jsonld-blogpost"), Script(BlogPostJsonLd(PostLd(page.post), origin)), Canonical);
    } else if page.IndexPage? {
      FindUpserted(seo, JsonLd("jsonld-blog"), Script(BlogIndexJsonLd(origin)), Canonical);
    }
  }

  /**
   * Only the index writes the blog JSON-LD and only a found post writes the
   * post JSON-LD; a post page is typed "article" and carries its publish date.
   */
  lemma PageJsonLd(nodes: seq<HeadNode>, rawPathname: string, posts: seq<BlogPost>, origin: string)
    ensures var page := PageFor(rawPathname, posts);
      var head := PageHead(nodes, page, rawPathname, origin);
      (Find(head, JsonLd("jsonld-blog")) == if page.IndexPage? then Some(Script(BlogIndexJsonLd(origin))) else Find(nodes, JsonLd("jsonld-blog"))) &&
      (Find(head, JsonLd("jsonld-blogpost")) ==
        if page.PostPage? then Some(Script(BlogPostJsonLd(PostLd(page.post), origin))) else Find(nodes, JsonLd("jsonld-blogpost")))
    ensures var page := PageFor(rawPathname, posts);
      var head := PageHead(nodes, page, rawPathname, origin);
      page.PostPage? ==> Find(head, MetaProperty("og:type")) == Some(Attr("article"))
  {
    var page := PageFor(rawPathname, posts);
    var o := PageSeoOptions(page);
    var seo := ApplySeoNodes(nodes, o, rawPathname, origin);
    ApplySeoFind(nodes, o, rawPathname, origin, JsonLd("jsonld-blog"));
    ApplySeoFind(nodes, o, rawPathname, origin, JsonLd("jsonld-blogpost"));
    ApplySeoFind(nodes, o, rawPathname, origin, MetaProperty("og:type"));
    match page
    case IndexPage =>
      FindUpserted(seo, JsonLd("jsonld-blog"), Script(BlogIndexJsonLd(origin)), JsonLd("jsonld-blogpost"));
    case NotFoundPage(_) =>
    case PostPage(post) =>
      var v := Script(BlogPostJsonLd(PostLd(post), origin));
      FindUpserted(seo, JsonLd("jsonld-blogpost"), v, JsonLd("jsonld-blog"));
      FindUpserted(seo, JsonLd("jsonld-blogpost"), v, MetaProperty("og:type"));
  }

  /** The page's SEO effect on the document head. */
  method ApplyPageSeo(head: Head, rawPathname: string, origin: string, posts: seq<BlogPost>)
    modifies head
    ensures head.nodes == PageHead(old(head.nodes), PageFor(rawPathname, posts), rawPathname, origin)
    ensures head.title == FullTitle(PageSeoOptions(PageFor(rawPathname, posts)).title)
  {
    var pathname := NormalizePathname(rawPathname);
    var slug := SlugOf(pathname);
    var post := FindPost(posts, slug);
    if slug == "" {
      head.ApplySeo(SeoOptions("Blog", IndexDescription, Some("/blog"), None, None, None), rawPathname, origin);
      head.ApplyBlogIndexJsonLd(origin);
      return;
    }
    if post.None? {
      head.ApplySeo(SeoOptions("Blog Post Not Found", "The requested blog post was not found.", Some(pathname), None, None, None),
                    rawPathname, origin);
      return;
    }
    var p := post.value;
    head.ApplySeo(SeoOptions(p.title, p.description, Some("/blog/" + p.slug), Some(Article), Some(p.publishedAt), p.updatedAt),
                  rawPathname, origin);
    head.ApplyBlogPostJsonLd(PostLdInput(p.title, p.description, p.slug, p.publishedAt, p.updatedAt, p.author), origin);
  }
}
