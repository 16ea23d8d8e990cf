/**
 * The document head as the SEO helpers (src/seo.ts) see it: a table of nodes
 * keyed by kind and key (a `<meta name>`, a `<meta property>`, the canonical
 * `<link>`, a JSON-LD `<script>` by id), kept in document order, plus
 * `document.title`. Every `upsert*` finds the first node with its key (as
 * `querySelector` / `getElementById` do) and sets its value, or appends a new
 * node when there is none.
 *
 * `window.location.pathname` and `window.location.origin` are parameters.
 */
module Seo {
  import opened Wrappers
  import opened BlogTypes

  const SiteName: string := "Ghost Job Checker"

  datatype HeadKey =
    | MetaName(name: string)           // meta[name="…"]
    | MetaProperty(property: string)   // meta[property="…"]
    | Canonical                        // link[rel="canonical"]
    | JsonLd(id: string)               // the element with that id

  /** The JSON data of a JSON-LD script (before `JSON.stringify`). */
  datatype Json = JString(s: string) | JObject(fields: seq<(string, Json)>)

  /** A node's value: the `content`/`href` attribute, or a script's JSON data. */
  datatype NodeValue = Attr(text: string) | Script(data: Json)

  datatype HeadNode = HeadNode(key: HeadKey, value: NodeValue)

  /** The value of the first node with `key`, as `querySelector` finds it. */
  function Find(nodes: seq<HeadNode>, key: HeadKey): Option<NodeValue> {
    if nodes == [] then None
    else if nodes[0].key == key then Some(nodes[0].value)
    else Find(nodes[1..], key)
  }

  /** The find-or-create-then-set update: the specification of every `upsert*`. */
  function Upserted(nodes: seq<HeadNode>, key: HeadKey, v: NodeValue): seq<HeadNode> {
    if nodes == [] then [HeadNode(key, v)]
    else if nodes[0].key == key then [HeadNode(key, v)] + nodes[1..]
    else [nodes[0]] + Upserted(nodes[1..], key, v)
  }

  /** How many nodes carry `key`. */
  function CountKey(nodes: seq<HeadNode>, key: HeadKey): nat {
    if nodes == [] then 0 else (if nodes[0].key == key then 1 else 0) + CountKey(nodes[1..], key)
  }

  /** The nodes with `key`, in document order. */
  function NodesWith(nodes: seq<HeadNode>, key: HeadKey): seq<HeadNode> {
    if nodes == [] then [] else (if nodes[0].key == key then [nodes[0]] else []) + NodesWith(nodes[1..], key)
  }

  /** No two nodes share a key. */
  predicate DistinctKeys(nodes: seq<HeadNode>) {
    forall i, j :: 0 <= i < j < |nodes| ==> nodes[i].key != nodes[j].key
  }

  /** After an upsert the key reads back the new value; every other key reads as before. */
  lemma {:induction false} FindUpserted(nodes: seq<HeadNode>, key: HeadKey, v: NodeValue, other: HeadKey)
    ensures Find(Upserted(nodes, key, v), key) == Some(v)
    ensures other != key ==> Find(Upserted(nodes, key, v), other) == Find(nodes, other)
  {
    if nodes != [] && nodes[0].key != key {
      FindUpserted(nodes[1..], key, v, other);
    }
  }

  /** An upsert leaves every node of every other key as it was, in the same order. */
  lemma {:induction false} UpsertedKeepsOthers(nodes: seq<HeadNode>, key: HeadKey, v: NodeValue, other: HeadKey)
    requires other != key
    ensures NodesWith(Upserted(nodes, key, v), other) == NodesWith(nodes, other)
  {
    if nodes == [] {
      assert Upserted(nodes, key, v) == [HeadNode(key, v)];
      assert NodesWith([HeadNode(key, v)], other) == [] + NodesWith([], other);
    } else if nodes[0].key == key {
      var r := Upserted(nodes, key, v);
      assert r[0].key == key && r[1..] == nodes[1..];
    } else {
      var r := Upserted(nodes, key, v);
      assert r[0] == nodes[0] && r[1..] == Upserted(nodes[1..], key, v);
      UpsertedKeepsOthers(nodes[1..], key, v, other);
    }
  }

  /**
   * An upsert creates a node for its key only when there is none, so the key
   * has exactly one node afterwards whenever it had at most one before.
   */
  lemma {:induction false} UpsertedCount(nodes: seq<HeadNode>, key: HeadKey, v: NodeValue)
    ensures CountKey(Upserted(nodes, key, v), key) == if CountKey(nodes, key) == 0 then 1 else CountKey(nodes, key)
  {
    if nodes == [] {
      assert Upserted(nodes, key, v) == [HeadNode(key, v)];
      assert CountKey([HeadNode(key, v)], key) == 1 + CountKey([], key);
    } else if nodes[0].key == key {
      var r := Upserted(nodes, key, v);
      assert r[0].key == key && r[1..] == nodes[1..];
    } else {
      var r := Upserted(nodes, key, v);
      assert r[0] == nodes[0] && r[1..] == Upserted(nodes[1..], key, v);
      UpsertedCount(nodes[1..], key, v);
    }
  }

  /** Upserting twice is the same as upserting once. */
  lemma {:induction false} UpsertedIdempotent(nodes: seq<HeadNode>, key: HeadKey, v: NodeValue)
    ensures Upserted(Upserted(nodes, key, v), key, v) == Upserted(nodes, key, v)
  {
    if nodes != [] && nodes[0].key != key {
      var r := Upserted(nodes, key, v);
      assert r[0] == nodes[0] && r[1..] == Upserted(nodes[1..], key, v);
      UpsertedIdempotent(nodes[1..], key, v);
    }
  }

  /** A head without duplicate keys keeps that property. */
  lemma {:induction false} UpsertedKeepsDistinct(nodes: seq<HeadNode>, key: HeadKey, v: NodeValue)
    requires DistinctKeys(nodes)
    ensures DistinctKeys(Upserted(nodes, key, v))
  {
    var r := Upserted(nodes, key, v);
    UpsertedCount(nodes, key, v);
    forall other | other != key ensures NodesWith(r, other) == NodesWith(nodes, other) {
      UpsertedKeepsOthers(nodes, key, v, other);
    }
    forall i, j | 0 <= i < j < |r| ensures r[i].key != r[j].key {
      if r[i].key == r[j].key {
        TwoNodesCount(r, i, j);
        if r[i].key == key {
          AtMostOneCount(nodes, key);
        } else {
          NodesWithCount(r, r[i].key);
          NodesWithCount(nodes, r[i].key);
          AtMostOneCount(nodes, r[i].key);
        }
      }
    }
  }

  lemma {:induction false} NodesWithCount(nodes: seq<HeadNode>, key: HeadKey)
    ensures |NodesWith(nodes, key)| == CountKey(nodes, key)
  {
    if nodes != [] {
      NodesWithCount(nodes[1..], key);
    }
  }

  /** Two nodes with the same key make a count of at least two. */
  lemma {:induction false} TwoNodesCount(nodes: seq<HeadNode>, i: nat, j: nat)
    requires i < j < |nodes| && nodes[i].key == nodes[j].key
    ensures CountKey(nodes, nodes[i].key) >= 2
  {
    var key := nodes[i].key;
    if i == 0 {
      KeyCountsOnce(nodes[1..], j - 1);
    } else {
      TwoNodesCount(nodes[1..], i - 1, j - 1);
    }
  }

  lemma {:induction false} KeyCountsOnce(nodes: seq<HeadNode>, j: nat)
    requires j < |nodes|
    ensures CountKey(nodes, nodes[j].key) >= 1
  {
    if j > 0 {
      KeyCountsOnce(nodes[1..], j - 1);
    }
  }

  /** In a head without duplicates every key has at most one node. */
  lemma {:induction false} AtMostOneCount(nodes: seq<HeadNode>, key: HeadKey)
    requires DistinctKeys(nodes)
    ensures CountKey(nodes, key) <= 1
  {
    if nodes != [] {
      AtMostOneCount(nodes[1..], key);
      if nodes[0].key == key {
        forall i | 0 <= i < |nodes[1..]| ensures nodes[1..][i].key != key {
          assert nodes[1..][i] == nodes[i + 1];
        }
        NoNodeWith(nodes[1..], key);
      }
    }
  }

  lemma {:induction false} NoNodeWith(nodes: seq<HeadNode>, key: HeadKey)
    requires forall i :: 0 <= i < |nodes| ==> nodes[i].key != key
    ensures CountKey(nodes, key) == 0
  {
    if nodes != [] {
      NoNodeWith(nodes[1..], key);
    }
  }

  /**
   * `Upserted` sets the first node with the key, or appends one: the shape of
   * the find-or-create code.
   */
  lemma {:induction false} UpsertedAtFirstMatch(nodes: seq<HeadNode>, key: HeadKey, v: NodeValue, i: nat)
    requires i <= |nodes| && (i < |nodes| ==> nodes[i].key == key)
    requires forall j :: 0 <= j < i ==> nodes[j].key != key
    ensures Upserted(nodes, key, v) == if i < |nodes| then nodes[i := HeadNode(key, v)] else nodes + [HeadNode(key, v)]
  {
    if nodes != [] && i > 0 {
      UpsertedAtFirstMatch(nodes[1..], key, v, i - 1);
      if i < |nodes| {
        assert nodes[i := HeadNode(key, v)] == [nodes[0]] + nodes[1..][i - 1 := HeadNode(key, v)];
      } else {
        assert nodes + [HeadNode(key, v)] == [nodes[0]] + (nodes[1..] + [HeadNode(key, v)]);
      }
    }
  }

  // ---------------------------------------------------------------------------
  // What applySeo writes
  // ---------------------------------------------------------------------------

  datatype OgType = Website | Article

  function OgTypeName(t: OgType): string {
    match t
    case Website => "website"
    case Article => "article"
  }

  /** The options of `applySeo`; the optional ones are `None` when not passed. */
  datatype SeoOptions = SeoOptions(
    title: string,
    description: string,
    path: Option<string>,
    ogType: Option<OgType>,
    publishedTime: Option<string>,
    modifiedTime: Option<string>)

  /** A JavaScript string is truthy when it is not empty. */
  predicate Truthy(f: Option<string>) {
    f.Some? && f.value != ""
  }

  /** `${title} | Ghost Job Checker`. */
  function FullTitle(title: string): string {
    title + " | " + SiteName
  }

  /** `${origin}${path}`, the path defaulting to the current pathname. */
  function CanonicalUrl(o: SeoOptions, pathname: string, origin: string): string {
    origin + o.path.GetOr(pathname)
  }

  /** The article-time meta tags are upserted only when their option is truthy. */
  function UpsertIfGiven(nodes: seq<HeadNode>, property: string, f: Option<string>): seq<HeadNode> {
    if Truthy(f) then Upserted(nodes, MetaProperty(property), Attr(f.value)) else nodes
  }

  /** The first six upserts of `applySeo`: the description, the canonical link and the page's Open Graph tags. */
  function PageNodes(nodes: seq<HeadNode>, o: SeoOptions, pathname: string, origin: string): seq<HeadNode> {
    var canonical := CanonicalUrl(o, pathname, origin);
    var n1 := Upserted(nodes, MetaName("description"), Attr(o.description));
    var n2 := Upserted(n1, Canonical, Attr(canonical));
    var n3 := Upserted(n2, MetaProperty("og:title"), Attr(FullTitle(o.title)));
    var n4 := Upserted(n3, MetaProperty("og:description"), Attr(o.description));
    var n5 := Upserted(n4, MetaProperty("og:type"), Attr(OgTypeName(o.ogType.GetOr(Website))));
    Upserted(n5, MetaProperty("og:url"), Attr(canonical))
  }

  /** The last six: the site name, the Twitter card tags and the article times. */
  function ShareNodes(nodes: seq<HeadNode>, o: SeoOptions): seq<HeadNode> {
    var n7 := Upserted(nodes, MetaProperty("og:site_name"), Attr(SiteName));
    var n8 := Upserted(n7, MetaName("twitter:card"), Attr("summary_large_image"));
    var n9 := Upserted(n8, MetaName("twitter:title"), Attr(FullTitle(o.title)));
    var n10 := Upserted(n9, MetaName("twitter:description"), Attr(o.description));
    var n11 := UpsertIfGiven(n10, "article:published_time", o.publishedTime);
    UpsertIfGiven(n11, "article:modified_time", o.modifiedTime)
  }

  /** The head after `applySeo`: its upserts, in the order the code makes them. */
  function ApplySeoNodes(nodes: seq<HeadNode>, o: SeoOptions, pathname: string, origin: string): seq<HeadNode> {
    ShareNodes(PageNodes(nodes, o, pathname, origin), o)
  }

  /** The keys `applySeo` may write. */
  predicate IsSeoKey(k: HeadKey) {
    k in {MetaName("description"), Canonical, MetaProperty("og:title"), MetaProperty("og:description"),
          MetaProperty("og:type"), MetaProperty("og:url"), MetaProperty("og:site_name"),
          MetaName("twitter:card"), MetaName("twitter:title"), MetaName("twitter:description"),
          MetaProperty("article:published_time"), MetaProperty("article:modified_time")}
  }

  /**
   * The value `applySeo` writes to `key`, or `None` when it does not write it:
   * a table independent of the order of the upserts.
   */
  function SeoValue(o: SeoOptions, pathname: string, origin: string, key: HeadKey): Option<NodeValue> {
    match key
    case MetaName(name) =>
      if name == "description" || name == "twitter:description" then Some(Attr(o.description))
      else if name == "twitter:title" then Some(Attr(FullTitle(o.title)))
      else if name == "twitter:card" then Some(Attr("summary_large_image"))
      else None
    case MetaProperty(property) =>
      if property == "og:title" then Some(Attr(FullTitle(o.title)))
      else if property == "og:description" then Some(Attr(o.description))
      else if property == "og:type" then Some(Attr(OgTypeName(o.ogType.GetOr(Website))))
      else if property == "og:url" then Some(Attr(CanonicalUrl(o, pathname, origin)))
      else if property == "og:site_name" then Some(Attr(SiteName))
      else if property == "article:published_time" && Truthy(o.publishedTime) then Some(Attr(o.publishedTime.value))
      else if property == "article:modified_time" && Truthy(o.modifiedTime) then Some(Attr(o.modifiedTime.value))
      else None
    case Canonical => Some(Attr(CanonicalUrl(o, pathname, origin)))
    case JsonLd(_) => None
  }

  /** What `PageNodes` writes to `key`, or `None`. */
  function PageValue(o: SeoOptions, pathname: string, origin: string, key: HeadKey): Option<NodeValue> {
    match key
    case MetaName(name) => if name == "description" then Some(Attr(o.description)) else None
    case MetaProperty(property) =>
      if property == "og:title" then Some(Attr(FullTitle(o.title)))
      else if property == "og:description" then Some(Attr(o.description))
      else if property == "og:type" then Some(Attr(OgTypeName(o.ogType.GetOr(Website))))
      else if property == "og:url" then Some(Attr(CanonicalUrl(o, pathname, origin)))
      else None
    case Canonical => Some(Attr(CanonicalUrl(o, pathname, origin)))
    case JsonLd(_) => None
  }

  /** What `ShareNodes` writes to `key`, or `None`. */
  function ShareValue(o: SeoOptions, key: HeadKey): Option<NodeValue> {
    match key
    case MetaName(name) =>
      if name == "twitter:description" then Some(Attr(o.description))
      else if name == "twitter:title" then Some(Attr(FullTitle(o.title)))
      else if name == "twitter:card" then Some(Attr("summary_large_image"))
      else None
    case MetaProperty(property) =>
      if property == "og:site_name" then Some(Attr(SiteName))
      else if property == "article:published_time" && Truthy(o.publishedTime) then Some(Attr(o.publishedTime.value))
      else if property == "article:modified_time" && Truthy(o.modifiedTime) then Some(Attr(o.modifiedTime.value))
      else None
    case Canonical => None
    case JsonLd(_) => None
  }

  lemma PageNodesFind(nodes: seq<HeadNode>, o: SeoOptions, pathname: string, origin: string, k: HeadKey)
    ensures Find(PageNodes(nodes, o, pathname, origin), k) ==
      if PageValue(o, pathname, origin, k).Some? then PageValue(o, pathname, origin, k) else Find(nodes, k)
  {
    var canonical := CanonicalUrl(o, pathname, origin);
    var n1 := Upserted(nodes, MetaName("description"), Attr(o.description));
    FindUpserted(nodes, MetaName("description"), Attr(o.description), k);
    var n2 := Upserted(n1, Canonical, Attr(canonical));
    FindUpserted(n1, Canonical, Attr(canonical), k);
    var n3 := Upserted(n2, MetaProperty("og:title"), Attr(FullTitle(o.title)));
    FindUpserted(n2, MetaProperty("og:title"), Attr(FullTitle(o.title)), k);
    var n4 := Upserted(n3, MetaProperty("og:description"), Attr(o.description));
    FindUpserted(n3, MetaProperty("og:description"), Attr(o.description), k);
    var n5 := Upserted(n4, MetaProperty("og:type"), Attr(OgTypeName(o.ogType.GetOr(Website))));
    FindUpserted(n4, MetaProperty("og:type"), Attr(OgTypeName(o.ogType.GetOr(Website))), k);
    FindUpserted(n5, MetaProperty("og:url"), Attr(canonical), k);
  }

  lemma ShareNodesFind(nodes: seq<HeadNode>, o: SeoOptions, k: HeadKey)
    ensures Find(ShareNodes(nodes, o), k) == if ShareValue(o, k).Some? then ShareValue(o, k) else Find(nodes, k)
  {
    var n7 := Upserted(nodes, MetaProperty("og:site_name"), Attr(SiteName));
    FindUpserted(nodes, MetaProperty("og:site_name"), Attr(SiteName), k);
    var n8 := Upserted(n7, MetaName("twitter:card"), Attr("summary_large_image"));
    FindUpserted(n7, MetaName("twitter:card"), Attr("summary_large_image"), k);
    var n9 := Upserted(n8, MetaName("twitter:title"), Attr(FullTitle(o.title)));
    FindUpserted(n8, MetaName("twitter:title"), Attr(FullTitle(o.title)), k);
    var n10 := Upserted(n9, MetaName("twitter:description"), Attr(o.description));
    FindUpserted(n9, MetaName("twitter:description"), Attr(o.description), k);
    var n11 := UpsertIfGiven(n10, "article:published_time", o.publishedTime);
    if Truthy(o.publishedTime) {
      FindUpserted(n10, MetaProperty("article:published_time"), Attr(o.publishedTime.value), k);
    }
    if Truthy(o.modifiedTime) {
      FindUpserted(n11, MetaProperty("article:modified_time"), Attr(o.modifiedTime.value), k);
    }
  }

  /** The two halves write disjoint keys, and together they write what the table says. */
  lemma SeoValueSplit(o: SeoOptions, pathname: string, origin: string, k: HeadKey)
    ensures PageValue(o, pathname, origin, k).None? || ShareValue(o, k).None?
    ensures SeoValue(o, pathname, origin, k) ==
      if ShareValue(o, k).Some? then ShareValue(o, k) else PageValue(o, pathname, origin, k)
  {
  }

  /** After `applySeo` every key reads as the table says, or as before when the table has no entry. */
  lemma ApplySeoFind(nodes: seq<HeadNode>, o: SeoOptions, pathname: string, origin: string, k: HeadKey)
    ensures Find(ApplySeoNodes(nodes, o, pathname, origin), k) ==
      if SeoValue(o, pathname, origin, k).Some? then SeoValue(o, pathname, origin, k) else Find(nodes, k)
  {
    PageNodesFind(nodes, o, pathname, origin, k);
    ShareNodesFind(PageNodes(nodes, o, pathname, origin), o, k);
    SeoValueSplit(o, pathname, origin, k);
  }

  /**
   * The og and twitter titles carry the full title, the canonical link and
   * `og:url` both hold origin + path, `og:type` defaults to "website", the
   * article times are written only when given (otherwise they read as
   * before), and no other key changes.
   */
  lemma ApplySeoLookups(nodes: seq<HeadNode>, o: SeoOptions, pathname: string, origin: string, other: HeadKey)
    ensures var r := ApplySeoNodes(nodes, o, pathname, origin);
      Find(r, MetaProperty("og:title")) == Some(Attr(FullTitle(o.title))) &&
      Find(r, MetaName("twitter:title")) == Some(Attr(FullTitle(o.title))) &&
      Find(r, MetaName("description")) == Some(Attr(o.description)) &&
      Find(r, Canonical) == Some(Attr(origin + o.path.GetOr(pathname))) &&
      Find(r, MetaProperty("og:url")) == Find(r, Canonical) &&
      (o.ogType.None? ==> Find(r, MetaProperty("og:type")) == Some(Attr("website")))
    ensures var r := ApplySeoNodes(nodes, o, pathname, origin);
      var k := MetaProperty("article:published_time");
      Find(r, k) == if Truthy(o.publishedTime) then Some(Attr(o.publishedTime.value)) else Find(nodes, k)
    ensures var r := ApplySeoNodes(nodes, o, pathname, origin);
      var k := MetaProperty("article:modified_time");
      Find(r, k) == if Truthy(o.modifiedTime) then Some(Attr(o.modifiedTime.value)) else Find(nodes, k)
    ensures !IsSeoKey(other) ==> Find(ApplySeoNodes(nodes, o, pathname, origin), other) == Find(nodes, other)
  {
    ApplySeoFind(nodes, o, pathname, origin, MetaProperty("og:title"));
    ApplySeoFind(nodes, o, pathname, origin, MetaName("twitter:title"));
    ApplySeoFind(nodes, o, pathname, origin, MetaName("description"));
    ApplySeoFind(nodes, o, pathname, origin, Canonical);
    ApplySeoFind(nodes, o, pathname, origin, MetaProperty("og:url"));
    ApplySeoFind(nodes, o, pathname, origin, MetaProperty("og:type"));
    ApplySeoFind(nodes, o, pathname, origin, MetaProperty("article:published_time"));
    ApplySeoFind(nodes, o, pathname, origin, MetaProperty("article:modified_time"));
    ApplySeoFind(nodes, o, pathname, origin, other);
  }

  /** `applySeo` never introduces a duplicate node into a head that had none. */
  lemma ApplySeoKeepsDistinct(nodes: seq<HeadNode>, o: SeoOptions, pathname: string, origin: string)
    requires DistinctKeys(nodes)
    ensures DistinctKeys(ApplySeoNodes(nodes, o, pathname, origin))
  {
    var canonical := CanonicalUrl(o, pathname, origin);
    var n1 := Upserted(nodes, MetaName("description"), Attr(o.description));
    UpsertedKeepsDistinct(nodes, MetaName("description"), Attr(o.description));
    var n2 := Upserted(n1, Canonical, Attr(canonical));
    UpsertedKeepsDistinct(n1, Canonical, Attr(canonical));
    var n3 := Upserted(n2, MetaProperty("og:title"), Attr(FullTitle(o.title)));
    UpsertedKeepsDistinct(n2, MetaProperty("og:title"), Attr(FullTitle(o.title)));
    var n4 := Upserted(n3, MetaProperty("og:description"), Attr(o.description));
    UpsertedKeepsDistinct(n3, MetaProperty("og:description"), Attr(o.description));
    var n5 := Upserted(n4, MetaProperty("og:type"), Attr(OgTypeName(o.ogType.GetOr(Website))));
    UpsertedKeepsDistinct(n4, MetaProperty("og:type"), Attr(OgTypeName(o.ogType.GetOr(Website))));
    var n6 := Upserted(n5, MetaProperty("og:url"), Attr(canonical));
    UpsertedKeepsDistinct(n5, MetaProperty("og:url"), Attr(canonical));
    assert n6 == PageNodes(nodes, o, pathname, origin);
    var n7 := Upserted(n6, MetaProperty("og:site_name"), Attr(SiteName));
    UpsertedKeepsDistinct(n6, MetaProperty("og:site_name"), Attr(SiteName));
    var n8 := Upserted(n7, MetaName("twitter:card"), Attr("summary_large_image"));
    UpsertedKeepsDistinct(n7, MetaName("twitter:card"), Attr("summary_large_image"));
    var n9 := Upserted(n8, MetaName("twitter:title"), Attr(FullTitle(o.title)));
    UpsertedKeepsDistinct(n8, MetaName("twitter:title"), Attr(FullTitle(o.title)));
    var n10 := Upserted(n9, MetaName("twitter:description"), Attr(o.description));
    UpsertedKeepsDistinct(n9, MetaName("twitter:description"), Attr(o.description));
    var n11 := UpsertIfGiven(n10, "article:published_time", o.publishedTime);
    if Truthy(o.publishedTime) {
      UpsertedKeepsDistinct(n10, MetaProperty("article:published_time"), Attr(o.publishedTime.value));
    }
    if Truthy(o.modifiedTime) {
      UpsertedKeepsDistinct(n11, MetaProperty("article:modified_time"), Attr(o.modifiedTime.value));
    }
  }

  // ---------------------------------------------------------------------------
  // JSON-LD
  // ---------------------------------------------------------------------------

  /** The value of the first field named `name` of an object. */
  function Get(j: Json, name: string): Option<Json> {
    match j
    case JString(_) => None
    case JObject(fields) => GetField(fields, name)
  }

  function GetField(fields: seq<(string, Json)>, name: string): Option<Json> {
    if fields == [] then None
    else if fields[0].0 == name then Some(fields[0].1)
    else GetField(fields[1..], name)
  }

  /** The first field with a name is the one found. */
  lemma {:induction false} GetFieldAt(fields: seq<(string, Json)>, name: string, i: nat)
    requires i < |fields| && fields[i].0 == name
    requires forall j :: 0 <= j < i ==> fields[j].0 != name
    ensures GetField(fields, name) == Some(fields[i].1)
  {
    if i > 0 {
      GetFieldAt(fields[1..], name, i - 1);
    }
  }

  function Publisher(): Json {
    JObject([("@type", JString("Organization")), ("name", JString(SiteName))])
  }

  /** The `Blog` object of the blog index. */
  function BlogIndexJsonLd(origin: string): Json {
    JObject([
      ("@context", JString("https://schema.org")),
      ("@type", JString("Blog")),
      ("name", JString("Ghost Job Checker Blog")),
      ("url", JString(origin + "/blog")),
      ("publisher", Publisher())])
  }

  /** The input of `applyBlogPostJsonLd`. */
  datatype PostLdInput = PostLdInput(
    title: string, description: string, slug: string, publishedAt: string,
    updatedAt: Option<string>, author: BlogAuthor)

  function AuthorTypeName(t: AuthorType): string {
    match t
    case Person => "Person"
    case Organization => "Organization"
  }

  /** The `BlogPosting` object of a post page. */
  function BlogPostJsonLd(input: PostLdInput, origin: string): Json {
    JObject([
      ("@context", JString("https://schema.org")),
      ("@type", JString("BlogPosting")),
      ("headline", JString(input.title)),
      ("description", JString(input.description)),
      ("datePublished", JString(input.publishedAt)),
      ("dateModified", JString(if Truthy(input.updatedAt) then input.updatedAt.value else input.publishedAt)),
      ("author", JObject([
        ("@type", JString(AuthorTypeName(input.author.kind.GetOr(Organization)))),
        ("name", JString(input.author.name))])),
      ("publisher", Publisher()),
      ("mainEntityOfPage", JString(origin + "/blog/" + input.slug))])
  }

  /**
   * A post's `dateModified` is its update date, else its publish date; the
   * author's `@type` defaults to Organization; the page it describes is
   * origin/blog/slug.
   */
  lemma BlogPostJsonLdFields(input: PostLdInput, origin: string)
    ensures var ld := BlogPostJsonLd(input, origin);
      Get(ld, "dateModified") ==
        Some(JString(if input.updatedAt.Some? && input.updatedAt.value != "" then input.updatedAt.value else input.publishedAt))
    ensures var ld := BlogPostJsonLd(input, origin);
      Get(ld, "author").Some? &&
      Get(Get(ld, "author").value, "@type") ==
        Some(JString(if input.author.kind == Some(Person) then "Person" else "Organization"))
    ensures Get(BlogPostJsonLd(input, origin), "mainEntityOfPage") == Some(JString(origin + "/blog/" + input.slug))
    ensures Get(BlogPostJsonLd(input, origin), "datePublished") == Some(JString(input.publishedAt))
  {
    var fields := BlogPostJsonLd(input, origin).fields;
    GetFieldAt(fields, "datePublished", 4);
    GetFieldAt(fields, "dateModified", 5);
    GetFieldAt(fields, "author", 6);
    GetFieldAt(fields[6].1.fields, "@type", 0);
    GetFieldAt(fields, "mainEntityOfPage", 8);
  }

  // ---------------------------------------------------------------------------
  // The document head
  // ---------------------------------------------------------------------------

  class Head {
    var title: string
    var nodes: seq<HeadNode>

    /** The head as the page was loaded. */
    constructor(title: string, nodes: seq<HeadNode>)
      ensures this.title == title && this.nodes == nodes
    {
      this.title := title;
      this.nodes := nodes;
    }

    /** What a selector for `key` finds. */
    function Lookup(key: HeadKey): Option<NodeValue>
      reads this
    {
      Find(nodes, key)
    }

    /** `querySelector`: the index of the first node with `key`, or `|nodes|` when there is none. */
    method FindNode(key: HeadKey) returns (i: nat)
      ensures i <= |nodes|
      ensures i < |nodes| ==> nodes[i].key == key
      ensures forall j :: 0 <= j < i ==> nodes[j].key != key
    {
      i := 0;
      while i < |nodes| && nodes[i].key != key
        invariant i <= |nodes|
        invariant forall j :: 0 <= j < i ==> nodes[j].key != key
      {
        i := i + 1;
      }
    }

    /** Find or create the node for `key`, then set its value. */
    method Upsert(key: HeadKey, v: NodeValue)
      modifies this
      ensures nodes == Upserted(old(nodes), key, v)
      ensures title == old(title)
    {
      var i := FindNode(key);
      UpsertedAtFirstMatch(nodes, key, v, i);
      if i < |nodes| {
        nodes := nodes[i := HeadNode(key, v)];
      } else {
        nodes := nodes + [HeadNode(key, v)];
      }
    }

    method UpsertMetaByName(name: string, content: string)
      modifies this
      ensures nodes == Upserted(old(nodes), MetaName(name), Attr(content))
      ensures title == old(title)
    {
      Upsert(MetaName(name), Attr(content));
    }

    method UpsertMetaByProperty(property: string, content: string)
      modifies this
      ensures nodes == Upserted(old(nodes), MetaProperty(property), Attr(content))
      ensures title == old(title)
    {
      Upsert(MetaProperty(property), Attr(content));
    }

    method UpsertCanonical(url: string)
      modifies this
      ensures nodes == Upserted(old(nodes), Canonical, Attr(url))
      ensures title == old(title)
    {
      Upsert(Canonical, Attr(url));
    }

    method UpsertJsonLd(id: string, data: Json)
      modifies this
      ensures nodes == Upserted(old(nodes), JsonLd(id), Script(data))
      ensures title == old(title)
    {
      Upsert(JsonLd(id), Script(data));
    }

    /** `applySeo`: sets the document title and upserts the description, canonical, Open Graph, Twitter and article-time tags. */
    method ApplySeo(o: SeoOptions, pathname: string, origin: string)
      modifies this
      ensures title == FullTitle(o.title)
      ensures nodes == ApplySeoNodes(old(nodes), o, pathname, origin)
      ensures Lookup(MetaProperty("og:title")) == Some(Attr(title))
      ensures Lookup(MetaName("twitter:title")) == Some(Attr(title))
      ensures Lookup(Canonical) == Some(Attr(CanonicalUrl(o, pathname, origin)))
      ensures Lookup(MetaProperty("og:url")) == Lookup(Canonical)
      ensures !Truthy(o.publishedTime) ==>
        Lookup(MetaProperty("article:published_time")) == old(Lookup(MetaProperty("article:published_time")))
      ensures !Truthy(o.modifiedTime) ==>
        Lookup(MetaProperty("article:modified_time")) == old(Lookup(MetaProperty("article:modified_time")))
      ensures forall k :: !IsSeoKey(k) ==> Lookup(k) == old(Lookup(k))
    {
      var path := o.path.GetOr(pathname);
      var ogType := o.ogType.GetOr(Website);
      var canonical := origin + path;
      var fullTitle := FullTitle(o.title);

      title := fullTitle;
      UpsertMetaByName("description", o.description);
      UpsertCanonical(canonical);

      UpsertMetaByProperty("og:title", fullTitle);
      UpsertMetaByProperty("og:description", o.description);
      UpsertMetaByProperty("og:type", OgTypeName(ogType));
      UpsertMetaByProperty("og:url", canonical);
      UpsertMetaByProperty("og:site_name", SiteName);

      UpsertMetaByName("twitter:card", "summary_large_image");
      UpsertMetaByName("twitter:title", fullTitle);
      UpsertMetaByName("twitter:description", o.description);

      if o.publishedTime.Some? && o.publishedTime.value != "" {
        UpsertMetaByProperty("article:published_time", o.publishedTime.value);
      }
      if o.modifiedTime.Some? && o.modifiedTime.value != "" {
        UpsertMetaByProperty("article:modified_time", o.modifiedTime.value);
      }
      ApplySeoLookups(old(nodes), o, pathname, origin, Canonical);
      forall k | !IsSeoKey(k) ensures Lookup(k) == old(Lookup(k)) {
        ApplySeoLookups(old(nodes), o, pathname, origin, k);
      }
    }

    /** `applyBlogIndexJsonLd`. */
    method ApplyBlogIndexJsonLd(origin: string)
      modifies this
      ensures nodes == Upserted(old(nodes), JsonLd("jsonld-blog"), Script(BlogIndexJsonLd(origin)))
      ensures title == old(title)
      ensures Lookup(JsonLd("jsonld-blog")) == Some(Script(BlogIndexJsonLd(origin)))
    {
      UpsertJsonLd("jsonld-blog", BlogIndexJsonLd(origin));
      FindUpserted(old(nodes), JsonLd("jsonld-blog"), Script(BlogIndexJsonLd(origin)), Canonical);
    }

    /** `applyBlogPostJsonLd`. */
    method ApplyBlogPostJsonLd(input: PostLdInput, origin: string)
      modifies this
      ensures nodes == Upserted(old(nodes), JsonLd("jsonld-blogpost"), Script(BlogPostJsonLd(input, origin)))
      ensures title == old(title)
      ensures Lookup(JsonLd("jsonld-blogpost")) == Some(Script(BlogPostJsonLd(input, origin)))
    {
      UpsertJsonLd("jsonld-blogpost", BlogPostJsonLd(input, origin));
      FindUpserted(old(nodes), JsonLd("jsonld-blogpost"), Script(BlogPostJsonLd(input, origin)), Canonical);
    }
  }
}
