/**
 * The string and set logic of the catalog crawler (src/crawl_catalog.py):
 * `<loc>` extraction from sitemaps, the URL keep/drop filters, the fix-up of
 * relative links, the K/P type hint, the shaping of one extracted record and
 * the assembly of the catalog table. Every fetch is an input: a map from a
 * URL to what fetching it returned, a missing key standing for a failed
 * request.
 */
module CrawlCatalog {
  import opened Wrappers
  import opened Text

  const Root: string := "https://www.shl.com"

  const SitemapIndexes: seq<string> := [
    "https://www.shl.com/sitemap_index.xml",
    "https://www.shl.com/sitemap.xml"
  ]

  const CatalogSeeds: seq<string> := [
    "https://www.shl.com/solutions/products/product-catalog/",
    "https://www.shl.com/products/product-catalog/"
  ]

  // ---------------------------------------------------------------------
  // parse_xml_urls: re.findall(r"<loc>(.*?)</loc>", text, flags=re.I)

  const Open: string := "<loc>"
  const Close: string := "</loc>"

  /** `tag` matches `s` at position `i`, ignoring case. */
  predicate TagAt(s: string, i: int, tag: string) {
    0 <= i && i + |tag| <= |s| && Lower(s[i..i + |tag|]) == tag
  }

  /**
   * The non-greedy `(.*?)</loc>`: the length of the shortest run at the
   * start of `t` that is followed by `</loc>` and holds no newline.
   */
  function CloseFrom(t: string): (r: Option<nat>)
    ensures r.Some? ==> TagAt(t, r.value, Close)
    ensures r.Some? ==> forall k :: 0 <= k < r.value ==> t[k] != '\n' && !TagAt(t, k, Close)
    ensures r.None? ==> forall k :: TagAt(t, k, Close) ==> exists j :: 0 <= j < k && t[j] == '\n'
    decreases |t|
  {
    if |t| < |Close| then None
    else if TagAt(t, 0, Close) then Some(0)
    else if t[0] == '\n' then None
    else match CloseFrom(t[1..])
      case None =>
        TagAtTail(t, Close);
        None
      case Some(k) =>
        TagAtTail(t, Close);
        Some(k + 1)
  }

  /** Dropping the first character shifts every later match one to the left. */
  lemma TagAtTail(t: string, tag: string)
    requires |t| >= 1
    ensures forall j :: 1 <= j ==> (TagAt(t, j, tag) <==> TagAt(t[1..], j - 1, tag))
  {
    forall j | 1 <= j
      ensures TagAt(t, j, tag) <==> TagAt(t[1..], j - 1, tag)
    {
      if j + |tag| <= |t| {
        var a, b := t[j..j + |tag|], t[1..][j - 1..j - 1 + |tag|];
        assert |a| == |b| && forall i :: 0 <= i < |a| ==> a[i] == b[i];
        assert a == b;
      }
    }
  }

  /** A match that fits inside a prefix is a match of the whole text. */
  lemma TagAtPrefix(t: string, k: nat, tag: string)
    requires k <= |t|
    ensures forall j :: 0 <= j && j + |tag| <= k ==> (TagAt(t[..k], j, tag) <==> TagAt(t, j, tag))
  {
    forall j | 0 <= j && j + |tag| <= k
      ensures TagAt(t[..k], j, tag) <==> TagAt(t, j, tag)
    {
      assert t[..k][j..j + |tag|] == t[j..j + |tag|];
    }
  }

  /** The matches of the pattern, scanning left to right and resuming after each match. */
  function FindAll(s: string): seq<string>
    decreases |s|
  {
    if |s| < |Open| then []
    else if TagAt(s, 0, Open) then
      match CloseFrom(s[|Open|..])
      case Some(k) => [s[|Open|..|Open| + k]] + FindAll(s[|Open| + k + |Close|..])
      case None => FindAll(s[1..])
    else FindAll(s[1..])
  }

  function ParseXmlUrls(xml: string): seq<string> {
    FindAll(xml)
  }

  /** What the non-greedy group can capture: no newline, no closing tag in any case. */
  predicate LocValue(u: string) {
    forall k :: 0 <= k < |u| ==> u[k] != '\n' && !TagAt(u, k, Close)
  }

  lemma CapturedIsLocValue(t: string, k: nat)
    requires CloseFrom(t) == Some(k)
    ensures LocValue(t[..k])
  {
    TagAtPrefix(t, k, Close);
  }

  /** No extracted value spans a newline or holds a closing tag in any case. */
  lemma {:induction false} ParseXmlUrlsShape(xml: string)
    ensures forall u :: u in ParseXmlUrls(xml) ==> LocValue(u)
    decreases |xml|
  {
    if |xml| < |Open| {
    } else if TagAt(xml, 0, Open) && CloseFrom(xml[|Open|..]).Some? {
      var t := xml[|Open|..];
      var k := CloseFrom(t).value;
      ParseXmlUrlsShape(xml[|Open| + k + |Close|..]);
      CapturedIsLocValue(t, k);
      assert t[..k] == xml[|Open|..|Open| + k];
    } else {
      ParseXmlUrlsShape(xml[1..]);
    }
  }

  /**
   * Text with no `<loc>` match, not even one completed by what follows it:
   * each `<` in it has at least four more characters of it after it, and
   * together they do not spell the opening tag in any case. Tags such as
   * `<url>`, `</url>` and `<lastmod>`, and any text without `<`, qualify.
   */
  predicate NoLoc(g: string) {
    forall k :: 0 <= k < |g| && g[k] == '<' ==> k + |Open| <= |g| && !TagAt(g, k, Open)
  }

  /** What a sitemap URL can hold: no `<` and no newline. */
  predicate PlainUrl(u: string) {
    forall k :: 0 <= k < |u| ==> u[k] != '<' && u[k] != '\n'
  }

  /** One `<loc>` entry of a sitemap and the text after it, up to the next entry. */
  datatype LocEntry = LocEntry(url: string, after: string)

  function Entries(es: seq<LocEntry>): string {
    if es == [] then "" else Open + es[0].url + Close + es[0].after + Entries(es[1..])
  }

  /** A sitemap: a header (the XML declaration, `<urlset>`, `<url>`), then its entries. */
  function Sitemap(head: string, es: seq<LocEntry>): string {
    head + Entries(es)
  }

  function LocUrls(es: seq<LocEntry>): seq<string> {
    if es == [] then [] else [es[0].url] + LocUrls(es[1..])
  }

  /** The text between two entries of a `<urlset>` is free of `<loc>` matches. */
  lemma UrlTagsHaveNoLoc()
    ensures NoLoc("\n</url>\n<url>\n")
  {
    var g := "\n</url>\n<url>\n";
    forall k | 0 <= k < |g| && g[k] == '<'
      ensures k + |Open| <= |g| && !TagAt(g, k, Open)
    {
      assert k == 1 || k == 8;
      assert Lower(g[k..k + |Open|])[1] == LowerChar(g[k + 1]);
    }
  }

  /** The XML declaration and the opening `<urlset>` and `<url>` tags hold no `<loc>` match. */
  lemma SitemapHeaderHasNoLoc()
    ensures NoLoc("<?xml version=\"1.0\"?>\n<urlset>\n<url>\n")
  {
    var g := "<?xml version=\"1.0\"?>\n<urlset>\n<url>\n";
    forall k | 0 <= k < |g| && g[k] == '<'
      ensures k + |Open| <= |g| && !TagAt(g, k, Open)
    {
      assert k == 0 || k == 22 || k == 31;
      assert Lower(g[k..k + |Open|])[1] == LowerChar(g[k + 1]);
    }
  }

  /** A `<lastmod>` element and the closing `</url>` and `</urlset>` tags hold no `<loc>` match. */
  lemma LastmodHasNoLoc()
    ensures NoLoc("\n<lastmod>2024</lastmod>\n</url>\n</urlset>\n")
  {
    var g := "\n<lastmod>2024</lastmod>\n</url>\n</urlset>\n";
    forall k | 0 <= k < |g| && g[k] == '<'
      ensures k + |Open| <= |g| && !TagAt(g, k, Open)
    {
      assert k == 1 || k == 14 || k == 25 || k == 32;
      assert Lower(g[k..k + |Open|])[1] == LowerChar(g[k + 1]);
      assert Lower(g[k..k + |Open|])[2] == LowerChar(g[k + 2]);
    }
  }

  /** A value without `<` or newline runs up to the closing tag that follows it. */
  lemma {:induction false} CloseFromAfter(u: string, x: string)
    requires PlainUrl(u)
    requires |x| >= |Close| && x[..|Close|] == Close
    ensures CloseFrom(u + x) == Some(|u|)
    decreases |u|
  {
    var t := u + x;
    if u == [] {
      assert t == x;
    } else {
      assert t[0] == u[0];
      assert !TagAt(t, 0, Close) by {
        assert LowerChar(t[0]) != '<';
        assert Lower(t[..|Close|])[0] == LowerChar(t[0]);
      }
      assert t[1..] == u[1..] + x;
      CloseFromAfter(u[1..], x);
    }
  }

  /** Text without a `<loc>` match in front of a document adds no match. */
  lemma {:induction false} FindAllSkipsFiller(g: string, rest: string)
    requires NoLoc(g)
    ensures FindAll(g + rest) == FindAll(rest)
    decreases |g|
  {
    var s := g + rest;
    if g != [] && |s| >= |Open| {
      assert !TagAt(s, 0, Open) by {
        if g[0] == '<' {
          assert s[0..|Open|] == g[0..|Open|];
        } else {
          assert Lower(s[0..|Open|])[0] == LowerChar(s[0]);
        }
      }
      TagAtTail(g, Open);
      assert NoLoc(g[1..]) by {
        forall k | 0 <= k < |g[1..]| && g[1..][k] == '<'
          ensures k + |Open| <= |g[1..]| && !TagAt(g[1..], k, Open)
        {
          assert g[k + 1] == '<';
        }
      }
      assert s[1..] == g[1..] + rest;
      FindAllSkipsFiller(g[1..], rest);
    } else if g != [] {
      assert |rest| < |Open|;
    } else {
      assert s == rest;
    }
  }

  lemma OpenIsLower()
    ensures Lower(Open) == Open
  {
    assert Lower(Open)[0] == LowerChar('<');
  }

  /** Where the parts of one entry sit in the document. */
  lemma EntrySlices(u: string, y: string, s: string)
    requires s == Open + u + Close + y
    ensures s[|Open|..] == u + (Close + y)
    ensures s[|Open|..|Open| + |u|] == u && s[|Open| + |u| + |Close|..] == y
  {
    assert s == Open + (u + (Close + y));
  }

  /** A document that starts with the opening tag matches it there. */
  lemma OpensWithTag(s: string, y: string)
    requires s == Open + y
    ensures TagAt(s, 0, Open)
  {
    assert s[..|Open|] == Open;
    OpenIsLower();
  }

  /** A match at the start yields its group and the scan resumes after the closing tag. */
  lemma FindAllMatch(s: string, k: nat)
    requires TagAt(s, 0, Open) && CloseFrom(s[|Open|..]) == Some(k)
    ensures FindAll(s) == [s[|Open|..|Open| + k]] + FindAll(s[|Open| + k + |Close|..])
  {
  }

  /** One `<loc>` entry yields its URL; the text after it adds nothing, and the scan goes on with the rest. */
  lemma FindAllEntry(u: string, after: string, rest: string)
    requires PlainUrl(u) && NoLoc(after)
    ensures FindAll(Open + u + Close + after + rest) == [u] + FindAll(rest)
  {
    var y := after + rest;
    var s := Open + u + Close + after + rest;
    assert s == Open + u + Close + y;
    EntrySlices(u, y, s);
    OpensWithTag(s, u + (Close + y));
    assert (Close + y)[..|Close|] == Close;
    CloseFromAfter(u, Close + y);
    FindAllMatch(s, |u|);
    FindAllSkipsFiller(after, rest);
  }

  lemma {:induction false} ParseEntries(es: seq<LocEntry>)
    requires forall e :: e in es ==> PlainUrl(e.url) && NoLoc(e.after)
    ensures FindAll(Entries(es)) == LocUrls(es)
  {
    if es != [] {
      assert es[0] in es;
      FindAllEntry(es[0].url, es[0].after, Entries(es[1..]));
      ParseEntries(es[1..]);
    }
  }

  /**
   * `parse_xml_urls` gives back, in order, the URLs of a sitemap whose header
   * and inter-entry text hold no `<loc>` match.
   */
  lemma ParseSitemap(head: string, es: seq<LocEntry>)
    requires NoLoc(head)
    requires forall e :: e in es ==> PlainUrl(e.url) && NoLoc(e.after)
    ensures ParseXmlUrls(Sitemap(head, es)) == LocUrls(es)
  {
    FindAllSkipsFiller(head, Entries(es));
    ParseEntries(es);
  }

  // ---------------------------------------------------------------------
  // URL filters

  /** A URL that names a sitemap rather than a page. */
  predicate IsXml(u: string) {
    EndsWith(Lower(u), ".xml")
  }

  /** A page listed directly by a sitemap index: "shl.com" as written, "/product" in any case. */
  predicate KeepIndexedPage(u: string) {
    Contains(u, "shl.com") && Contains(Lower(u), "/product")
  }

  /** A page listed by a sub-sitemap: a likely product page that is not a pre-packaged job solution. */
  predicate KeepSitemapPage(pu: string) {
    var low := Lower(pu);
    && Contains(low, "shl.com")
    && (Contains(low, "product") || Contains(low, "/solutions/products/"))
    && !Contains(low, "pre-packaged") && !Contains(low, "job-solution")
  }

  /** A link found on a catalog landing page, once made absolute. */
  predicate KeepCatalogLink(href: string) {
    var low := Lower(href);
    && Contains(low, "shl.com")
    && (Contains(low, "/product") || Contains(low, "/solutions/products/"))
    && !Contains(low, "pre-packaged")
  }

  const BlockedParts: seq<string> := ["/blog/", "/news/", "/press", "/careers", "/events"]

  /** The final cleanup: no blog, news, press, careers or events page, nothing pre-packaged. */
  predicate KeepCandidate(u: string) {
    var low := Lower(u);
    && !(exists x :: x in BlockedParts && Contains(low, x))
    && !Contains(low, "pre-packaged")
  }

  /** `href.startswith("/")`: a site-relative link gets the site root in front. */
  function FixHref(href: string): (r: string)
    ensures StartsWith(href, "/") ==> r == Root + href && StartsWith(r, Root)
    ensures !StartsWith(href, "/") ==> r == href
  {
    if StartsWith(href, "/") then Root + href else href
  }

  lemma {:induction false} SolutionsProductsHasProduct(low: string)
    requires Contains(low, "/solutions/products/")
    ensures Contains(low, "/product") && Contains(low, "product")
  {
    var sp := "/solutions/products/";
    assert OccursAt(sp, "/product", 10) by {
      assert sp[10..18] == "/product";
    }
    assert OccursAt(sp, "product", 11) by {
      assert sp[11..18] == "product";
    }
    ContainsAt(sp, "/product", 10);
    ContainsAt(sp, "product", 11);
    ContainsTransitive(low, sp, "/product");
    ContainsTransitive(low, sp, "product");
  }

  /** The "/solutions/products/" alternative adds nothing: "/product" alone decides. */
  lemma CatalogLinkIff(href: string)
    ensures var low := Lower(href);
      KeepCatalogLink(href) <==>
        Contains(low, "shl.com") && Contains(low, "/product") && !Contains(low, "pre-packaged")
  {
    var low := Lower(href);
    if Contains(low, "/solutions/products/") {
      SolutionsProductsHasProduct(low);
    }
  }

  /** The same for sitemap pages: "product" alone decides. */
  lemma SitemapPageIff(pu: string)
    ensures var low := Lower(pu);
      KeepSitemapPage(pu) <==>
        Contains(low, "shl.com") && Contains(low, "product")
        && !Contains(low, "pre-packaged") && !Contains(low, "job-solution")
  {
    var low := Lower(pu);
    if Contains(low, "/solutions/products/") {
      SolutionsProductsHasProduct(low);
    }
  }

  /** Every URL that discovery keeps names shl.com and a product, in lower case. */
  predicate ProductLike(u: string) {
    Contains(Lower(u), "shl.com") && Contains(Lower(u), "product")
  }

  lemma {:induction false} KeptIsProductLike(u: string)
    requires KeepIndexedPage(u) || KeepSitemapPage(u) || KeepCatalogLink(u)
    ensures ProductLike(u)
  {
    var low := Lower(u);
    if KeepIndexedPage(u) {
      LowerIdempotent("shl.com");
      ContainsLowered(u, "shl.com");
      var sp := "/product";
      assert OccursAt(sp, "product", 1) by {
        assert sp[1..8] == "product";
      }
      ContainsAt(sp, "product", 1);
      ContainsTransitive(low, sp, "product");
    } else if Contains(low, "/solutions/products/") {
      SolutionsProductsHasProduct(low);
    } else if KeepCatalogLink(u) {
      var sp := "/product";
      assert OccursAt(sp, "product", 1) by {
        assert sp[1..8] == "product";
      }
      ContainsAt(sp, "product", 1);
      ContainsTransitive(low, sp, "product");
    }
  }

  // ---------------------------------------------------------------------
  // discover_product_urls_from_sitemaps

  /** The pages of one sub-sitemap that are kept. */
  function PagesFound(pages: seq<string>): set<string> {
    set pu | pu in pages && KeepSitemapPage(pu)
  }

  /** What one URL of a sitemap index contributes: itself if it is a page, the kept pages if it is a sitemap. */
  function EntryFound(fetched: map<string, string>, u: string): set<string> {
    if !IsXml(u) then (if KeepIndexedPage(u) then {u} else {})
    else if u in fetched then PagesFound(ParseXmlUrls(fetched[u]))
    else {}
  }

  function ListingFound(fetched: map<string, string>, urls: seq<string>): set<string> {
    if urls == [] then {} else ListingFound(fetched, urls[..|urls| - 1]) + EntryFound(fetched, urls[|urls| - 1])
  }

  function IndexesFound(fetched: map<string, string>, sms: seq<string>): set<string> {
    if sms == [] then {}
    else
      var sm := sms[|sms| - 1];
      IndexesFound(fetched, sms[..|sms| - 1]) + (if sm in fetched then ListingFound(fetched, ParseXmlUrls(fetched[sm])) else {})
  }

  lemma {:induction false} ListingFoundMembers(fetched: map<string, string>, urls: seq<string>, x: string)
    ensures x in ListingFound(fetched, urls) <==> exists j :: 0 <= j < |urls| && x in EntryFound(fetched, urls[j])
    decreases |urls|
  {
    if urls != [] {
      var init := urls[..|urls| - 1];
      ListingFoundMembers(fetched, init, x);
      assert forall j :: 0 <= j < |init| ==> init[j] == urls[j];
    }
  }

  lemma {:induction false} IndexesFoundMembers(fetched: map<string, string>, sms: seq<string>, x: string)
    ensures x in IndexesFound(fetched, sms) <==>
      exists j :: 0 <= j < |sms| && sms[j] in fetched && x in ListingFound(fetched, ParseXmlUrls(fetched[sms[j]]))
    decreases |sms|
  {
    if sms != [] {
      var init := sms[..|sms| - 1];
      IndexesFoundMembers(fetched, init, x);
      assert forall j :: 0 <= j < |init| ==> init[j] == sms[j];
    }
  }

  /**
   * How URL `v` of a sitemap index brings in `x`: `v` is `x` itself, a page
   * that passes the index filter, or `v` is a fetched sub-sitemap that lists
   * `x` as a page that passes the sitemap-page filter.
   */
  predicate EntryBrings(fetched: map<string, string>, v: string, x: string) {
    || (v == x && !IsXml(v) && KeepIndexedPage(x))
    || (IsXml(v) && v in fetched && x in ParseXmlUrls(fetched[v]) && KeepSitemapPage(x))
  }

  lemma EntryFoundIff(fetched: map<string, string>, v: string, x: string)
    ensures x in EntryFound(fetched, v) <==> EntryBrings(fetched, v, x)
  {
  }

  lemma ListingFoundIff(fetched: map<string, string>, urls: seq<string>, x: string)
    ensures x in ListingFound(fetched, urls) <==> exists v :: v in urls && EntryBrings(fetched, v, x)
  {
    ListingFoundMembers(fetched, urls, x);
    if x in ListingFound(fetched, urls) {
      var j :| 0 <= j < |urls| && x in EntryFound(fetched, urls[j]);
      EntryFoundIff(fetched, urls[j], x);
    }
    if exists v :: v in urls && EntryBrings(fetched, v, x) {
      var v :| v in urls && EntryBrings(fetched, v, x);
      var j :| 0 <= j < |urls| && urls[j] == v;
      EntryFoundIff(fetched, v, x);
    }
  }

  /** A URL is discovered through the sitemaps iff some URL of a fetched index brings it in. */
  lemma SitemapDiscoveryIff(fetched: map<string, string>, x: string)
    ensures x in IndexesFound(fetched, SitemapIndexes) <==>
      exists sm, v :: sm in SitemapIndexes && sm in fetched && v in ParseXmlUrls(fetched[sm]) && EntryBrings(fetched, v, x)
  {
    IndexesFoundMembers(fetched, SitemapIndexes, x);
    if x in IndexesFound(fetched, SitemapIndexes) {
      var j :| 0 <= j < |SitemapIndexes| && SitemapIndexes[j] in fetched &&
        x in ListingFound(fetched, ParseXmlUrls(fetched[SitemapIndexes[j]]));
      ListingFoundIff(fetched, ParseXmlUrls(fetched[SitemapIndexes[j]]), x);
    }
    if exists sm, v :: sm in SitemapIndexes && sm in fetched && v in ParseXmlUrls(fetched[sm]) && EntryBrings(fetched, v, x) {
      var sm, v :| sm in SitemapIndexes && sm in fetched && v in ParseXmlUrls(fetched[sm]) && EntryBrings(fetched, v, x);
      var j :| 0 <= j < |SitemapIndexes| && SitemapIndexes[j] == sm;
      ListingFoundIff(fetched, ParseXmlUrls(fetched[sm]), x);
    }
  }

  lemma IndexesFoundStep(fetched: map<string, string>, sms: seq<string>, i: nat)
    requires i < |sms|
    ensures IndexesFound(fetched, sms[..i + 1]) == IndexesFound(fetched, sms[..i]) +
      (if sms[i] in fetched then ListingFound(fetched, ParseXmlUrls(fetched[sms[i]])) else {})
  {
    assert sms[..i + 1][..i] == sms[..i];
  }

  lemma ListingFoundStep(fetched: map<string, string>, urls: seq<string>, j: nat)
    requires j < |urls|
    ensures ListingFound(fetched, urls[..j + 1]) == ListingFound(fetched, urls[..j]) + EntryFound(fetched, urls[j])
  {
    assert urls[..j + 1][..j] == urls[..j];
  }

  lemma PagesFoundStep(pages: seq<string>, k: nat)
    requires k < |pages|
    ensures PagesFound(pages[..k + 1]) == PagesFound(pages[..k]) + (if KeepSitemapPage(pages[k]) then {pages[k]} else {})
  {
    assert pages[..k + 1] == pages[..k] + [pages[k]];
  }

  /** `discover_product_urls_from_sitemaps` over the fetched documents. */
  method DiscoverProductUrlsFromSitemaps(fetched: map<string, string>) returns (found: set<string>)
    ensures found == IndexesFound(fetched, SitemapIndexes)
  {
    found := {};
    for i := 0 to |SitemapIndexes|
      invariant found == IndexesFound(fetched, SitemapIndexes[..i])
    {
      var sm := SitemapIndexes[i];
      IndexesFoundStep(fetched, SitemapIndexes, i);
      if sm !in fetched {
        continue;
      }
      var urls := ParseXmlUrls(fetched[sm]);
      ghost var before := found;
      for j := 0 to |urls|
        invariant found == before + ListingFound(fetched, urls[..j])
      {
        var u := urls[j];
        ListingFoundStep(fetched, urls, j);
        if !EndsWith(Lower(u), ".xml") {
          if Contains(u, "shl.com") && Contains(Lower(u), "/product") {
            found := found + {u};
          }
          continue;
        }
        if u !in fetched {
          continue;
        }
        var pageUrls := ParseXmlUrls(fetched[u]);
        ghost var mid := found;
        for k := 0 to |pageUrls|
          invariant found == mid + PagesFound(pageUrls[..k])
        {
          var pu := pageUrls[k];
          PagesFoundStep(pageUrls, k);
          var low := Lower(pu);
          if !Contains(low, "shl.com") {
            continue;
          }
          if Contains(low, "product") || Contains(low, "/solutions/products/") {
            if Contains(low, "pre-packaged") || Contains(low, "job-solution") {
              continue;
            }
            found := found + {pu};
          }
        }
        assert pageUrls[..|pageUrls|] == pageUrls;
      }
      assert urls[..|urls|] == urls;
    }
    assert SitemapIndexes[..|SitemapIndexes|] == SitemapIndexes;
  }

  /** Everything the sitemaps yield names shl.com and a product. */
  lemma SitemapDiscoveryProductLike(fetched: map<string, string>, x: string)
    requires x in IndexesFound(fetched, SitemapIndexes)
    ensures ProductLike(x)
  {
    SitemapDiscoveryIff(fetched, x);
    KeptIsProductLike(x);
  }

  // ---------------------------------------------------------------------
  // discover_from_catalog_pages

  /** The absolute links of one landing page that are kept. */
  function LinksFound(hrefs: seq<string>): set<string> {
    set h | h in hrefs && KeepCatalogLink(FixHref(h)) :: FixHref(h)
  }

  function SeedsFound(anchors: map<string, seq<string>>, seeds: seq<string>): set<string> {
    if seeds == [] then {}
    else
      var seed := seeds[|seeds| - 1];
      SeedsFound(anchors, seeds[..|seeds| - 1]) + (if seed in anchors then LinksFound(anchors[seed]) else {})
  }

  /** Every link taken from the landing pages passes the catalog-link filter. */
  lemma {:induction false} SeedsFoundKept(anchors: map<string, seq<string>>, seeds: seq<string>, x: string)
    requires x in SeedsFound(anchors, seeds)
    ensures KeepCatalogLink(x) && ProductLike(x)
    decreases |seeds|
  {
    var seed := seeds[|seeds| - 1];
    if x in SeedsFound(anchors, seeds[..|seeds| - 1]) {
      SeedsFoundKept(anchors, seeds[..|seeds| - 1], x);
    } else {
      KeptIsProductLike(x);
    }
  }

  lemma LinksFoundStep(hrefs: seq<string>, j: nat)
    requires j < |hrefs|
    ensures LinksFound(hrefs[..j + 1]) ==
      LinksFound(hrefs[..j]) + (if KeepCatalogLink(FixHref(hrefs[j])) then {FixHref(hrefs[j])} else {})
  {
    assert hrefs[..j + 1] == hrefs[..j] + [hrefs[j]];
  }

  lemma SeedsFoundStep(anchors: map<string, seq<string>>, seeds: seq<string>, i: nat)
    requires i < |seeds|
    ensures SeedsFound(anchors, seeds[..i + 1]) ==
      SeedsFound(anchors, seeds[..i]) + (if seeds[i] in anchors then LinksFound(anchors[seeds[i]]) else {})
  {
    assert seeds[..i + 1][..i] == seeds[..i];
  }

  /**
   * `discover_from_catalog_pages`: `anchors` maps each landing page that could
   * be fetched to the `href` values of its links, in document order.
   */
  method DiscoverFromCatalogPages(anchors: map<string, seq<string>>) returns (found: set<string>)
    ensures found == SeedsFound(anchors, CatalogSeeds)
  {
    found := {};
    for i := 0 to |CatalogSeeds|
      invariant found == SeedsFound(anchors, CatalogSeeds[..i])
    {
      var seed := CatalogSeeds[i];
      SeedsFoundStep(anchors, CatalogSeeds, i);
      if seed !in anchors {
        continue;
      }
      var hrefs := anchors[seed];
      ghost var before := found;
      for j := 0 to |hrefs|
        invariant found == before + LinksFound(hrefs[..j])
      {
        var href := hrefs[j];
        LinksFoundStep(hrefs, j);
        if StartsWith(href, "/") {
          href := Root + href;
        }
        var low := Lower(href);
        if Contains(low, "shl.com") && (Contains(low, "/product") || Contains(low, "/solutions/products/")) {
          if Contains(low, "pre-packaged") {
            continue;
          }
          found := found + {href};
        }
      }
      assert hrefs[..|hrefs|] == hrefs;
    }
    assert CatalogSeeds[..|CatalogSeeds|] == CatalogSeeds;
  }

  // ---------------------------------------------------------------------
  // main: cleanup, processing order, rows

  /** The cleanup loop of `main`: keep the URLs no blocked part or "pre-packaged" rules out. */
  method CleanUrls(urls: set<string>) returns (cleaned: set<string>)
    ensures cleaned == set u | u in urls && KeepCandidate(u)
  {
    cleaned := {};
    var todo := urls;
    while todo != {}
      invariant todo <= urls
      invariant cleaned == set u | u in urls - todo && KeepCandidate(u)
      decreases |todo|
    {
      var u :| u in todo;
      var low := Lower(u);
      todo := todo - {u};
      if exists x :: x in BlockedParts && Contains(low, x) {
        continue;
      }
      if Contains(low, "pre-packaged") {
        continue;
      }
      cleaned := cleaned + {u};
    }
  }

  /** Strictly increasing in Python's string order. */
  predicate StrictlySorted(r: seq<string>) {
    forall i, j :: 0 <= i < j < |r| ==> StrLt(r[i], r[j])
  }

  /** The smallest of a non-empty set in Python's string order. */
  method MinOf(s: set<string>) returns (m: string)
    requires s != {}
    ensures m in s && forall x :: x in s && x != m ==> StrLt(m, x)
  {
    m :| m in s;
    var todo := s - {m};
    while todo != {}
      invariant m in s && todo <= s
      invariant forall x :: x in s - todo && x != m ==> StrLt(m, x)
      decreases |todo|
    {
      var x :| x in todo;
      todo := todo - {x};
      if StrLt(x, m) {
        forall y | y in s - todo && y != x
          ensures StrLt(x, y)
        {
          if y != m {
            StrLtTransitive(x, m, y);
          }
        }
        m := x;
      } else if x != m {
        StrLtTotal(x, m);
      }
    }
  }

  /** `sorted(cleaned)`: the URLs of the set in increasing order, each once. */
  method SortUrls(s: set<string>) returns (r: seq<string>)
    ensures StrictlySorted(r)
    ensures forall u :: u in r <==> u in s
  {
    r := [];
    var todo := s;
    while todo != {}
      invariant todo <= s
      invariant StrictlySorted(r)
      invariant forall u :: u in r <==> u in s - todo
      invariant forall i, x :: 0 <= i < |r| && x in todo ==> StrLt(r[i], x)
      decreases |todo|
    {
      var m := MinOf(todo);
      todo := todo - {m};
      r := r + [m];
    }
  }

  // ---------------------------------------------------------------------
  // extract_product_info

  /** Terms of the name and description that mark a knowledge and skills (K) test. */
  const KnowledgeTerms: seq<string> := [
    "technical", "coding", "programming", "knowledge", "skills", "aptitude", "cognitive",
    "numerical", "verbal", "inductive", "deductive"
  ]

  /** Terms that mark a personality and behaviour (P) test. */
  const PersonalityTerms: seq<string> := [
    "personality", "behaviour", "behavior", "work style", "situational judgment", "sjt",
    "motivation", "values"
  ]

  /**
   * The type hint of a lowered name and description: "K" is set first and a
   * later P match keeps it; `type_hint or ""` turns no hint into "".
   */
  function TypeHint(low: string): (t: string)
    ensures t == "K" <==> AnyIn(KnowledgeTerms, low)
    ensures t == "P" <==> !AnyIn(KnowledgeTerms, low) && AnyIn(PersonalityTerms, low)
    ensures t == "" <==> !AnyIn(KnowledgeTerms, low) && !AnyIn(PersonalityTerms, low)
  {
    var afterK: Option<string> := if AnyIn(KnowledgeTerms, low) then Some("K") else None;
    var afterP := if AnyIn(PersonalityTerms, low) then (if afterK.None? then Some("P") else afterK) else afterK;
    afterP.GetOr("")
  }

  /**
   * What BeautifulSoup finds on a fetched page: the stripped text of the
   * first `h1` and of the `title`, the `content` of the description `meta`
   * tag and the text of the first paragraph, each absent when the element is.
   */
  datatype Page = Page(h1: Option<string>, title: Option<string>, metaContent: Option<string>,
                       paragraph: Option<string>)

  /** One catalog row as the crawler writes it. */
  datatype Record = Record(name: string, url: string, desc: string, typeHint: string)

  /** The name: the `h1` text unless it is absent or empty, else the `title` text. */
  function PageName(page: Page): Option<string> {
    if page.h1.Some? && page.h1.value != "" then page.h1 else page.title
  }

  /** The description: the stripped meta description unless that is empty, else the first paragraph; "" for none. */
  function PageDesc(page: Page): string {
    var fromMeta := if page.metaContent.Some? && page.metaContent.value != "" then Strip(page.metaContent.value) else "";
    if fromMeta != "" then fromMeta else page.paragraph.GetOr("")
  }

  /** `extract_product_info`: `page` is `None` when the request failed. */
  function ExtractProductInfo(url: string, page: Option<Page>): Option<Record> {
    if page.None? then None
    else
      var name := PageName(page.value);
      var desc := PageDesc(page.value);
      if name.None? || name.value == "" then None
      else
        var low := if desc != "" then Lower(name.value + " " + desc) else Lower(name.value);
        Some(Record(Strip(name.value), url, Strip(desc), TypeHint(low)))
  }

  /**
   * A record comes back iff the page was fetched and has a non-empty name;
   * it keeps the URL, its name and description carry no surrounding
   * whitespace, and its hint is "K", "P" or "".
   */
  lemma ExtractShape(url: string, page: Option<Page>)
    ensures var r := ExtractProductInfo(url, page);
      && (r.Some? <==> page.Some? && PageName(page.value).Some? && PageName(page.value).value != "")
      && (r.Some? ==>
            && r.value.url == url
            && Strip(r.value.name) == r.value.name && Strip(r.value.desc) == r.value.desc
            && r.value.typeHint in {"K", "P", ""})
  {
    var r := ExtractProductInfo(url, page);
    if r.Some? {
      StripIdempotent(PageName(page.value).value);
      StripIdempotent(PageDesc(page.value));
    }
  }

  /** A non-empty `h1` names the record; the `title` is only a fallback. */
  lemma ExtractNameFromHeading(url: string, page: Page)
    requires page.h1.Some? && page.h1.value != ""
    ensures ExtractProductInfo(url, Some(page)).Some?
    ensures ExtractProductInfo(url, Some(page)).value.name == Strip(page.h1.value)
  {
  }

  /** A meta description that is not blank wins over the first paragraph. */
  lemma ExtractDescFromMeta(url: string, page: Page)
    requires page.metaContent.Some? && Strip(page.metaContent.value) != ""
    ensures PageDesc(page) == Strip(page.metaContent.value)
  {
  }

  // ---------------------------------------------------------------------
  // main: the rows and the table

  /** The page fetched for `u`, `None` when the request failed. */
  function Fetch(pages: map<string, Page>, u: string): Option<Page> {
    if u in pages then Some(pages[u]) else None
  }

  /** A URL whose extraction gives a named record on the site itself. */
  predicate Extracted(pages: map<string, Page>, u: string) {
    var info := ExtractProductInfo(u, Fetch(pages, u));
    info.Some? && info.value.name != "" && Contains(u, Root)
  }

  /** The rows `main` collects from `urls`, visiting each URL once. */
  function KeptRows(pages: map<string, Page>, urls: seq<string>): seq<Record> {
    if urls == [] then []
    else
      var init, u := urls[..|urls| - 1], urls[|urls| - 1];
      KeptRows(pages, init) + (if u !in init && Extracted(pages, u) then [ExtractProductInfo(u, Fetch(pages, u)).value] else [])
  }

  /** Each row is the extracted record of a visited URL that passed the name and site checks. */
  lemma {:induction false} KeptRowsSound(pages: map<string, Page>, urls: seq<string>)
    ensures forall r :: r in KeptRows(pages, urls) ==>
      r.url in urls && Extracted(pages, r.url) && r == ExtractProductInfo(r.url, Fetch(pages, r.url)).value
    decreases |urls|
  {
    if urls != [] {
      var init, u := urls[..|urls| - 1], urls[|urls| - 1];
      KeptRowsSound(pages, init);
      assert urls == init + [u];
    }
  }

  /** Every visited URL that passes the checks gives a row. */
  lemma {:induction false} KeptRowsComplete(pages: map<string, Page>, urls: seq<string>)
    ensures forall u :: u in urls && Extracted(pages, u) ==> u in Urls(KeptRows(pages, urls))
    decreases |urls|
  {
    if urls != [] {
      var init, u := urls[..|urls| - 1], urls[|urls| - 1];
      KeptRowsComplete(pages, init);
      assert urls == init + [u];
      var rows := KeptRows(pages, urls);
      var prev := KeptRows(pages, init);
      assert rows == prev + (if u !in init && Extracted(pages, u) then [ExtractProductInfo(u, Fetch(pages, u)).value] else []);
      assert Urls(rows)[..|prev|] == Urls(prev);
      forall x | x in urls && Extracted(pages, x)
        ensures x in Urls(rows)
      {
        if x in init {
          var k :| 0 <= k < |prev| && Urls(prev)[k] == x;
          assert Urls(rows)[k] == x;
        } else {
          assert Urls(rows)[|rows| - 1] == u;
        }
      }
    }
  }

  lemma {:induction false} KeptRowUrls(pages: map<string, Page>, urls: seq<string>)
    ensures forall r :: r in KeptRows(pages, urls) ==> r.url in urls
    decreases |urls|
  {
    if urls != [] {
      var init, u := urls[..|urls| - 1], urls[|urls| - 1];
      KeptRowUrls(pages, init);
      assert urls == init + [u];
    }
  }

  /** Row URLs strictly increase in Python's string order. */
  predicate SortedByUrl(rows: seq<Record>) {
    forall i, j :: 0 <= i < j < |rows| ==> StrLt(rows[i].url, rows[j].url)
  }

  /** Rows follow the visiting order: strictly increasing URLs give strictly increasing row URLs. */
  lemma {:induction false} KeptRowsOrdered(pages: map<string, Page>, urls: seq<string>)
    requires StrictlySorted(urls)
    ensures SortedByUrl(KeptRows(pages, urls))
    decreases |urls|
  {
    if urls != [] {
      var init, u := urls[..|urls| - 1], urls[|urls| - 1];
      assert forall i, j :: 0 <= i < j < |init| ==> StrLt(init[i], init[j]);
      KeptRowsOrdered(pages, init);
      KeptRowUrls(pages, init);
      var rows := KeptRows(pages, urls);
      var prev := KeptRows(pages, init);
      var last := if u !in init && Extracted(pages, u) then [ExtractProductInfo(u, Fetch(pages, u)).value] else [];
      assert rows == prev + last;
      assert forall r :: r in last ==> r.url == u;
      forall i, j | 0 <= i < j < |rows|
        ensures StrLt(rows[i].url, rows[j].url)
      {
        if j == |prev| {
          assert rows[i] in prev && rows[j] in last;
          var k :| 0 <= k < |init| && init[k] == rows[i].url;
          assert init[k] == urls[k] && rows[j].url == urls[|urls| - 1];
          assert StrLt(urls[k], urls[|urls| - 1]);
          assert StrLt(rows[i].url, rows[j].url);
        } else {
          assert j < |prev|;
          assert rows[i] == prev[i] && rows[j] == prev[j];
          assert StrLt(prev[i].url, prev[j].url);
        }
      }
    }
  }

  /** One more URL adds its record when it is new and extracted. */
  lemma KeptRowsStep(pages: map<string, Page>, urls: seq<string>, i: nat)
    requires i < |urls|
    ensures KeptRows(pages, urls[..i + 1]) == KeptRows(pages, urls[..i]) +
      (if urls[i] !in urls[..i] && Extracted(pages, urls[i]) then [ExtractProductInfo(urls[i], Fetch(pages, urls[i])).value] else [])
  {
    var pre := urls[..i + 1];
    assert pre[..|pre| - 1] == urls[..i];
    assert pre[|pre| - 1] == urls[i];
  }

  /** The URLs a sequence holds. */
  function Members(urls: seq<string>): set<string> {
    set x | x in urls
  }

  lemma SeenStep(urls: seq<string>, i: nat)
    requires i < |urls|
    ensures Members(urls[..i + 1]) == Members(urls[..i]) + {urls[i]}
  {
    assert urls[..i + 1] == urls[..i] + [urls[i]];
  }

  /** The extraction loop of `main` over the sorted URLs, with its `seen` set. */
  method ExtractRows(urls: seq<string>, pages: map<string, Page>) returns (rows: seq<Record>)
    ensures rows == KeptRows(pages, urls)
  {
    rows := [];
    var seen: set<string> := {};
    for i := 0 to |urls|
      invariant seen == Members(urls[..i])
      invariant rows == KeptRows(pages, urls[..i])
    {
      var u := urls[i];
      KeptRowsStep(pages, urls, i);
      SeenStep(urls, i);
      if u in seen {
        continue;
      }
      seen := seen + {u};
      var info := ExtractProductInfo(u, Fetch(pages, u));
      if info.Some? && info.value.name != "" && Contains(u, Root) {
        rows := rows + [info.value];
      }
    }
    assert urls[..|urls|] == urls;
  }

  /** The `url` column. */
  function Urls(rows: seq<Record>): seq<string> {
    seq(|rows|, i requires 0 <= i < |rows| => rows[i].url)
  }

  predicate DistinctUrls(rows: seq<Record>) {
    forall i, j :: 0 <= i < j < |rows| ==> rows[i].url != rows[j].url
  }

  /** `drop_duplicates(subset=["url"])`: a row goes when an earlier row has its URL. */
  function DropDuplicatesByUrl(rows: seq<Record>): seq<Record> {
    if rows == [] then []
    else
      var init, r := rows[..|rows| - 1], rows[|rows| - 1];
      DropDuplicatesByUrl(init) + (if r.url in Urls(init) then [] else [r])
  }

  /** The deduplicated table keeps rows of the input, in order, one per URL, and loses no URL. */
  lemma {:induction false} DropDuplicatesFacts(rows: seq<Record>)
    ensures var t := DropDuplicatesByUrl(rows);
      && (forall r :: r in t ==> r in rows)
      && DistinctUrls(t)
      && (forall u :: u in Urls(t) <==> u in Urls(rows))
    decreases |rows|
  {
    if rows != [] {
      var init, r := rows[..|rows| - 1], rows[|rows| - 1];
      DropDuplicatesFacts(init);
      assert rows == init + [r];
      var prev := DropDuplicatesByUrl(init);
      var t := DropDuplicatesByUrl(rows);
      assert Urls(rows) == Urls(init) + [r.url];
      if r.url !in Urls(init) {
        assert t == prev + [r];
        assert Urls(t) == Urls(prev) + [r.url];
        forall i | 0 <= i < |prev|
          ensures prev[i].url != r.url
        {
          assert Urls(prev)[i] == prev[i].url;
        }
      } else {
        assert t == prev;
      }
    }
  }

  /** With distinct URLs nothing is dropped. */
  lemma {:induction false} DropDuplicatesOfDistinct(rows: seq<Record>)
    requires DistinctUrls(rows)
    ensures DropDuplicatesByUrl(rows) == rows
    decreases |rows|
  {
    if rows != [] {
      var init, r := rows[..|rows| - 1], rows[|rows| - 1];
      DropDuplicatesOfDistinct(init);
      assert rows == init + [r];
    }
  }

  lemma RowOfUrl(rows: seq<Record>, u: string)
    requires u in Urls(rows)
    ensures exists r :: r in rows && r.url == u
  {
    var i :| 0 <= i < |rows| && Urls(rows)[i] == u;
    assert rows[i] in rows;
  }

  /** The URLs discovery finds before the cleanup. */
  function Discovered(fetched: map<string, string>, anchors: map<string, seq<string>>): set<string> {
    IndexesFound(fetched, SitemapIndexes) + SeedsFound(anchors, CatalogSeeds)
  }

  /**
   * `main` up to the CSV file: discover, clean, visit in sorted order,
   * extract, drop duplicate URLs. Every row is the extracted record of a
   * discovered, product-like URL the cleanup kept, on the site root and
   * with a name; every such URL gives a row; row URLs increase strictly.
   */
  method BuildCatalog(fetched: map<string, string>, anchors: map<string, seq<string>>, pages: map<string, Page>)
    returns (table: seq<Record>)
    ensures forall r :: r in table ==>
      && r.url in Discovered(fetched, anchors) && KeepCandidate(r.url) && ProductLike(r.url)
      && Extracted(pages, r.url) && r == ExtractProductInfo(r.url, Fetch(pages, r.url)).value
    ensures forall u :: u in Discovered(fetched, anchors) && KeepCandidate(u) && Extracted(pages, u) ==>
      exists r :: r in table && r.url == u
    ensures SortedByUrl(table)
  {
    var fromSitemaps := DiscoverProductUrlsFromSitemaps(fetched);
    var fromPages := DiscoverFromCatalogPages(anchors);
    var urls := fromSitemaps + fromPages;
    var cleaned := CleanUrls(urls);
    var ordered := SortUrls(cleaned);
    var rows := ExtractRows(ordered, pages);
    KeptRowsSound(pages, ordered);
    KeptRowsComplete(pages, ordered);
    KeptRowsOrdered(pages, ordered);
    forall i, j | 0 <= i < j < |rows|
      ensures rows[i].url != rows[j].url
    {
      StrLtIrreflexive(rows[i].url);
    }
    assert DistinctUrls(rows);
    DropDuplicatesOfDistinct(rows);
    table := DropDuplicatesByUrl(rows);
    forall u | u in Discovered(fetched, anchors) && KeepCandidate(u) && Extracted(pages, u)
      ensures exists r :: r in table && r.url == u
    {
      assert u in cleaned;
      RowOfUrl(rows, u);
    }
    forall r | r in table
      ensures ProductLike(r.url)
    {
      if r.url in fromSitemaps {
        SitemapDiscoveryProductLike(fetched, r.url);
      } else {
        SeedsFoundKept(anchors, CatalogSeeds, r.url);
      }
    }
  }
}
