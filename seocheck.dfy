/**
 * The SEO report of scripts/check-seo.js without the file system: `checkSEO` lists, in a fixed order, the
 * markers a page lacks, and the report loop files every page's path under each issue it shows.
 */
module SeoCheck {
  import opened Text

  /** The seven checks, in the order `checkSEO` runs them. */
  datatype Issue = JsonLd | OgTags | Canonical | MetaDescription | Hreflang | AppleTouchIcon | Manifest

  /** Where the issue stands in the report. */
  function Rank(i: Issue): (r: nat)
    ensures r < 7
  {
    match i
    case JsonLd => 0
    case OgTags => 1
    case Canonical => 2
    case MetaDescription => 3
    case Hreflang => 4
    case AppleTouchIcon => 5
    case Manifest => 6
  }

  /** The name the report prints and files under. */
  function Label(i: Issue): string {
    match i
    case JsonLd => "JSON-LD"
    case OgTags => "OG tags"
    case Canonical => "Canonical"
    case MetaDescription => "Meta description"
    case Hreflang => "hreflang"
    case AppleTouchIcon => "apple-touch-icon"
    case Manifest => "manifest"
  }

  /** The text whose absence raises the issue. */
  function Marker(i: Issue): string {
    match i
    case JsonLd => JsonLdMarker
    case OgTags => OgMarker
    case Canonical => CanonicalMarker
    case MetaDescription => DescriptionMarker
    case Hreflang => HreflangMarker
    case AppleTouchIcon => TouchIconMarker
    case Manifest => ManifestMarker
  }

  const JsonLdMarker: string := "application/ld+json"
  const OgMarker: string := "og:title"
  const CanonicalMarker: string := "rel=\"canonical\""
  const DescriptionMarker: string := "name=\"description\""
  const HreflangMarker: string := "hreflang"
  const TouchIconMarker: string := "apple-touch-icon"
  const ManifestMarker: string := "manifest"

  /** Files whose path mentions this are not expected to carry `hreflang` links. */
  const PagesDir: string := "pages"

  /** The page at `filePath` shows issue `i`: its marker is missing, and for `hreflang` the path also lacks `pages`. */
  predicate Missing(filePath: string, content: string, i: Issue) {
    !Contains(content, Marker(i)) && (i == Hreflang ==> !Contains(filePath, PagesDir))
  }

  /** The issues come out in report order, each at most once. */
  predicate InReportOrder(issues: seq<Issue>) {
    forall a, b :: 0 <= a < b < |issues| ==> Rank(issues[a]) < Rank(issues[b])
  }

  /**
   * `if (lacking) issues.push(i)` for a check ranked after everything listed so far: `i` is listed exactly when
   * it is lacking, nothing else changes, and the list stays in report order.
   */
  method PushIf(issues: seq<Issue>, lacking: bool, i: Issue) returns (next: seq<Issue>)
    requires InReportOrder(issues) && forall x :: x in issues ==> Rank(x) < Rank(i)
    ensures InReportOrder(next) && forall x :: x in next ==> Rank(x) <= Rank(i)
    ensures i in next <==> lacking
    ensures forall x :: x != i ==> (x in next <==> x in issues)
  {
    next := issues;
    if lacking {
      next := next + [i];
    }
  }

  /** Issue by issue, the list holds what the page lacks. */
  lemma Classified(filePath: string, content: string, issues: seq<Issue>)
    requires JsonLd in issues <==> !Contains(content, JsonLdMarker)
    requires OgTags in issues <==> !Contains(content, OgMarker)
    requires Canonical in issues <==> !Contains(content, CanonicalMarker)
    requires MetaDescription in issues <==> !Contains(content, DescriptionMarker)
    requires Hreflang in issues <==> !Contains(filePath, PagesDir) && !Contains(content, HreflangMarker)
    requires AppleTouchIcon in issues <==> !Contains(content, TouchIconMarker)
    requires Manifest in issues <==> !Contains(content, ManifestMarker)
    ensures forall i :: i in issues <==> Missing(filePath, content, i)
  {
    forall i
      ensures i in issues <==> Missing(filePath, content, i)
    {
      match i
      case JsonLd =>
      case OgTags =>
      case Canonical =>
      case MetaDescription =>
      case Hreflang =>
      case AppleTouchIcon =>
      case Manifest =>
    }
  }

  /** `checkSEO`: the list of issues, built by one conditional push per check. */
  method CheckSeo(filePath: string, content: string) returns (issues: seq<Issue>)
    ensures forall i :: i in issues <==> Missing(filePath, content, i)
    ensures InReportOrder(issues)
  {
    issues := [];
    issues := PushIf(issues, !Contains(content, JsonLdMarker), JsonLd);
    issues := PushIf(issues, !Contains(content, OgMarker), OgTags);
    issues := PushIf(issues, !Contains(content, CanonicalMarker), Canonical);
    issues := PushIf(issues, !Contains(content, DescriptionMarker), MetaDescription);
    issues := PushIf(issues, !Contains(filePath, PagesDir) && !Contains(content, HreflangMarker), Hreflang);
    issues := PushIf(issues, !Contains(content, TouchIconMarker), AppleTouchIcon);
    issues := PushIf(issues, !Contains(content, ManifestMarker), Manifest);
    Classified(filePath, content, issues);
  }

  /** In report order, no issue is listed twice. */
  lemma ReportOrderDistinct(issues: seq<Issue>, j: nat)
    requires InReportOrder(issues) && j < |issues|
    ensures issues[j] !in issues[..j]
  {
    forall a | 0 <= a < j
      ensures issues[..j][a] != issues[j]
    {
      assert Rank(issues[a]) < Rank(issues[j]);
    }
  }

  // ---------------------------------------------------------------------------
  // The report: `missingByIssue`
  // ---------------------------------------------------------------------------

  /** A page as the report loop sees it: its full path, its path relative to the site root, and its text. */
  datatype Page = Page(path: string, rel: string, content: string)

  /** `.replace(/\\/g, '/')`: every backslash becomes a slash, every other character stays. */
  function ForwardSlashes(s: string): (r: string)
    ensures |r| == |s| && '\\' !in r
    ensures forall k :: 0 <= k < |s| ==> r[k] == if s[k] == '\\' then '/' else s[k]
  {
    if s == [] then [] else [if s[0] == '\\' then '/' else s[0]] + ForwardSlashes(s[1..])
  }

  /** The entry filed for a page: its relative path with backslashes turned into slashes. */
  function Entry(p: Page): string {
    ForwardSlashes(p.rel)
  }

  /** The entries filed under issue `i`: the pages showing it, in the order they are checked. */
  function FilesMissing(pages: seq<Page>, i: Issue): (r: seq<string>)
    ensures |r| <= |pages|
  {
    if pages == [] then []
    else
      var last := pages[|pages| - 1];
      FilesMissing(pages[..|pages| - 1], i) + (if Shows(last, i) then [Entry(last)] else [])
  }

  /** The page's checks show issue `i`. */
  predicate Shows(p: Page, i: Issue) {
    Missing(p.path, p.content, i)
  }

  /** Every page that shows `i` has its entry filed under `i`. */
  lemma {:induction false} FiledWhenShown(pages: seq<Page>, i: Issue, k: nat)
    requires k < |pages| && Shows(pages[k], i)
    ensures Entry(pages[k]) in FilesMissing(pages, i)
    decreases |pages|
  {
    var init := pages[..|pages| - 1];
    if k < |init| {
      assert init[k] == pages[k];
      FiledWhenShown(init, i, k);
    }
  }

  /** Every entry filed under `i` belongs to a page that shows `i`. */
  lemma {:induction false} FiledOnlyWhenShown(pages: seq<Page>, i: Issue, e: string)
    requires e in FilesMissing(pages, i)
    ensures exists k :: 0 <= k < |pages| && Entry(pages[k]) == e && Shows(pages[k], i)
    decreases |pages|
  {
    var init := pages[..|pages| - 1];
    if e in FilesMissing(init, i) {
      FiledOnlyWhenShown(init, i, e);
      var k :| 0 <= k < |init| && Entry(init[k]) == e && Shows(init[k], i);
      assert init[k] == pages[k];
    }
  }

  lemma TakeOneMore<T>(s: seq<T>, j: nat)
    requires j < |s|
    ensures s[..j + 1] == s[..j] + [s[j]]
  {
  }

  /** `for (const issue of issues) missingByIssue[issue].push(entry)`: the entry goes once under each listed issue. */
  method FileUnder(missing: map<Issue, seq<string>>, issues: seq<Issue>, entry: string) returns (next: map<Issue, seq<string>>)
    requires InReportOrder(issues)
    requires forall i: Issue :: i in missing
    ensures forall i: Issue :: i in next && next[i] == missing[i] + (if i in issues then [entry] else [])
  {
    next := missing;
    var j := 0;
    while j < |issues|
      invariant 0 <= j <= |issues|
      invariant forall i: Issue :: i in next && next[i] == missing[i] + (if i in issues[..j] then [entry] else [])
    {
      ReportOrderDistinct(issues, j);
      TakeOneMore(issues, j);
      next := next[issues[j] := next[issues[j]] + [entry]];
      j := j + 1;
    }
    assert issues[..j] == issues;
  }

  /** The report loop of `main`: every issue starts with an empty list, and each page's issues append its entry. */
  method Report(pages: seq<Page>) returns (missing: map<Issue, seq<string>>)
    ensures forall i: Issue :: i in missing && missing[i] == FilesMissing(pages, i)
  {
    missing := map[JsonLd := [], OgTags := [], Canonical := [], MetaDescription := [], Hreflang := [],
                   AppleTouchIcon := [], Manifest := []];
    forall i: Issue
      ensures i in missing && missing[i] == []
    {
      match i
      case JsonLd =>
      case OgTags =>
      case Canonical =>
      case MetaDescription =>
      case Hreflang =>
      case AppleTouchIcon =>
      case Manifest =>
    }
    var k := 0;
    assert pages[..k] == [];
    while k < |pages|
      invariant 0 <= k <= |pages|
      invariant forall i: Issue :: i in missing && missing[i] == FilesMissing(pages[..k], i)
    {
      var p := pages[k];
      var issues := CheckSeo(p.path, p.content);
      missing := FileUnder(missing, issues, Entry(p));
      assert pages[..k + 1][..k] == pages[..k];
      k := k + 1;
    }
    assert pages[..k] == pages;
  }
}
