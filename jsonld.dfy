/**
 * The JSON-LD injector of scripts/add-json-ld.js without the file system: a category or home index page is
 * recognised by its path, gets a schema.org record for its kind and language, and the record's script is put in
 * front of the page's first `</head>`. `JSON.stringify` is left abstract: the rendering is a parameter.
 */
module JsonLd {
  import opened Text
  import opened SeoCheck

  // ---------------------------------------------------------------------------
  // Page kinds from the path
  // ---------------------------------------------------------------------------

  datatype Kind = DevTools | LifeTools | PdfTools | AllTools | Homepage

  /** The six path patterns, in the order they are tried (the last two both mean the homepage). */
  datatype Route = DevRoute | LifeRoute | PdfRoute | ToolsRoute | EnHomeRoute | RepoHomeRoute

  const IndexHtml: string := "index.html"

  /** The part of a pattern before its final `[\/\\]index\.html`, separators written `/`. */
  function Dir(r: Route): string {
    match r
    case DevRoute => "/tools/dev"
    case LifeRoute => "/tools/life"
    case PdfRoute => "/tools/pdf"
    case ToolsRoute => "/tools"
    case EnHomeRoute => "/en"
    case RepoHomeRoute => "toolneat"
  }

  /** The whole pattern, anchored at the end of the path. */
  function Tail(r: Route): string {
    Dir(r) + ['/'] + IndexHtml
  }

  function KindOf(r: Route): Kind {
    match r
    case DevRoute => DevTools
    case LifeRoute => LifeTools
    case PdfRoute => PdfTools
    case ToolsRoute => AllTools
    case EnHomeRoute => Homepage
    case RepoHomeRoute => Homepage
  }

  /** `t` matches `pat` where each `/` of `pat` stands for the class `[\/\\]` and every other character for itself. */
  predicate SepMatch(t: string, pat: string) {
    |t| == |pat| &&
    forall k :: 0 <= k < |pat| ==> if pat[k] == '/' then t[k] == '/' || t[k] == '\\' else t[k] == pat[k]
  }

  /** `s.match(/…$/)` for a pattern written with `/` separators. */
  predicate Matches(s: string, pat: string) {
    |pat| <= |s| && SepMatch(s[|s| - |pat|..], pat)
  }

  /**
   * The page kind `addJsonLdToPage` settles on for a path whose backslashes are already slashes, or None when
   * it returns null: the path must end in `/index.html`, and the patterns are tried in order.
   */
  function PageKind(rel: string): (r: Option<Kind>)
    ensures r.Some? ==> EndsWith(rel, ['/'] + IndexHtml) || EndsWith(rel, ['\\'] + IndexHtml)
  {
    if !(EndsWith(rel, ['/'] + IndexHtml) || EndsWith(rel, ['\\'] + IndexHtml)) then None
    else if Matches(rel, Tail(DevRoute)) then Some(DevTools)
    else if Matches(rel, Tail(LifeRoute)) then Some(LifeTools)
    else if Matches(rel, Tail(PdfRoute)) then Some(PdfTools)
    else if Matches(rel, Tail(ToolsRoute)) then Some(AllTools)
    else if Matches(rel, Tail(EnHomeRoute)) || Matches(rel, Tail(RepoHomeRoute)) then Some(Homepage)
    else None
  }

  /** The last character of each directory part, which tells the patterns apart. */
  function Key(r: Route): char {
    match r
    case DevRoute => 'v'
    case LifeRoute => 'e'
    case PdfRoute => 'f'
    case ToolsRoute => 's'
    case EnHomeRoute => 'n'
    case RepoHomeRoute => 't'
  }

  lemma DirShape(r: Route)
    ensures |Dir(r)| >= 1 && Dir(r)[|Dir(r)| - 1] == Key(r) && Key(r) != '/'
  {
  }

  lemma IndexHtmlPlain()
    ensures |IndexHtml| == 10 && forall k :: 0 <= k < |IndexHtml| ==> IndexHtml[k] != '/'
  {
  }

  /** A match of `a + b` is a match of `b` at the very end, and of `a` just before it. */
  lemma MatchesSplit(s: string, a: string, b: string)
    requires Matches(s, a + b)
    ensures Matches(s, b) && Matches(s[..|s| - |b|], a)
  {
    var t := s[|s| - |a + b|..];
    forall k | 0 <= k < |b|
      ensures if b[k] == '/' then s[|s| - |b|..][k] == '/' || s[|s| - |b|..][k] == '\\' else s[|s| - |b|..][k] == b[k]
    {
      assert (a + b)[|a| + k] == b[k];
      assert t[|a| + k] == s[|s| - |b|..][k];
    }
    forall k | 0 <= k < |a|
      ensures if a[k] == '/' then s[..|s| - |b|][|s| - |b| - |a|..][k] == '/' || s[..|s| - |b|][|s| - |b| - |a|..][k] == '\\'
              else s[..|s| - |b|][|s| - |b| - |a|..][k] == a[k]
    {
      assert (a + b)[k] == a[k];
      assert t[k] == s[..|s| - |b|][|s| - |b| - |a|..][k];
    }
  }

  /** A pattern ending in a plain character puts that character at the end of the path. */
  lemma MatchesLast(s: string, d: string)
    requires Matches(s, d) && d != [] && d[|d| - 1] != '/'
    ensures |s| >= 1 && s[|s| - 1] == d[|d| - 1]
  {
    assert s[|s| - |d|..][|d| - 1] == s[|s| - 1];
  }

  /** A match of a separator followed by plain text is `/text` or `\text` at the end. */
  lemma SeparatedEnd(s: string, w: string)
    requires Matches(s, ['/'] + w) && forall k :: 0 <= k < |w| ==> w[k] != '/'
    ensures EndsWith(s, ['/'] + w) || EndsWith(s, ['\\'] + w)
  {
    var u := ['/'] + w;
    var t := s[|s| - |u|..];
    var v := [t[0]] + w;
    forall k | 0 <= k < |t|
      ensures t[k] == v[k]
    {
      if k > 0 {
        assert u[k] == w[k - 1];
      }
    }
    assert t == v;
    assert t[0] == '/' || t[0] == '\\';
  }

  /** A pattern that matches puts its key twelve characters from the end, and the path ends in `/index.html` or `\index.html`. */
  lemma MatchKey(s: string, r: Route)
    requires Matches(s, Tail(r))
    ensures |s| >= 12 && s[|s| - 12] == Key(r)
    ensures EndsWith(s, ['/'] + IndexHtml) || EndsWith(s, ['\\'] + IndexHtml)
  {
    assert Tail(r) == Dir(r) + (['/'] + IndexHtml);
    MatchesSplit(s, Dir(r), ['/'] + IndexHtml);
    IndexHtmlPlain();
    DirShape(r);
    MatchesLast(s[..|s| - 11], Dir(r));
    SeparatedEnd(s, IndexHtml);
  }

  lemma KeyInjective(r: Route, q: Route)
    requires Key(r) == Key(q)
    ensures r == q
  {
  }

  /**
   * At most one pattern matches a path, so the order in which they are tried does not matter: whichever pattern
   * matches decides the kind.
   */
  lemma RouteOfMatch(s: string, r: Route)
    requires Matches(s, Tail(r))
    ensures PageKind(s) == Some(KindOf(r))
  {
    MatchKey(s, r);
    forall q | Matches(s, Tail(q))
      ensures q == r
    {
      MatchKey(s, q);
      KeyInjective(r, q);
    }
  }

  /** A path that no pattern matches is not handled. */
  lemma NoRouteNoKind(s: string)
    requires forall r :: !Matches(s, Tail(r))
    ensures PageKind(s) == None
  {
    assert !Matches(s, Tail(DevRoute)) && !Matches(s, Tail(RepoHomeRoute));
  }

  // ---------------------------------------------------------------------------
  // Configurations and the two schema records
  // ---------------------------------------------------------------------------

  datatype Config = Config(name: string, description: string, url: string)

  const SiteUrl: string := "https://toolneat.com"

  /** `pageConfigs[kind][lang]`. */
  function PageConfig(k: Kind, english: bool): Config {
    match k
    case Homepage =>
      if english then Config("Toolneat - Free Online Tools", "Free online tools for developers and everyday life. Base64, JSON formatter, QR generator, PDF tools and 100+ more tools available for free.", "https://toolneat.com/en/")
      else Config("Toolneat - 온라인 도구 모음", "개발자와 일상생활에 필요한 무료 온라인 도구 모음. Base64, JSON 포맷터, QR 생성기, PDF 도구 등 100개 이상의 도구를 무료로 사용하세요.", "https://toolneat.com/")
    case AllTools =>
      if english then Config("All Tools", "Browse all free online tools on Toolneat. Developer tools, life tools, PDF tools - 100+ tools available for free.", "https://toolneat.com/en/tools/")
      else Config("모든 도구", "Toolneat의 모든 무료 온라인 도구를 한눈에. 개발 도구, 생활 도구, PDF 도구 100개 이상의 도구를 무료로 사용하세요.", "https://toolneat.com/tools/")
    case DevTools =>
      if english then Config("Developer Tools", "Free online tools for developers. Base64, JSON formatter, UUID generator, regex tester and 35+ more developer tools.", "https://toolneat.com/en/tools/dev/")
      else Config("개발 도구", "개발자를 위한 무료 온라인 도구 모음. Base64, JSON 포매터, UUID 생성기, 정규식 테스터 등 35개 이상의 개발 도구를 바로 사용하세요.", "https://toolneat.com/tools/dev/")
    case LifeTools =>
      if english then Config("Life Tools", "Free online tools for everyday life. QR generator, image editor, calculators, timers and 50+ more useful tools.", "https://toolneat.com/en/tools/life/")
      else Config("생활 도구", "일상생활에 유용한 무료 온라인 도구 모음. QR 생성기, 이미지 편집, 계산기, 타이머 등 50개 이상의 생활 도구를 바로 사용하세요.", "https://toolneat.com/tools/life/")
    case PdfTools =>
      if english then Config("PDF Tools", "Free online PDF editing tools. Merge, split, compress, convert PDFs and more with 10+ PDF tools.", "https://toolneat.com/en/tools/pdf/")
      else Config("PDF 도구", "PDF 파일을 쉽게 편집하는 무료 온라인 도구 모음. PDF 병합, 분할, 압축, 변환 등 10개 이상의 PDF 도구를 바로 사용하세요.", "https://toolneat.com/tools/pdf/")
  }

  /** `{"@type": kind, "name": …, "url": …}`. */
  datatype Entity = Entity(kind: string, name: string, url: string)

  /** The `potentialAction` of the homepage record. */
  datatype Action = Action(kind: string, target: string, queryInput: string)

  /** The two records the script builds, field for field. */
  datatype Schema =
    | WebSite(context: string, name: string, description: string, url: string, potentialAction: Action, publisher: Entity)
    | CollectionPage(context: string, name: string, description: string, url: string, isPartOf: Entity, provider: Entity)

  const SchemaOrg: string := "https://schema.org"
  const SearchQuery: string := "?q={search_term_string}"
  const Publisher: Entity := Entity("Organization", "Toolneat", SiteUrl)

  /** `generateWebSiteSchema`. */
  function WebSiteSchema(c: Config): (s: Schema)
    ensures s.WebSite? && s.name == c.name && s.description == c.description && s.url == c.url
    ensures StartsWith(s.potentialAction.target, s.url) && s.potentialAction.target[|s.url|..] == SearchQuery
  {
    assert (c.url + SearchQuery)[..|c.url|] == c.url;
    WebSite(SchemaOrg, c.name, c.description, c.url,
      Action("SearchAction", c.url + SearchQuery, "required name=search_term_string"), Publisher)
  }

  /** `generateCollectionPageSchema`. */
  function CollectionPageSchema(c: Config): (s: Schema)
    ensures s.CollectionPage? && s.name == c.name && s.description == c.description && s.url == c.url
  {
    CollectionPage(SchemaOrg, c.name, c.description, c.url, Entity("WebSite", "Toolneat", SiteUrl), Publisher)
  }

  // ---------------------------------------------------------------------------
  // The script and its insertion
  // ---------------------------------------------------------------------------

  /** `lines.join(sep)` with a text separator. */
  function JoinWith(ls: seq<string>, sep: string): string
    decreases |ls|
  {
    if |ls| == 0 then []
    else if |ls| == 1 then ls[0]
    else ls[0] + sep + JoinWith(ls[1..], sep)
  }

  const ScriptType: string := "<script type=\""
  const ScriptTail: string := "\">\n  "
  const ScriptClose: string := "\n  </script>"
  const Indent: string := "\n  "
  const HeadClose: string := "</head>"
  const NewlineHead: string := "\n" + HeadClose

  /** `getJsonLdScript`: the rendered record, every line after the first indented by two spaces, in a script element. */
  function JsonLdScript(rendered: string): string {
    ScriptType + JsonLdMarker + ScriptTail + JoinWith(Split(rendered, '\n'), Indent) + ScriptClose
  }

  /** The script carries the marker `hasJsonLd` and the SEO check look for, whatever follows it. */
  lemma ScriptHasMarker(rendered: string, after: string)
    ensures Contains(JsonLdScript(rendered) + after, JsonLdMarker)
  {
    var s := JsonLdScript(rendered) + after;
    var rest := ScriptTail + JoinWith(Split(rendered, '\n'), Indent) + ScriptClose + after;
    assert s == ScriptType + (JsonLdMarker + rest);
    assert s[|ScriptType|..] == JsonLdMarker + rest;
    assert (JsonLdMarker + rest)[..|JsonLdMarker|] == JsonLdMarker;
    ContainsAt(s, JsonLdMarker, |ScriptType|);
  }

  /** `content.replace('</head>', script + '\n</head>')`. */
  function InsertBeforeHead(content: string, script: string): string {
    ReplaceFirst(content, HeadClose, script + NewlineHead)
  }

  /** The script and a newline go in just before the first `</head>`; everything else is kept. */
  lemma InsertAtFirstHead(content: string, script: string, k: nat)
    requires k + |HeadClose| <= |content| && StartsWith(content[k..], HeadClose)
    requires forall i :: 0 <= i < k ==> !StartsWith(content[i..], HeadClose)
    ensures InsertBeforeHead(content, script) == content[..k] + script + "\n" + content[k..]
  {
    ReplaceFirstAt(content, HeadClose, script + NewlineHead, k);
    var rest := content[k + |HeadClose|..];
    assert content[k..] == HeadClose + rest;
    assert content[..k] + (script + ("\n" + HeadClose)) + rest == content[..k] + script + "\n" + (HeadClose + rest);
  }

  /** A page without `</head>` comes back unchanged. */
  lemma NoHeadUnchanged(content: string, script: string)
    requires !Contains(content, HeadClose)
    ensures InsertBeforeHead(content, script) == content
  {
  }

  /** An occurrence inside the middle piece is an occurrence in the whole. */
  lemma ContainsInMiddle(a: string, b: string, c: string, p: string)
    requires Contains(b, p)
    ensures Contains(a + b + c, p)
  {
    var i := IndexOf(b, p).value;
    assert (a + b + c)[|a| + i..] == b[i..] + c;
    assert (b[i..] + c)[..|p|] == b[i..][..|p|];
    ContainsAt(a + b + c, p, |a| + i);
  }

  /** Replacing the first occurrence of `p` by a text that contains `q` leaves a text that contains `q`. */
  lemma ReplaceFirstKeeps(s: string, p: string, r: string, q: string)
    requires Contains(s, p) && Contains(r, q)
    ensures Contains(ReplaceFirst(s, p, r), q)
  {
    var k := IndexOf(s, p).value;
    var out := s[..k] + r + s[k + |p|..];
    assert ReplaceFirst(s, p, r) == out;
    ContainsInMiddle(s[..k], r, s[k + |p|..], q);
  }

  /** With a `</head>`, the new page carries the marker. */
  lemma InsertedHasMarker(content: string, rendered: string)
    requires Contains(content, HeadClose)
    ensures Contains(InsertBeforeHead(content, JsonLdScript(rendered)), JsonLdMarker)
  {
    ScriptHasMarker(rendered, NewlineHead);
    ReplaceFirstKeeps(content, HeadClose, JsonLdScript(rendered) + NewlineHead, JsonLdMarker);
  }

  // ---------------------------------------------------------------------------
  // `addJsonLdToPage` and the per-file step of `main`
  // ---------------------------------------------------------------------------

  const EnDir: string := "/en/"

  /** The record for a path, or None for a page of no handled kind. */
  function SchemaFor(filePath: string): Option<Schema> {
    var rel := ForwardSlashes(filePath);
    var english := Contains(rel, EnDir);
    match PageKind(rel)
    case None => None
    case Some(k) =>
      var c := PageConfig(k, english);
      Some(if k == Homepage then WebSiteSchema(c) else CollectionPageSchema(c))
  }

  /** The page with the script of `schema` put before its first `</head>`, or None without a schema. */
  function Inject(schema: Option<Schema>, content: string, render: Schema -> string): Option<string> {
    match schema
    case None => None
    case Some(s) => Some(InsertBeforeHead(content, JsonLdScript(render(s))))
  }

  /** `addJsonLdToPage(filePath, content)`, with `JSON.stringify(…, null, 2)` as `render`. */
  function AddJsonLd(filePath: string, content: string, render: Schema -> string): Option<string> {
    Inject(SchemaFor(filePath), content, render)
  }

  /**
   * The homepage gets the WebSite record and every other kind a CollectionPage, each with the name, description
   * and URL configured for the kind and the language (`/en/` in the path means English).
   */
  lemma SchemaForKind(filePath: string, k: Kind)
    requires PageKind(ForwardSlashes(filePath)) == Some(k)
    ensures var c := PageConfig(k, Contains(ForwardSlashes(filePath), EnDir));
      SchemaFor(filePath).Some? && (SchemaFor(filePath).value.WebSite? <==> k == Homepage) &&
      SchemaFor(filePath).value.url == c.url && SchemaFor(filePath).value.name == c.name
  {
  }

  /** What one pass of `main` does with one file. */
  datatype Outcome = NotIndex | AlreadyHas | Added(content: string) | Unhandled

  /** `isIndexPage` of `main`, on the full path, its path relative to the root and the platform separator. */
  predicate IsIndexPage(file: string, rel: string, sep: string) {
    EndsWith(file, IndexHtml) &&
    (Contains(file, "tools" + sep + "dev" + sep + IndexHtml) ||
     Contains(file, "tools" + sep + "life" + sep + IndexHtml) ||
     Contains(file, "tools" + sep + "pdf" + sep + IndexHtml) ||
     Contains(file, "tools" + sep + IndexHtml) ||
     Matches(file, Tail(EnHomeRoute)) ||
     rel == IndexHtml)
  }

  /**
   * The body of `main`'s loop for one file, given what `isIndexPage` said about its path (`index`) and the record
   * its path selects (`schema`, that is `SchemaFor(file)`): index pages only, those already carrying JSON-LD are
   * skipped, and an empty result counts as unhandled because it is falsy.
   */
  function Process(index: bool, schema: Option<Schema>, content: string, render: Schema -> string): Outcome {
    if !index then NotIndex
    else if Contains(content, JsonLdMarker) then AlreadyHas
    else match Inject(schema, content, render)
      case None => Unhandled
      case Some(c) => if c == [] then Unhandled else Added(c)
  }

  /**
   * A second run adds nothing: a page that got its script is skipped as already having JSON-LD, and a page
   * without `</head>` was written back unchanged and is written unchanged again.
   */
  lemma RerunAddsNothing(index: bool, schema: Option<Schema>, content: string, render: Schema -> string)
    requires Process(index, schema, content, render).Added?
    ensures var c := Process(index, schema, content, render).content;
      Process(index, schema, c, render) == if Contains(content, HeadClose) then AlreadyHas else Added(c)
  {
    if Contains(content, HeadClose) {
      InsertedHasMarker(content, render(schema.value));
    }
  }

  /** Once the script is in, the SEO check no longer reports JSON-LD for the page. */
  lemma AddedPassesSeoCheck(index: bool, schema: Option<Schema>, content: string, render: Schema -> string, anyPath: string)
    requires Process(index, schema, content, render).Added? && Contains(content, HeadClose)
    ensures !Missing(anyPath, Process(index, schema, content, render).content, JsonLd)
  {
    InsertedHasMarker(content, render(schema.value));
  }
}
