/**
 * The build-time component injector and the duplicate-header repair
 * (scripts/auto/inject-components.js and scripts/auto/fix-duplicate-headers.js):
 * locale lookup by dotted key, the `data-i18n` text substitution, the English
 * link rewrite, the marker-delimited header/footer splice, and the gate that
 * rebuilds a page whose header was pasted twice. The two scripts carry
 * identical copies of `getNestedValue` and `applyTranslations`, modelled once;
 * their `convertLinksForEnglish` copies differ in the root link and are two
 * functions here.
 */
module Components {
  import opened Text

  // ---------------------------------------------------------------------------
  // Locale values and `getNestedValue`
  // ---------------------------------------------------------------------------

  /** What `JSON.parse` yields for a locale file (numbers are integers here). */
  datatype Json = Null | Bool(b: bool) | Num(n: int) | Str(s: string) | Obj(fields: map<string, Json>)

  /** JavaScript truthiness of a parsed value. */
  predicate Truthy(v: Json) {
    match v
    case Null => false
    case Bool(b) => b
    case Num(n) => n != 0
    case Str(s) => s != []
    case Obj(_) => true
  }

  /** One step of the reduce: `(o && o[k] !== undefined) ? o[k] : null`. */
  function Member(o: Json, k: string): Json {
    if Truthy(o) && o.Obj? && k in o.fields then o.fields[k] else Null
  }

  /** The reduce over the key's segments, left to right. */
  function Walk(o: Json, ks: seq<string>): Json
    decreases |ks|
  {
    if ks == [] then o else Walk(Member(o, ks[0]), ks[1..])
  }

  /** `getNestedValue(obj, key)`: `key.split('.')` walked from `obj`. */
  function GetNestedValue(obj: Json, key: string): Json {
    Walk(obj, Split(key, '.'))
  }

  /** The plain reading of a path: follow object members, failing at the first one that is missing. */
  function Lookup(o: Json, ks: seq<string>): Option<Json>
    decreases |ks|
  {
    if ks == [] then Some(o)
    else if o.Obj? && ks[0] in o.fields then Lookup(o.fields[ks[0]], ks[1..])
    else None
  }

  /** Once a step has produced `null`, every later step keeps it. */
  lemma {:induction false} WalkNull(ks: seq<string>)
    ensures Walk(Null, ks) == Null
    decreases |ks|
  {
    if ks != [] {
      WalkNull(ks[1..]);
    }
  }

  /** The reduce agrees with the plain reading, and yields `null` as soon as a segment is missing. */
  lemma {:induction false} WalkIsLookup(o: Json, ks: seq<string>)
    ensures Walk(o, ks) == if Lookup(o, ks).Some? then Lookup(o, ks).value else Null
    decreases |ks|
  {
    if ks != [] {
      if o.Obj? && ks[0] in o.fields {
        WalkIsLookup(o.fields[ks[0]], ks[1..]);
      } else {
        WalkNull(ks[1..]);
      }
    }
  }

  /** A dotted key built from dot-free segments is looked up segment by segment. */
  lemma GetNestedPath(o: Json, ks: seq<string>)
    requires |ks| >= 1 && forall i :: 0 <= i < |ks| ==> '.' !in ks[i]
    ensures GetNestedValue(o, Join(ks, '.')) == if Lookup(o, ks).Some? then Lookup(o, ks).value else Null
  {
    SplitJoin(ks, '.');
    WalkIsLookup(o, ks);
  }

  /** Without a locale object nothing is found. */
  lemma GetNestedNull(key: string)
    ensures GetNestedValue(Null, key) == Null
  {
    WalkNull(Split(key, '.'));
  }

  // ---------------------------------------------------------------------------
  // `applyTranslations`: `data-i18n="([^"]+)"([^>]*)>([^<]*)<` replaced globally
  // ---------------------------------------------------------------------------

  const I18nAttr: string := "data-i18n=\""

  /** The three groups of one match: the key, the other attributes, the element text. */
  datatype Tagged = Tagged(key: string, attrs: string, text: string)

  /** What a group of the pattern may hold. */
  predicate WellTagged(g: Tagged) {
    g.key != [] && '"' !in g.key && '>' !in g.attrs && '<' !in g.text
  }

  /** The text of a match whose element text is `body`. */
  function Render(g: Tagged, body: string): string {
    I18nAttr + g.key + ['"'] + g.attrs + ['>'] + body + ['<']
  }

  /** A text cut at the first occurrence of a character: what comes before it and what comes after it. */
  datatype Cut = Cut(before: string, after: string)

  /** `[^c]*c`: the run up to the first `c`, and the rest after that `c`. */
  function CutAt(s: string, c: char): (r: Option<Cut>)
    ensures r.Some? ==> s == r.value.before + [c] + r.value.after && c !in r.value.before
    ensures r.None? ==> c !in s
  {
    FindCharFirst(s, c);
    match FindChar(s, c)
    case None => None
    case Some(i) =>
      assert s == s[..i] + [c] + s[i + 1..];
      Some(Cut(s[..i], s[i + 1..]))
  }

  /** The cut is made at the first `c` and nowhere else. */
  lemma CutAtFirst(a: string, c: char, b: string)
    requires c !in a
    ensures CutAt(a + [c] + b, c) == Some(Cut(a, b))
  {
    var s := a + [c] + b;
    assert s[|a|] == c && s[..|a|] == a && s[|a| + 1..] == b;
    FindCharUnique(s, c, |a|);
  }

  /** The pattern at the start of `t`: each group runs up to the first character that ends it. */
  function TaggedAt(t: string): (r: Option<Tagged>)
    ensures r.Some? ==> WellTagged(r.value)
  {
    if !StartsWith(t, I18nAttr) then None
    else
      match CutAt(t[|I18nAttr|..], '"')
      case None => None
      case Some(k) =>
        if k.before == [] then None
        else
          match CutAt(k.after, '>')
          case None => None
          case Some(a) =>
            match CutAt(a.after, '<')
            case None => None
            case Some(x) => Some(Tagged(k.before, a.before, x.before))
  }

  /** A match found at the head of `t` is exactly the rendered element with its own text. */
  lemma TaggedAtParses(t: string)
    requires TaggedAt(t).Some?
    ensures StartsWith(t, Render(TaggedAt(t).value, TaggedAt(t).value.text))
  {
    var g := TaggedAt(t).value;
    var k := CutAt(t[|I18nAttr|..], '"').value;
    var a := CutAt(k.after, '>').value;
    var x := CutAt(a.after, '<').value;
    assert t == I18nAttr + t[|I18nAttr|..];
    Regroup(I18nAttr, g.key, ['"'], g.attrs, ['>'], g.text, ['<'], x.after);
  }

  lemma Regroup<T>(a: seq<T>, b: seq<T>, c: seq<T>, d: seq<T>, e: seq<T>, f: seq<T>, h: seq<T>, rest: seq<T>)
    ensures a + (b + c + (d + e + (f + h + rest))) == a + b + c + d + e + f + h + rest
  {
  }

  /** Conversely, a rendered element is parsed back into its own groups. */
  lemma TaggedAtRender(g: Tagged, rest: string)
    requires WellTagged(g)
    ensures TaggedAt(Render(g, g.text) + rest) == Some(g)
  {
    var t := Render(g, g.text) + rest;
    var w := g.text + ['<'] + rest;
    var v := g.attrs + ['>'] + w;
    var u := g.key + ['"'] + v;
    Regroup(I18nAttr, g.key, ['"'], g.attrs, ['>'], g.text, ['<'], rest);
    assert t[|I18nAttr|..] == u;
    CutAtFirst(g.key, '"', v);
    CutAtFirst(g.attrs, '>', w);
    CutAtFirst(g.text, '<', rest);
  }

  /** `translated && typeof translated === 'string'`: a non-empty string found under the key. */
  function Translation(locale: Json, key: string): Option<string> {
    var v := GetNestedValue(locale, key);
    if v.Str? && v.s != [] then Some(v.s) else None
  }

  /** The replacement callback: a usable translation replaces the text; otherwise the match is kept. */
  function TranslateHit(locale: Json, t: string): Option<Hit> {
    match TaggedAt(t)
    case None => None
    case Some(g) =>
      var body := if Translation(locale, g.key).Some? then Translation(locale, g.key).value else g.text;
      Some(Hit(|Render(g, g.text)|, Render(g, body)))
  }

  function TranslateMatcher(locale: Json): Matcher {
    t => TranslateHit(locale, t)
  }

  lemma TranslateMatcherApplies(locale: Json, t: string)
    ensures TranslateMatcher(locale)(t) == TranslateHit(locale, t)
  {
  }

  /** `applyTranslations(html, locale)`. */
  function ApplyTranslations(html: string, locale: Json): string {
    ReplaceMatches(html, TranslateMatcher(locale))
  }

  /**
   * Each match keeps the key and the other attributes and changes only the text
   * between `>` and `<`: to the translation when there is one, else to itself.
   */
  lemma TranslateHitShape(locale: Json, t: string)
    requires TaggedAt(t).Some?
    ensures var g := TaggedAt(t).value;
      var h := TranslateHit(locale, t).value;
      TranslateHit(locale, t).Some? && t[..h.len] == Render(g, g.text) &&
      h.out == Render(g, if Translation(locale, g.key).Some? then Translation(locale, g.key).value else g.text)
  {
    TaggedAtParses(t);
  }

  /** With no usable translation for any key, the text is unchanged. */
  lemma UntranslatedUnchanged(html: string, locale: Json)
    requires forall k :: Translation(locale, k).None?
    ensures ApplyTranslations(html, locale) == html
  {
    var m := TranslateMatcher(locale);
    forall t | Fires(m, t) ensures m(t).value.out == t[..m(t).value.len] {
      TranslateMatcherApplies(locale, t);
      TranslateHitShape(locale, t);
    }
    ReplaceMatchesKeepsText(html, m);
  }

  /** In particular a missing locale changes nothing. */
  lemma NoLocaleUnchanged(html: string)
    ensures ApplyTranslations(html, Null) == html
  {
    forall k ensures Translation(Null, k).None? {
      GetNestedNull(k);
    }
    UntranslatedUnchanged(html, Null);
  }

  /** One element with a translation for its key: its text is replaced and the rest of the text follows. */
  lemma TranslatesElement(g: Tagged, locale: Json, rest: string)
    requires WellTagged(g) && Translation(locale, g.key).Some?
    ensures ApplyTranslations(Render(g, g.text) + rest, locale) ==
      Render(g, Translation(locale, g.key).value) + ApplyTranslations(rest, locale)
  {
    var t := Render(g, g.text) + rest;
    var m := TranslateMatcher(locale);
    TaggedAtRender(g, rest);
    TranslateMatcherApplies(locale, t);
    ReplaceMatchesFires(t, m);
    assert t[|Render(g, g.text)|..] == rest;
  }

  // ---------------------------------------------------------------------------
  // `convertLinksForEnglish`: three global literal replacements in order
  // ---------------------------------------------------------------------------

  const Href: string := "href=\"/"
  const ToolsLink: string := Href + "tools/"
  const PagesLink: string := Href + "pages/"
  const RootLink: string := Href + "\""
  const EnToolsLink: string := Href + "en/tools/"
  const EnPagesLink: string := Href + "en/pages/"
  /** The root link of scripts/auto/inject-components.js. */
  const EnRoot: string := Href + "en\""
  /** The root link of scripts/auto/fix-duplicate-headers.js. */
  const EnRootSlash: string := Href + "en/\""

  /** The shared pipeline, parameterised by what the root link becomes. */
  function ConvertLinks(html: string, root: string): string {
    ReplaceAll(ReplaceAll(ReplaceAll(html, ToolsLink, EnToolsLink), PagesLink, EnPagesLink), RootLink, root)
  }

  /** `convertLinksForEnglish` of the injector: `href="/"` becomes `href="/en"`. */
  function ConvertLinksForEnglish(html: string): string {
    ConvertLinks(html, EnRoot)
  }

  /** `convertLinksForEnglish` of the header repair: `href="/"` becomes `href="/en/"`. */
  function ConvertLinksWithSlash(html: string): string {
    ConvertLinks(html, EnRootSlash)
  }

  lemma HrefChars()
    ensures |Href| == 7 && Href[0] == 'h' && 'h' !in Href[1..]
  {
  }

  /** Two links that agree on `href="/` and part right after it: rewriting to one cannot create the other. */
  lemma HrefPair(x: string, y: string)
    requires |x| > 0 && |y| > 0 && x[0] != y[0] && 'h' !in x && 'h' !in y
    ensures NoNewOccurrence(Href + x, Href + y)
  {
    HrefChars();
    var r := Href + x;
    var q := Href + y;
    assert r[1..] == Href[1..] + x;
    assert q[1..] == Href[1..] + y;
    assert r[7] == x[0] && q[7] == y[0];
  }

  lemma LinkTails()
    ensures "tools/"[0] == 't' && 'h' !in "tools/"
    ensures "pages/"[0] == 'p' && 'h' !in "pages/"
    ensures "\""[0] == '"' && 'h' !in "\""
    ensures "en/tools/"[0] == 'e' && 'h' !in "en/tools/"
    ensures "en/pages/"[0] == 'e' && 'h' !in "en/pages/"
    ensures "en\""[0] == 'e' && 'h' !in "en\""
    ensures "en/\""[0] == 'e' && 'h' !in "en/\""
  {
  }

  /** The English root link is one of the two rewrites. */
  predicate EnglishRoot(root: string) {
    root == EnRoot || root == EnRootSlash
  }

  /** After the rewrite no `/tools/`, `/pages/` or root link without the `/en` prefix is left. */
  lemma ConvertedLacksLinks(html: string, root: string)
    requires EnglishRoot(root)
    ensures var out := ConvertLinks(html, root);
      !Contains(out, ToolsLink) && !Contains(out, PagesLink) && !Contains(out, RootLink)
  {
    LinkTails();
    HrefPair("en/tools/", "tools/");
    HrefPair("en/pages/", "pages/");
    HrefPair("en/pages/", "tools/");
    var rt := if root == EnRoot then "en\"" else "en/\"";
    assert root == Href + rt;
    HrefPair(rt, "\"");
    HrefPair(rt, "tools/");
    HrefPair(rt, "pages/");
    var s1 := ReplaceAll(html, ToolsLink, EnToolsLink);
    var s2 := ReplaceAll(s1, PagesLink, EnPagesLink);
    ReplaceAllLeavesNo(html, ToolsLink, EnToolsLink, ToolsLink);
    ReplaceAllLeavesNo(s1, PagesLink, EnPagesLink, PagesLink);
    ReplaceAllLeavesNo(s1, PagesLink, EnPagesLink, ToolsLink);
    ReplaceAllLeavesNo(s2, RootLink, root, RootLink);
    ReplaceAllLeavesNo(s2, RootLink, root, ToolsLink);
    ReplaceAllLeavesNo(s2, RootLink, root, PagesLink);
  }

  /** Converting an already converted text changes nothing. */
  lemma ConvertLinksIdempotent(html: string, root: string)
    requires EnglishRoot(root)
    ensures ConvertLinks(ConvertLinks(html, root), root) == ConvertLinks(html, root)
  {
    var out := ConvertLinks(html, root);
    ConvertedLacksLinks(html, root);
    ReplaceAllAbsent(out, ToolsLink, EnToolsLink);
    ReplaceAllAbsent(out, PagesLink, EnPagesLink);
    ReplaceAllAbsent(out, RootLink, root);
  }
}
