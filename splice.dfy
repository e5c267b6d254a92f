/**
 * The marker-delimited splice of scripts/auto/inject-components.js and the
 * duplicate-header repair of scripts/auto/fix-duplicate-headers.js: the fixed
 * patterns they search for, written as matchers, the leftmost search
 * `String.prototype.match` performs, the header and footer stages, and the
 * gate of the repair.
 */
module Splice {
  import opened Text
  import opened Components

  // ---------------------------------------------------------------------------
  // The fixed patterns of the splice, each as a matcher at the start of a text
  // ---------------------------------------------------------------------------

  const DivLit: string := "<div"
  const IdLit: string := "id="
  const DivClose: string := "</div>"
  const SearchModal: string := "<div id=\"search-modal\">"
  const MainLit: string := "<main"
  const BodyClose: string := "</body>"
  const CommentOpen: string := "<!--"
  const MainWord: string := "main"
  const ContentWord: string := "content"
  const CommentClose: string := "-->"
  const ClassAttr: string := "class="

  predicate IsQuote(c: char) {
    c == '"' || c == '\''
  }

  /** Offset `i` moved past the whitespace that starts there: a greedy `\s*`. */
  function Skip(t: string, i: nat): (j: nat)
    requires i <= |t|
    ensures i <= j <= |t|
  {
    i + SpaceRun(t[i..])
  }

  /** `<div\s+id=["']NAME["']\s*>` under the `i` flag, at the start of `t`: the length of the match. */
  function MarkerAt(t: string, name: string): (r: Option<nat>)
    ensures r.Some? ==> 0 < r.value <= |t|
  {
    if !StartsWithIgnoreCase(t, DivLit) then None
    else
      var b := Skip(t, |DivLit|);
      if b == |DivLit| then None else QuotedNameAt(t, b, name)
  }

  /** The rest of a start marker from offset `b` on: `id=`, the name between quotes, spaces and `>`. */
  function QuotedNameAt(t: string, b: nat, name: string): (r: Option<nat>)
    requires b <= |t|
    ensures r.Some? ==> b < r.value <= |t|
  {
    var c := b + |IdLit|;
    if !StartsWithIgnoreCase(t[b..], IdLit) || c >= |t| || !IsQuote(t[c]) then None
    else
      var d := c + 1 + |name|;
      if !StartsWithIgnoreCase(t[c + 1..], name) || d >= |t| || !IsQuote(t[d]) then None
      else
        var e := Skip(t, d + 1);
        if e < |t| && t[e] == '>' then Some(e + 1) else None
  }

  /** The lookahead after a closing `</div>` and its whitespace: `(?=<div id="search-modal">|<main\s)` or `(?=<\/body>)`. */
  predicate Ahead(z: string, footer: bool) {
    if footer then StartsWith(z, BodyClose)
    else StartsWith(z, SearchModal) || (StartsWith(z, MainLit) && |MainLit| < |z| && IsSpace(z[|MainLit|]))
  }

  /** `<\/div>\s*` followed by the lookahead, at the start of `t`: the length consumed. */
  function EndAt(t: string, footer: bool): (r: Option<nat>)
    ensures r.Some? ==> |DivClose| <= r.value <= |t|
  {
    if !StartsWith(t, DivClose) then None
    else
      var n := Skip(t, |DivClose|);
      if Ahead(t[n..], footer) then Some(n) else None
  }

  /** `(\s*<!--\s*Main\s*Content\s*-->\s*<main|\s*<main\s+class=)` under the `i` flag: the first alternative, then the second. */
  function MainContentAt(t: string): (r: Option<nat>)
    ensures r.Some? ==> r.value <= |t|
  {
    var a := Skip(t, 0);
    var first := CommentedMainAt(t, a);
    if first.Some? then first else ClassedMainAt(t, a)
  }

  /** `<!--\s*Main\s*Content\s*-->\s*<main` from offset `a` on. */
  function CommentedMainAt(t: string, a: nat): (r: Option<nat>)
    requires a <= |t|
    ensures r.Some? ==> r.value <= |t|
  {
    if !StartsWithIgnoreCase(t[a..], CommentOpen) then None
    else
      var b := Skip(t, a + |CommentOpen|);
      if !StartsWithIgnoreCase(t[b..], MainWord) then None
      else
        var c := Skip(t, b + |MainWord|);
        if !StartsWithIgnoreCase(t[c..], ContentWord) then None
        else
          var d := Skip(t, c + |ContentWord|);
          if !StartsWithIgnoreCase(t[d..], CommentClose) then None
          else
            var e := Skip(t, d + |CommentClose|);
            if StartsWithIgnoreCase(t[e..], MainLit) then Some(e + |MainLit|) else None
  }

  /** `<main\s+class=` from offset `a` on. */
  function ClassedMainAt(t: string, a: nat): (r: Option<nat>)
    requires a <= |t|
    ensures r.Some? ==> r.value <= |t|
  {
    if !StartsWithIgnoreCase(t[a..], MainLit) then None
    else
      var b := Skip(t, a + |MainLit|);
      if b == a + |MainLit| || !StartsWithIgnoreCase(t[b..], ClassAttr) then None else Some(b + |ClassAttr|)
  }

  /** The patterns the scripts search for. */
  datatype Pattern = StartMarker(part: Part) | HeaderEnd | FooterEnd | MainContent

  function MatchAt(t: string, p: Pattern): (r: Option<nat>)
    ensures r.Some? ==> r.value <= |t|
  {
    match p
    case StartMarker(part) => MarkerAt(t, Name(part))
    case HeaderEnd => EndAt(t, false)
    case FooterEnd => EndAt(t, true)
    case MainContent => MainContentAt(t)
  }

  /** A match: where it starts and how long it is. */
  datatype Found = Found(at: nat, len: nat)

  /** `s.match(re)` without the `g` flag: the leftmost position where the pattern matches. */
  function Search(s: string, p: Pattern): (r: Option<Found>)
    ensures r.Some? ==> r.value.at + r.value.len <= |s|
    decreases |s|
  {
    match MatchAt(s, p)
    case Some(n) => Some(Found(0, n))
    case None =>
      if s == [] then None
      else
        match Search(s[1..], p)
        case None => None
        case Some(f) =>
          assert s[1..][f.at..] == s[f.at + 1..];
          Some(Found(f.at + 1, f.len))
  }

  /** What is found is a match of the pattern. */
  lemma {:induction false} SearchMatches(s: string, p: Pattern, f: Found)
    requires Search(s, p) == Some(f)
    ensures f.at <= |s| && MatchAt(s[f.at..], p) == Some(f.len)
    decreases |s|
  {
    match MatchAt(s, p)
    case Some(n) =>
      assert s[0..] == s;
    case None =>
      var g := Search(s[1..], p).value;
      SearchMatches(s[1..], p, g);
      assert s[1..][g.at..] == s[g.at + 1..];
  }

  /** The match found is the leftmost one, and no match is found only when the pattern matches nowhere. */
  lemma {:induction false} SearchFirst(s: string, p: Pattern)
    ensures Search(s, p).Some? ==> forall k :: 0 <= k < Search(s, p).value.at ==> MatchAt(s[k..], p).None?
    ensures Search(s, p).None? ==> forall k :: 0 <= k <= |s| ==> MatchAt(s[k..], p).None?
    decreases |s|
  {
    if MatchAt(s, p).None? && s != [] {
      SearchFirst(s[1..], p);
      forall k | 1 <= k <= |s| ensures s[k..] == s[1..][k - 1..] {
      }
      assert s[0..] == s;
    } else if MatchAt(s, p).None? {
      assert s[0..] == s;
    }
  }

  /** The pattern matches somewhere in `s`. */
  predicate Occurs(s: string, p: Pattern) {
    exists k :: 0 <= k <= |s| && MatchAt(s[k..], p).Some?
  }

  /** `match` finds something exactly when the pattern matches somewhere. */
  lemma SearchFindsAny(s: string, p: Pattern)
    ensures Search(s, p).Some? <==> Occurs(s, p)
  {
    SearchFirst(s, p);
    if Search(s, p).Some? {
      SearchMatches(s, p, Search(s, p).value);
    }
  }

  /** A match with none before it is the one found. */
  lemma SearchUnique(s: string, p: Pattern, k: nat)
    requires k <= |s| && MatchAt(s[k..], p).Some?
    requires forall i :: 0 <= i < k ==> MatchAt(s[i..], p).None?
    ensures Search(s, p) == Some(Found(k, MatchAt(s[k..], p).value))
  {
    SearchFirst(s, p);
    match Search(s, p)
    case None =>
    case Some(f) =>
      SearchMatches(s, p, f);
  }

  // ---------------------------------------------------------------------------
  // `injectComponents`: the header stage, then the footer stage
  // ---------------------------------------------------------------------------

  /** The component a stage splices in. */
  datatype Part = Header | Footer

  function Name(part: Part): string {
    if part == Header then "header" else "footer"
  }

  function EndOf(part: Part): Pattern {
    if part == Header then HeaderEnd else FooterEnd
  }

  datatype Span = Span(start: nat, end: nat)

  /** From the first start marker to the end of the first closing match after it. */
  function RegionOf(content: string, part: Part): (r: Option<Span>)
    ensures r.Some? ==> r.value.start < r.value.end <= |content|
  {
    match Search(content, StartMarker(part))
    case None => None
    case Some(m) => RegionFrom(content, part, m)
  }

  /** The region that starts with start marker `m`: up to the end of the first closing match after the marker. */
  function RegionFrom(content: string, part: Part, m: Found): (r: Option<Span>)
    requires m.at + m.len <= |content|
    ensures r.Some? ==> r.value.start == m.at && m.at + m.len < r.value.end <= |content|
  {
    match Search(content[m.at + m.len..], EndOf(part))
    case None => None
    case Some(e) => Some(Span(m.at, m.at + m.len + e.at + e.len))
  }

  /** `<div id="NAME">`. */
  function Tag(part: Part): string {
    DivLit + [' '] + IdLit + ['"'] + Name(part) + ['"', '>']
  }

  /** `<div id="NAME">\n${component}\n</div>`. */
  function Block(part: Part, comp: string): string {
    Tag(part) + (['\n'] + comp + ['\n']) + DivClose
  }

  /** The region's text differs from the new block, so the stage rewrites it. */
  predicate Changes(content: string, part: Part, comp: string) {
    var r := RegionOf(content, part);
    r.Some? && content[r.value.start..r.value.end] != Block(part, comp)
  }

  /** One stage: a found region is replaced by the block unless it already is the block. */
  function Stage(content: string, part: Part, comp: string): string {
    match RegionOf(content, part)
    case None => content
    case Some(r) =>
      if content[r.start..r.end] == Block(part, comp) then content
      else content[..r.start] + Block(part, comp) + content[r.end..]
  }

  /** `relativePath.startsWith('en' + path.sep) || relativePath.startsWith('en/')`. */
  predicate IsEnglishPage(rel: string, sep: string) {
    StartsWith(rel, "en" + sep) || StartsWith(rel, "en/")
  }

  /** The component as the page gets it: translated, then with English links on English pages. */
  function Prepare(html: string, locale: Json, english: bool): string {
    var t := ApplyTranslations(html, locale);
    if english then ConvertLinksForEnglish(t) else t
  }

  /**
   * `injectComponents` without the file system: the page text, its path relative to the site root, the path
   * separator, the two component files and the two locales; the new text and whether it changed.
   */
  method InjectComponents(content: string, rel: string, sep: string, headerHtml: string, footerHtml: string,
                          ko: Json, en: Json) returns (result: string, modified: bool)
    ensures var english := IsEnglishPage(rel, sep);
      var locale := if english then en else ko;
      var header := Prepare(headerHtml, locale, english);
      var footer := Prepare(footerHtml, locale, english);
      var mid := Stage(content, Header, header);
      result == Stage(mid, Footer, footer) &&
      modified == (Changes(content, Header, header) || Changes(mid, Footer, footer))
  {
    var english := IsEnglishPage(rel, sep);
    var locale := if english then en else ko;
    var header := Prepare(headerHtml, locale, english);
    var footer := Prepare(footerHtml, locale, english);
    var headerChanged, footerChanged;
    result, headerChanged := SpliceStage(content, Header, header);
    result, footerChanged := SpliceStage(result, Footer, footer);
    modified := headerChanged || footerChanged;
  }

  /** One marker-delimited stage of `injectComponents`, as the script writes it out for the header and the footer. */
  method SpliceStage(content: string, part: Part, comp: string) returns (result: string, changed: bool)
    ensures result == Stage(content, part, comp) && changed == Changes(content, part, comp)
  {
    result := content;
    changed := false;
    var r := RegionOf(content, part);
    if r.Some? {
      var block := Block(part, comp);
      if content[r.value.start..r.value.end] != block {
        result := content[..r.value.start] + block + content[r.value.end..];
        changed := true;
      }
    }
  }
  // ---------------------------------------------------------------------------
  // What a stage does
  // ---------------------------------------------------------------------------

  /** Text outside the region is kept: the result is the text before it, the block, and the text after it. */
  lemma StageFrame(content: string, part: Part, comp: string)
    ensures RegionOf(content, part).None? ==> Stage(content, part, comp) == content
    ensures RegionOf(content, part).Some? ==>
      var r := RegionOf(content, part).value;
      Stage(content, part, comp) == content[..r.start] + Block(part, comp) + content[r.end..]
  {
    if RegionOf(content, part).Some? {
      var r := RegionOf(content, part).value;
      Around(content, r.start, r.end);
    }
  }

  /** A stage reports a change exactly when the text changes. */
  lemma ChangesIff(content: string, part: Part, comp: string)
    ensures Changes(content, part, comp) <==> Stage(content, part, comp) != content
  {
    if Changes(content, part, comp) {
      var r := RegionOf(content, part).value;
      var b := Block(part, comp);
      var out := content[..r.start] + b + content[r.end..];
      if |out| == |content| {
        assert out[r.start..r.end] == b;
      }
    }
  }
  // ---------------------------------------------------------------------------
  // A second run of a stage finds its own block and changes nothing
  // ---------------------------------------------------------------------------

  predicate NoUpper(p: string) {
    forall k :: 0 <= k < |p| ==> !IsAsciiUpper(p[k])
  }

  /** A lower-case word matches itself under the `i` flag. */
  lemma IgnoreCaseSelf(p: string, y: string)
    requires NoUpper(p)
    ensures StartsWithIgnoreCase(p + y, p)
  {
    forall k | 0 <= k < |p| ensures LowerAscii((p + y)[k]) == p[k] {
      assert (p + y)[k] == p[k];
    }
  }

  lemma TagLits(part: Part)
    ensures NoUpper(DivLit) && NoUpper(IdLit) && NoUpper(Name(part))
    ensures |DivLit| == 4 && |IdLit| == 3 && IdLit[0] == 'i'
    ensures '<' !in DivLit[1..] && '<' !in IdLit && '<' !in Name(part)
  {
  }

  lemma Regroup6<T>(a: seq<T>, b: seq<T>, c: seq<T>, d: seq<T>, e: seq<T>, f: seq<T>, y: seq<T>)
    ensures a + b + c + d + e + f + y == a + (b + (c + (d + (e + (f + y)))))
  {
  }

  /** Dropping a known prefix. */
  lemma Peel(t: string, i: nat, a: string, b: string)
    requires i <= |t| && t[i..] == a + b
    ensures t[i + |a|..] == b
  {
    assert t[i + |a|..] == t[i..][|a|..];
  }

  /** The tag a stage writes is matched, whole, by the stage's start marker. */
  lemma MarkerOfTag(part: Part, y: string)
    ensures MarkerAt(Tag(part) + y, Name(part)) == Some(|Tag(part)|)
  {
    TagLits(part);
    var nm := Name(part);
    var t := Tag(part) + y;
    var p2 := IdLit + (['"'] + (nm + (['"'] + (['>'] + y))));
    var p1 := [' '] + p2;
    Regroup6(DivLit, [' '], IdLit, ['"'], nm, ['"', '>'], y);
    assert ['"', '>'] + y == ['"'] + (['>'] + y);
    assert t[0..] == DivLit + p1;
    IgnoreCaseSelf(DivLit, p1);
    Peel(t, 0, DivLit, p1);
    Peel(t, 4, [' '], p2);
    assert SpaceRun(p1) == 1;
    QuotedNameOfTag(t, 5, nm, y);
  }

  /** The part of the tag after `<div `: `id="NAME">`. */
  lemma QuotedNameOfTag(t: string, b: nat, nm: string, y: string)
    requires b <= |t| && t[b..] == IdLit + (['"'] + (nm + (['"'] + (['>'] + y)))) && NoUpper(nm)
    ensures QuotedNameAt(t, b, nm) == Some(b + 6 + |nm|)
  {
    TagLits(Header);
    var p6 := ['>'] + y;
    var p5 := ['"'] + p6;
    var p4 := nm + p5;
    var p3 := ['"'] + p4;
    IgnoreCaseSelf(IdLit, p3);
    Peel(t, b, IdLit, p3);
    Peel(t, b + 3, ['"'], p4);
    IgnoreCaseSelf(nm, p5);
    Peel(t, b + 4, nm, p5);
    Peel(t, b + 4 + |nm|, ['"'], p6);
    assert SpaceRun(p6) == 0;
  }
  /** Inside a case-blind match of a word without `<` there is no `<`. */
  lemma IgnoreCaseNoLt(x: string, a: nat, p: string, i: nat)
    requires a <= |x| && StartsWithIgnoreCase(x[a..], p) && a <= i < a + |p| && p[i - a] != '<'
    ensures x[i] != '<'
  {
    assert LowerAscii(x[a..][i - a]) == p[i - a];
  }

  /** Inside a run of whitespace there is no `<`. */
  lemma RunNoLt(x: string, a: nat, i: nat)
    requires a <= |x| && a <= i < Skip(x, a)
    ensures x[i] != '<'
  {
    SpaceRunAll(x[a..]);
    assert IsSpace(x[a..][i - a]);
  }

  /** No character of a start marker after its `<` is another `<`. */
  lemma MarkerNoLt(x: string, name: string)
    requires MarkerAt(x, name).Some? && '<' !in name
    ensures forall i :: 0 < i < MarkerAt(x, name).value ==> x[i] != '<'
  {
    TagLits(Header);
    var n := MarkerAt(x, name).value;
    var b := Skip(x, 4);
    forall i | 0 < i < n ensures x[i] != '<' {
      if i < 4 {
        assert DivLit[i] in DivLit[1..];
        IgnoreCaseNoLt(x, 0, DivLit, i);
      } else if i < b {
        RunNoLt(x, 4, i);
      } else {
        QuotedNameNoLt(x, b, name, i);
      }
    }
  }

  lemma QuotedNameNoLt(x: string, b: nat, name: string, i: nat)
    requires b <= |x| && QuotedNameAt(x, b, name).Some? && '<' !in name
    requires b <= i < QuotedNameAt(x, b, name).value
    ensures x[i] != '<'
  {
    TagLits(Header);
    var c := b + 3;
    var d := c + 1 + |name|;
    if i < c {
      IgnoreCaseNoLt(x, b, IdLit, i);
    } else if c < i < d {
      IgnoreCaseNoLt(x, c + 1, name, i);
    } else if d < i < Skip(x, d + 1) {
      RunNoLt(x, d + 1, i);
    }
  }

  /** Two texts that agree on their first `n` characters agree on a case-blind prefix test inside them. */
  lemma IgnoreCaseLocal(x: string, y: string, i: nat, p: string, n: nat)
    requires i + |p| <= n <= |x| && n <= |y| && x[..n] == y[..n]
    ensures StartsWithIgnoreCase(x[i..], p) == StartsWithIgnoreCase(y[i..], p)
  {
    forall k | 0 <= k < |p| ensures x[i..][k] == y[i..][k] {
      assert x[..n][i + k] == y[..n][i + k];
    }
  }

  /** A start marker is decided by the characters it matches. */
  lemma MarkerLocal(x: string, y: string, name: string)
    requires MarkerAt(x, name).Some?
    requires MarkerAt(x, name).value <= |y| && y[..MarkerAt(x, name).value] == x[..MarkerAt(x, name).value]
    ensures MarkerAt(y, name) == MarkerAt(x, name)
  {
    TagLits(Header);
    var n := MarkerAt(x, name).value;
    IgnoreCaseLocal(x, y, 0, DivLit, n);
    var b := Skip(x, 4);
    assert x[4..][..n - 4] == y[4..][..n - 4];
    SpaceRunLocal(x[4..], y[4..], n - 4);
    QuotedNameLocal(x, y, b, name);
  }

  lemma QuotedNameLocal(x: string, y: string, b: nat, name: string)
    requires b <= |x| && QuotedNameAt(x, b, name).Some?
    requires QuotedNameAt(x, b, name).value <= |y| && y[..QuotedNameAt(x, b, name).value] == x[..QuotedNameAt(x, b, name).value]
    ensures QuotedNameAt(y, b, name) == QuotedNameAt(x, b, name)
  {
    TagLits(Header);
    var n := QuotedNameAt(x, b, name).value;
    var c := b + 3;
    var d := c + 1 + |name|;
    IgnoreCaseLocal(x, y, b, IdLit, n);
    IgnoreCaseLocal(x, y, c + 1, name, n);
    assert x[..n][c] == y[..n][c] && x[..n][d] == y[..n][d];
    assert x[d + 1..][..n - d - 1] == y[d + 1..][..n - d - 1];
    SpaceRunLocal(x[d + 1..], y[d + 1..], n - d - 1);
    assert x[..n][n - 1] == y[..n][n - 1];
  }
  /** A start marker found in spliced text that starts before the splice point was already there. */
  lemma MarkerBeforeSplice(c: string, s: nat, z: string, name: string, k: nat)
    requires k < s <= |c| && z != [] && z[0] == '<' && '<' !in name
    ensures MarkerAt((c[..s] + z)[k..], name).Some? ==> MarkerAt(c[k..], name) == MarkerAt((c[..s] + z)[k..], name)
  {
    var y := (c[..s] + z)[k..];
    if MarkerAt(y, name).Some? {
      var n := MarkerAt(y, name).value;
      MarkerNoLt(y, name);
      assert y[s - k] == '<';
      assert n <= s - k;
      assert c[k..][..n] == y[..n];
      MarkerLocal(y, c[k..], name);
    }
  }

  lemma CloseLits()
    ensures |DivClose| == 6 && DivClose[0] == '<' && forall i :: 1 <= i < 6 ==> DivClose[i] != '<'
  {
  }

  lemma AheadLits()
    ensures |BodyClose| > 0 && '\n' !in BodyClose && Clash(DivClose, BodyClose)
    ensures |SearchModal| > 0 && '\n' !in SearchModal && Clash(DivClose, SearchModal)
    ensures |MainLit| > 0 && '\n' !in MainLit && Clash(DivClose, MainLit)
  {
    assert BodyClose[..6] != DivClose by { assert BodyClose[2] == 'b'; }
    assert DivClose[..|MainLit|] != MainLit by { assert MainLit[1] == 'm'; }
    assert SearchModal[..6] != DivClose by { assert SearchModal[1] == 'd'; }
  }

  /** A closing match never looks ahead at another `</div>`. */
  lemma AheadNotClose(rest: string, footer: bool)
    ensures !Ahead(DivClose + rest, footer)
  {
    AheadLits();
    ClashHead(DivClose, rest, BodyClose);
    ClashHead(DivClose, rest, SearchModal);
    ClashHead(DivClose, rest, MainLit);
  }

  /** A `</div>` that starts before a `<` ends before it. */
  lemma CloseBefore(x: string, k: nat, m: nat)
    requires k < m < |x| && x[m] == '<' && StartsWith(x[k..], DivClose)
    ensures k + |DivClose| <= m
  {
    CloseLits();
    var y := x[k..];
    forall i | k + 1 <= i < k + 6 ensures x[i] != '<' {
      assert x[i] == y[..6][i - k];
    }
  }

  /** A whitespace run that starts before a `<` ends before it. */
  lemma RunBefore(x: string, a: nat, m: nat)
    requires a <= m < |x| && x[m] == '<'
    ensures Skip(x, a) <= m
  {
    SpaceRunAll(x[a..]);
    assert x[a..][m - a] == '<';
  }

  /** A word without line breaks that starts before a line break ends before it. */
  lemma NoNewlineInside(x: string, j: nat, p: string, m: nat)
    requires j <= m < |x| && x[m] == '\n' && StartsWith(x[j..], p) && '\n' !in p
    ensures j + |p| <= m
  {
    forall i | j <= i < j + |p| ensures x[i] != '\n' {
      assert x[i] == x[j..][..|p|][i - j];
    }
  }

  /** A word found between the two line breaks around a component is in the component. */
  lemma LitInMiddle(comp: string, tail: string, p: string, j: nat)
    requires 1 <= j && j + |p| <= |comp| + 1
    requires StartsWith((['\n'] + comp + ['\n'] + tail)[j..], p)
    ensures Contains(comp, p)
  {
    var x := ['\n'] + comp + ['\n'] + tail;
    assert comp[j - 1..][..|p|] == x[j..][..|p|];
    ContainsAt(comp, p, j - 1);
  }

  /** What the closing pattern of a stage looks ahead for. */
  predicate Quiet(part: Part, comp: string) {
    if part == Footer then !Contains(comp, BodyClose) else !Contains(comp, SearchModal) && !Contains(comp, MainLit)
  }

  /** A closing match that starts inside a written block, before its own `</div>`, needs the lookahead text inside the component. */
  lemma EndInBlock(comp: string, rest: string, part: Part, k: nat)
    requires k < |comp| + 2
    ensures EndAt((['\n'] + comp + ['\n'] + (DivClose + rest))[k..], part == Footer).Some? ==> !Quiet(part, comp)
  {
    var a := ['\n'] + comp + ['\n'];
    var x := a + (DivClose + rest);
    var footer := part == Footer;
    var y := x[k..];
    if EndAt(y, footer).Some? {
      AheadLits();
      CloseLits();
      assert x[|a|] == '<' && x[|a| - 1] == '\n';
      CloseBefore(x, k, |a|);
      assert y[6..] == x[k + 6..];
      RunBefore(x, k + 6, |a|);
      var n := Skip(y, 6);
      var j := k + n;
      assert y[n..] == x[j..];
      AheadNotClose(rest, footer);
      assert x[|a|..] == DivClose + rest;
      assert j < |a|;
      if footer {
        NoNewlineInside(x, j, BodyClose, |a| - 1);
        LitInMiddle(comp, DivClose + rest, BodyClose, j);
      } else if StartsWith(x[j..], SearchModal) {
        NoNewlineInside(x, j, SearchModal, |a| - 1);
        LitInMiddle(comp, DivClose + rest, SearchModal, j);
      } else {
        NoNewlineInside(x, j, MainLit, |a| - 1);
        LitInMiddle(comp, DivClose + rest, MainLit, j);
      }
    }
  }
  /** Every lookahead text starts with `<`. */
  lemma AheadStart(z: string, footer: bool)
    requires Ahead(z, footer)
    ensures z != [] && z[0] == '<'
  {
    assert BodyClose[0] == '<' && SearchModal[0] == '<' && MainLit[0] == '<';
    if footer {
      assert z[..|BodyClose|][0] == z[0];
    } else if StartsWith(z, SearchModal) {
      assert z[..|SearchModal|][0] == z[0];
    } else {
      assert z[..|MainLit|][0] == z[0];
    }
  }

  /** A `</div>` right before a lookahead text is a closing match of length 6. */
  lemma CloseThenAhead(rest: string, footer: bool)
    requires Ahead(rest, footer)
    ensures EndAt(DivClose + rest, footer) == Some(|DivClose|)
  {
    AheadStart(rest, footer);
    CloseLits();
    var t := DivClose + rest;
    assert t[..6] == DivClose;
    assert t[6..] == rest;
    assert SpaceRun(rest) == 0;
  }

  /** No closing match starts inside a written block before its own `</div>`. */
  lemma NoEndInBlock(part: Part, comp: string, rest: string, x: string)
    requires Quiet(part, comp) && x == ['\n'] + comp + ['\n'] + (DivClose + rest)
    ensures forall k :: 0 <= k < |comp| + 2 ==> MatchAt(x[k..], EndOf(part)).None?
  {
    forall k | 0 <= k < |comp| + 2
      ensures MatchAt(x[k..], EndOf(part)).None?
    {
      EndInBlock(comp, rest, part, k);
    }
  }

  lemma CloseAfterBlock(part: Part, comp: string, rest: string, x: string)
    requires Ahead(rest, part == Footer) && x == ['\n'] + comp + ['\n'] + (DivClose + rest)
    ensures |comp| + 2 <= |x| && MatchAt(x[|comp| + 2..], EndOf(part)) == Some(|DivClose|)
  {
    assert x[|comp| + 2..] == DivClose + rest;
    CloseThenAhead(rest, part == Footer);
  }

  lemma EndOfBlock(part: Part, comp: string, rest: string)
    requires Quiet(part, comp) && Ahead(rest, part == Footer)
    ensures Search(['\n'] + comp + ['\n'] + (DivClose + rest), EndOf(part)) == Some(Found(|comp| + 2, |DivClose|))
  {
    var x := ['\n'] + comp + ['\n'] + (DivClose + rest);
    NoEndInBlock(part, comp, rest, x);
    CloseAfterBlock(part, comp, rest, x);
    SearchUnique(x, EndOf(part), |comp| + 2);
  }

  /** The text after a closing match is its lookahead text. */
  lemma EndAhead(t: string, footer: bool)
    requires EndAt(t, footer).Some?
    ensures Ahead(t[EndAt(t, footer).value..], footer)
  {
  }

  /** No start marker comes before a found region. */
  lemma RegionFirst(content: string, part: Part, s: nat, e: nat)
    requires RegionOf(content, part) == Some(Span(s, e))
    ensures forall k :: 0 <= k < s ==> MarkerAt(content[k..], Name(part)).None?
  {
    SearchFirst(content, StartMarker(part));
  }

  /** A found region is followed by the lookahead text of its closing match. */
  lemma RegionAhead(content: string, part: Part, s: nat, e: nat)
    requires RegionOf(content, part) == Some(Span(s, e))
    ensures e <= |content| && Ahead(content[e..], part == Footer)
  {
    var m := Search(content, StartMarker(part)).value;
    RegionAtMarker(content, part, m);
    var f := Search(content[m.at + m.len..], EndOf(part)).value;
    RegionFromAhead(content, part, m.at + m.len, f);
  }

  lemma RegionFromAhead(content: string, part: Part, i: nat, f: Found)
    requires i <= |content| && Search(content[i..], EndOf(part)) == Some(f)
    ensures i + f.at + f.len <= |content| && Ahead(content[i + f.at + f.len..], part == Footer)
  {
    SearchMatches(content[i..], EndOf(part), f);
    AheadAfter(content, i, f, part == Footer);
  }

  lemma AheadAfter(content: string, i: nat, f: Found, footer: bool)
    requires i <= |content| && f.at + f.len <= |content| - i
    requires MatchAt(content[i..][f.at..], if footer then FooterEnd else HeaderEnd) == Some(f.len)
    ensures Ahead(content[i + f.at + f.len..], footer)
  {
    EndAhead(content[i..][f.at..], footer);
    assert content[i..][f.at..][f.len..] == content[i + f.at + f.len..];
  }

  /** After a splice at `s` with no start marker before it, the first start marker is the block's tag. */
  lemma MarkerAfterSplice(c: string, s: nat, part: Part, y: string)
    requires s <= |c| && forall k :: 0 <= k < s ==> MarkerAt(c[k..], Name(part)).None?
    ensures Search(c[..s] + (Tag(part) + y), StartMarker(part)) == Some(Found(s, |Tag(part)|))
  {
    var z := Tag(part) + y;
    var once := c[..s] + z;
    TagLits(part);
    assert z[0] == '<';
    forall k | 0 <= k < s ensures MatchAt(once[k..], StartMarker(part)).None? {
      MarkerBeforeSplice(c, s, z, Name(part), k);
    }
    assert once[s..] == z;
    MarkerOfTag(part, y);
    SearchUnique(once, StartMarker(part), s);
  }

  /** The region is the one that starts at the first start marker. */
  lemma RegionAtMarker(t: string, part: Part, m: Found)
    requires Search(t, StartMarker(part)) == Some(m)
    ensures m.at + m.len <= |t| && RegionOf(t, part) == RegionFrom(t, part, m)
  {
  }

  lemma RegionFromFound(t: string, part: Part, s: nat, len: nat, e: nat, elen: nat, end: nat)
    requires s + len <= |t| && Search(t[s + len..], EndOf(part)) == Some(Found(e, elen)) && end == s + len + e + elen
    ensures RegionFrom(t, part, Found(s, len)) == Some(Span(s, end))
  {
  }

  /** After a splice at `s` with no start marker before it, the first start marker is the written block's tag. */
  lemma MarkerAfterBlock(c: string, s: nat, part: Part, comp: string, rest: string)
    requires s <= |c| && forall k :: 0 <= k < s ==> MarkerAt(c[k..], Name(part)).None?
    ensures Search(c[..s] + Block(part, comp) + rest, StartMarker(part)) == Some(Found(s, |Tag(part)|))
  {
    var y := ['\n'] + comp + ['\n'] + (DivClose + rest);
    assert c[..s] + Block(part, comp) + rest == c[..s] + (Tag(part) + y);
    MarkerAfterSplice(c, s, part, y);
  }

  /** After the tag of a written block, the first closing match is the block's own `</div>`. */
  lemma EndAfterTag(once: string, s: nat, part: Part, comp: string, rest: string)
    requires s + |Tag(part)| <= |once| && once[s + |Tag(part)|..] == ['\n'] + comp + ['\n'] + (DivClose + rest)
    requires Quiet(part, comp) && Ahead(rest, part == Footer)
    ensures Search(once[s + |Tag(part)|..], EndOf(part)) == Some(Found(|comp| + 2, |DivClose|))
  {
    EndOfBlock(part, comp, rest);
  }

  /** Spliced text: after the written tag, the first closing match is the block's own `</div>`. */
  lemma EndAfterBlock(pre: string, s: nat, part: Part, comp: string, rest: string)
    requires |pre| == s && Quiet(part, comp) && Ahead(rest, part == Footer)
    ensures var once := pre + Block(part, comp) + rest;
      s + |Tag(part)| <= |once| && Search(once[s + |Tag(part)|..], EndOf(part)) == Some(Found(|comp| + 2, |DivClose|))
  {
    var once := pre + Block(part, comp) + rest;
    DropTag(pre, Tag(part), ['\n'] + comp + ['\n'], DivClose, rest);
    EndAfterTag(once, s, part, comp, rest);
  }

  /** Spliced text whose first start marker is the written tag: the region ends where the tag's block ends. */
  lemma BlockRegionEnd(pre: string, s: nat, part: Part, comp: string, rest: string)
    requires |pre| == s && Quiet(part, comp) && Ahead(rest, part == Footer)
    ensures var once := pre + Block(part, comp) + rest;
      s + |Tag(part)| <= |once| && RegionFrom(once, part, Found(s, |Tag(part)|)) == Some(Span(s, s + |Block(part, comp)|))
  {
    EndAfterBlock(pre, s, part, comp, rest);
    RegionFromEnd(pre + Block(part, comp) + rest, s, part, comp);
  }

  lemma RegionFromEnd(once: string, s: nat, part: Part, comp: string)
    requires s + |Tag(part)| <= |once| && Search(once[s + |Tag(part)|..], EndOf(part)) == Some(Found(|comp| + 2, |DivClose|))
    ensures RegionFrom(once, part, Found(s, |Tag(part)|)) == Some(Span(s, s + |Block(part, comp)|))
  {
    var tagLen, blockLen := |Tag(part)|, |Block(part, comp)|;
    BlockLength(part, comp);
    assert s + blockLen == s + tagLen + (|comp| + 2) + |DivClose|;
    RegionFromFound(once, part, s, tagLen, |comp| + 2, |DivClose|, s + blockLen);
  }

  /** Spliced text whose first start marker is the written tag: its region is the written block. */
  lemma BlockRegion(pre: string, s: nat, part: Part, comp: string, rest: string)
    requires |pre| == s && Quiet(part, comp) && Ahead(rest, part == Footer)
    requires Search(pre + Block(part, comp) + rest, StartMarker(part)) == Some(Found(s, |Tag(part)|))
    ensures RegionOf(pre + Block(part, comp) + rest, part) == Some(Span(s, s + |Block(part, comp)|))
  {
    RegionAtMarker(pre + Block(part, comp) + rest, part, Found(s, |Tag(part)|));
    BlockRegionEnd(pre, s, part, comp, rest);
  }

  /** In a stage's output, the first start marker is the tag of the block it wrote. */
  lemma MarkerFound(content: string, part: Part, comp: string, s: nat, e: nat)
    requires RegionOf(content, part) == Some(Span(s, e))
    ensures Search(content[..s] + Block(part, comp) + content[e..], StartMarker(part)) == Some(Found(s, |Tag(part)|))
  {
    RegionFirst(content, part, s, e);
    MarkerAfterBlock(content, s, part, comp, content[e..]);
  }

  lemma DropTag<T>(p: seq<T>, t: seq<T>, a: seq<T>, d: seq<T>, r: seq<T>)
    ensures (p + (t + a + d) + r)[|p| + |t|..] == a + (d + r)
  {
    assert p + (t + a + d) + r == (p + t) + (a + (d + r));
  }

  lemma BlockLength(part: Part, comp: string)
    ensures |Block(part, comp)| == |Tag(part)| + (|comp| + 2) + |DivClose|
    ensures |DivClose| == 6
  {
  }

  /**
   * A stage settles: run again on its own output with the same component, it finds the block it wrote and
   * leaves the text as it is. This holds when the component does not itself hold the text the closing
   * pattern looks ahead for.
   */
  lemma StageSettles(content: string, part: Part, comp: string)
    requires Quiet(part, comp)
    ensures var once := Stage(content, part, comp);
      !Changes(once, part, comp) && Stage(once, part, comp) == once
  {
    StageFrame(content, part, comp);
    if RegionOf(content, part).Some? {
      var r := RegionOf(content, part).value;
      var once := content[..r.start] + Block(part, comp) + content[r.end..];
      MarkerFound(content, part, comp, r.start, r.end);
      RegionAhead(content, part, r.start, r.end);
      BlockRegion(content[..r.start], r.start, part, comp, content[r.end..]);
      assert once[r.start..r.start + |Block(part, comp)|] == Block(part, comp);
    }
  }
}
