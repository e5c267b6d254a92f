/**
 * The guide-heading variant engine of `scripts/auto/diversify-headings.js`:
 * renames the five standard `<h3>` guide headings of a tool page after a
 * per-variant table, rewrites the intro heading's "...이란?" / "What is ...?"
 * frame, and for variants B and D cuts the five guide sections out of the
 * page's lines and puts them back in a permuted order.
 */
module Headings {
  import opened Text

  datatype Lang = Ko | En
  datatype Variant = A | B | C | D

  /** One row of `KO_VARIANTS` / `EN_VARIANTS`. */
  datatype HeadingTable = HeadingTable(
    headings: seq<(string, string)>,  // the `headings` object, in insertion order: standard label -> new label
    intro: Option<string>,            // `introReplace`: ko, what replaces the trailing "이란?"; en, what replaces "What is "
    order: Option<seq<nat>>)          // `order`: new position -> position of the section in the page

  // ---------------------------------------------------------------------------
  // Tables
  // ---------------------------------------------------------------------------

  const KoStandard: seq<string> := ["주요 기능", "사용 방법", "활용 사례", "팁과 주의사항", "자주 묻는 질문"]
  const EnStandard: seq<string> := ["Key Features", "How to Use", "Common Use Cases", "Tips and Notes", "Frequently Asked Questions"]

  // The `headings` replacements of variants B, C and D, in the order of the standard labels
  const KoBLabels: seq<string> := ["핵심 기능", "이용 가이드", "이런 상황에서 유용해요", "알아두면 좋은 점", "궁금한 점 모음"]
  const KoCLabels: seq<string> := ["무엇을 할 수 있나요?", "사용 가이드", "추천 활용법", "참고사항", "Q&A"]
  const KoDLabels: seq<string> := ["기능 소개", "시작하기", "활용 팁", "주의할 점", "자주 하는 질문"]
  const EnBLabels: seq<string> := ["Core Features", "User Guide", "When This Comes in Handy", "Good to Know", "Common Questions"]
  const EnCLabels: seq<string> := ["What Can You Do?", "Getting Started Guide", "Recommended Uses", "Things to Keep in Mind", "Q&A"]
  const EnDLabels: seq<string> := ["Feature Overview", "Quick Start", "Usage Tips", "Important Notes", "FAQ"]

  function Pair(std: seq<string>, names: seq<string>): seq<(string, string)>
    requires |std| == |names|
  {
    seq(|std|, k requires 0 <= k < |std| => (std[k], names[k]))
  }

  function Table(lang: Lang, v: Variant): HeadingTable {
    match (lang, v)
    case (Ko, A) => HeadingTable(Pair(KoStandard, KoStandard), None, None)
    case (Ko, B) => HeadingTable(Pair(KoStandard, KoBLabels),
                                 Some(" 소개"), Some([1, 0, 2, 4, 3]))
    case (Ko, C) => HeadingTable(Pair(KoStandard, KoCLabels),
                                 Some(" 알아보기"), None)
    case (Ko, D) => HeadingTable(Pair(KoStandard, KoDLabels),
                                 Some("에 대해서"), Some([1, 0, 3, 2, 4]))
    case (En, A) => HeadingTable(Pair(EnStandard, EnStandard), None, None)
    case (En, B) => HeadingTable(Pair(EnStandard, EnBLabels),
                                 Some("About "), Some([1, 0, 2, 4, 3]))
    case (En, C) => HeadingTable(Pair(EnStandard, EnCLabels),
                                 Some("Understanding "), None)
    case (En, D) => HeadingTable(Pair(EnStandard, EnDLabels),
                                 Some("All About "), Some([1, 0, 3, 2, 4]))
  }

  function Standard(lang: Lang): seq<string> {
    if lang == Ko then KoStandard else EnStandard
  }

  /** `Object.values(variantDef.headings)`: the new labels, in table order. */
  function NewLabels(t: HeadingTable): (r: seq<string>)
    ensures |r| == |t.headings|
    ensures forall k :: 0 <= k < |r| ==> r[k] == t.headings[k].1
  {
    seq(|t.headings|, k requires 0 <= k < |t.headings| => t.headings[k].1)
  }

  /** `variantKeys[i % 4]`: the variant of the i-th tool page in sorted order. */
  function VariantOf(i: nat): Variant {
    [A, B, C, D][i % 4]
  }

  /** Pages four apart get the same variant, and every fourth page starting with the first keeps the original. */
  lemma VariantRoundRobin(i: nat)
    ensures VariantOf(i + 4) == VariantOf(i)
    ensures VariantOf(i) == A <==> i % 4 == 0
  {
  }

  // ---------------------------------------------------------------------------
  // The heading tag `<h3 class="text-lg font-semibold[^"]*mt-6 mb-3">`
  // ---------------------------------------------------------------------------

  const H3Prefix: string := "<h3 class=\"text-lg font-semibold"
  const H3Tail: string := "mt-6 mb-3\">"
  const H3Close: string := "</h3>"

  /** The strings the tag pattern denotes: the prefix, any quote-free run, then `mt-6 mb-3">`. */
  predicate IsH3Open(tag: string) {
    |tag| >= |H3Prefix| + |H3Tail| && StartsWith(tag, H3Prefix) && EndsWith(tag, H3Tail) &&
    '"' !in tag[|H3Prefix|..|tag| - 2]
  }

  /** Length of the heading tag at the start of `t`: it ends two characters after the first quote following the prefix. */
  function H3OpenLen(t: string): (r: Option<nat>)
    ensures r.Some? ==> r.value <= |t| && IsH3Open(t[..r.value])
  {
    if !StartsWith(t, H3Prefix) then None
    else
      match FindChar(t[|H3Prefix|..], '"')
      case None => None
      case Some(q) =>
        var close := |H3Prefix| + q;
        if q >= 9 && close + 2 <= |t| && t[close - 9..close + 2] == H3Tail then
          FindCharFirst(t[|H3Prefix|..], '"');
          assert t[..close + 2][|H3Prefix|..close] == t[|H3Prefix|..][..q];
          Some(close + 2)
        else
          None
  }

  /** Every tag the pattern denotes is found, and it is the only one at that position. */
  lemma H3OpenUnique(t: string, n: nat)
    requires n <= |t| && IsH3Open(t[..n])
    ensures H3OpenLen(t) == Some(n)
  {
    var tag := t[..n];
    var rest := t[|H3Prefix|..];
    assert tag[n - 2] == H3Tail[9] == '"';
    assert rest[..n - 2 - |H3Prefix|] == tag[|H3Prefix|..n - 2];
    FindCharUnique(rest, '"', n - 2 - |H3Prefix|);
    assert t[n - 11..n] == tag[n - 11..];
  }

  // ---------------------------------------------------------------------------
  // Step 1: label substitution
  // ---------------------------------------------------------------------------

  /** `<h3 ...>label</h3>` at the start of `t`: the tag's length. */
  function LabelAt(t: string, name: string): (r: Option<nat>)
    ensures r.Some? ==> r.value <= |t| && IsH3Open(t[..r.value]) && StartsWith(t[r.value..], name + H3Close)
  {
    match H3OpenLen(t)
    case None => None
    case Some(e) => if StartsWith(t[e..], name + H3Close) then Some(e) else None
  }

  /**
   * One round of `result.replace(/(<h3 class="text-lg font-semibold[^"]*mt-6 mb-3">)ORIGINAL(<\/h3>)/g, '$1NEW$2')`.
   * The opening tag, whatever extra classes it carries, is copied; only the label changes.
   */
  function LabelMatcher(original: string, replacement: string): Matcher {
    t => match LabelAt(t, original)
         case None => None
         case Some(e) => Some(Hit(e + |original| + |H3Close|, t[..e] + replacement + H3Close))
  }

  /** A label match consumes exactly tag + original + `</h3>` and emits the same tag + new label + `</h3>`. */
  lemma LabelMatchShape(t: string, original: string, replacement: string)
    ensures Fires(LabelMatcher(original, replacement), t) <==> LabelAt(t, original).Some?
    ensures LabelAt(t, original).Some? ==>
      var e := LabelAt(t, original).value;
      var h := LabelMatcher(original, replacement)(t).value;
      t[..h.len] == t[..e] + original + H3Close && h.out == t[..e] + replacement + H3Close
  {
    var m := LabelMatcher(original, replacement);
    match LabelAt(t, original)
    case None =>
      assert m(t) == None;
    case Some(e) =>
      assert m(t) == Some(Hit(e + |original| + |H3Close|, t[..e] + replacement + H3Close));
      assert t[e..][..|original + H3Close|] == original + H3Close;
      assert t[..e + |original| + |H3Close|] == t[..e] + t[e..][..|original + H3Close|];
  }

  function RelabelHeadings(html: string, pairs: seq<(string, string)>): string
    decreases |pairs|
  {
    if pairs == [] then html
    else RelabelHeadings(ReplaceMatches(html, LabelMatcher(pairs[0].0, pairs[0].1)), pairs[1..])
  }

  // ---------------------------------------------------------------------------
  // Step 2: the intro heading
  // ---------------------------------------------------------------------------

  const KoIntroTail: string := "이란?</h3>"
  const EnIntroHead: string := "What is "
  const EnIntroTail: string := "?</h3>"

  /** Number of characters before the first line terminator: how far `.` can reach. */
  function LineLen(t: string): (n: nat)
    ensures n <= |t|
    ensures forall k :: 0 <= k < n ==> !IsLineTerminator(t[k])
    ensures n < |t| ==> IsLineTerminator(t[n])
    decreases |t|
  {
    if t != [] && !IsLineTerminator(t[0]) then 1 + LineLen(t[1..]) else 0
  }

  /** No character of `s` is a line terminator: `s` is within reach of `.`. */
  predicate OnOneLine(s: string) {
    forall k :: 0 <= k < |s| ==> !IsLineTerminator(s[k])
  }

  /** The largest `x` in `[lo, hi]` where `p` occurs: where a greedy `.+` followed by `p` stops. */
  function LastAt(t: string, p: string, lo: nat, hi: int): (r: Option<nat>)
    requires hi <= |t|
    ensures r.Some? ==> lo <= r.value <= hi && StartsWith(t[r.value..], p)
    ensures r.Some? ==> forall z :: r.value < z <= hi ==> !StartsWith(t[z..], p)
    ensures r.None? ==> forall z :: lo <= z <= hi ==> !StartsWith(t[z..], p)
    decreases hi - lo + 1
  {
    if hi < lo then None
    else if StartsWith(t[hi..], p) then Some(hi)
    else LastAt(t, p, lo, hi - 1)
  }

  /** A Korean intro match: tag up to `e`, heading text up to `x` on one line, then `이란?</h3>`; only the suffix changes. */
  predicate KoIntroShape(t: string, e: nat, repl: string, h: Hit) {
    var x := h.len - |KoIntroTail|;
    e < x && h.len <= |t| && t[x..h.len] == KoIntroTail &&
    OnOneLine(t[e..x]) && h.out == t[..x] + repl + H3Close
  }

  /** An English intro match: tag up to `e`, `What is ` and a text up to `x` on one line, then `?</h3>`. */
  predicate EnIntroShape(t: string, e: nat, frame: string, h: Hit) {
    var x := h.len - |EnIntroTail|;
    e + |EnIntroHead| < x && h.len <= |t| &&
    t[e..e + |EnIntroHead|] == EnIntroHead && t[x..h.len] == EnIntroTail &&
    OnOneLine(t[e..x]) && h.out == t[..e] + frame + t[e + |EnIntroHead|..x] + H3Close
  }

  /** A Korean intro tail found on the heading's line gives a well-shaped hit. */
  lemma KoIntroShaped(t: string, e: nat, repl: string, x: nat)
    requires e <= |t| && e + 1 <= x && x <= e + LineLen(t[e..]) - |KoIntroTail| && StartsWith(t[x..], KoIntroTail)
    ensures KoIntroShape(t, e, repl, Hit(x + |KoIntroTail|, t[..x] + repl + H3Close))
  {
    assert t[e..x] == t[e..][..x - e];
  }

  /** An English intro head and tail found on the heading's line give a well-shaped hit. */
  lemma EnIntroShaped(t: string, e: nat, frame: string, x: nat)
    requires e <= |t| && StartsWith(t[e..], EnIntroHead)
    requires e + |EnIntroHead| + 1 <= x && x <= e + LineLen(t[e..]) - |EnIntroTail| && StartsWith(t[x..], EnIntroTail)
    ensures EnIntroShape(t, e, frame, Hit(x + |EnIntroTail|, t[..e] + frame + t[e + |EnIntroHead|..x] + H3Close))
  {
    assert t[e..x] == t[e..][..x - e];
    assert t[e..e + |EnIntroHead|] == t[e..][..|EnIntroHead|];
  }

  /**
   * `(<h3 ...>)(.+이란\?)(<\/h3>)` with the callback `introReplace`, which swaps
   * the trailing `이란?` for `repl`: the text runs to the last `이란?</h3>` on the line.
   */
  function KoIntroHit(t: string, repl: string): (r: Option<Hit>)
    ensures r.Some? ==> H3OpenLen(t).Some? && KoIntroShape(t, H3OpenLen(t).value, repl, r.value)
  {
    match H3OpenLen(t)
    case None => None
    case Some(e) =>
      var n := LineLen(t[e..]);
      match LastAt(t, KoIntroTail, e + 1, e + n - |KoIntroTail|)
      case None => None
      case Some(x) =>
        KoIntroShaped(t, e, repl, x);
        Some(Hit(x + |KoIntroTail|, t[..x] + repl + H3Close))
  }

  /**
   * `(<h3 ...>)(What is .+\?)(<\/h3>)` with the callback `introReplace`, which maps
   * `What is X?` to `frame + X`: X runs to the last `?</h3>` on the line.
   */
  function EnIntroHit(t: string, frame: string): (r: Option<Hit>)
    ensures r.Some? ==> H3OpenLen(t).Some? && EnIntroShape(t, H3OpenLen(t).value, frame, r.value)
  {
    match H3OpenLen(t)
    case None => None
    case Some(e) =>
      if !StartsWith(t[e..], EnIntroHead) then None
      else
        var n := LineLen(t[e..]);
        match LastAt(t, EnIntroTail, e + |EnIntroHead| + 1, e + n - |EnIntroTail|)
        case None => None
        case Some(x) =>
          EnIntroShaped(t, e, frame, x);
          Some(Hit(x + |EnIntroTail|, t[..e] + frame + t[e + |EnIntroHead|..x] + H3Close))
  }

  function IntroMatcher(lang: Lang, repl: string): Matcher {
    t => if lang == Ko then KoIntroHit(t, repl) else EnIntroHit(t, frame := repl)
  }

  /** Steps 1 and 2 of `applyVariant`: every label of the table in turn, then the intro heading. */
  function Relabel(html: string, lang: Lang, t: HeadingTable): string {
    var labelled := RelabelHeadings(html, t.headings);
    match t.intro
    case None => labelled
    case Some(repl) => ReplaceMatches(labelled, IntroMatcher(lang, repl))
  }

  // ---------------------------------------------------------------------------
  // Step 3: reordering the guide sections (`reorderSections`)
  // ---------------------------------------------------------------------------

  /** `re.test(line)` for the heading pattern with this label: a match at some offset at or after `k`. */
  predicate HasHeadingFrom(line: string, name: string, k: nat)
    decreases |line| - k
  {
    k < |line| && (LabelAt(line[k..], name).Some? || HasHeadingFrom(line, name, k + 1))
  }

  predicate HasHeading(line: string, name: string) {
    HasHeadingFrom(line, name, 0)
  }

  /** The first line at or after `from` holding a heading labelled `name`. */
  function FirstLineWith(lines: seq<string>, name: string, from: nat): (r: Option<nat>)
    ensures r.Some? ==> from <= r.value < |lines| && HasHeading(lines[r.value], name)
    ensures r.Some? ==> forall j :: from <= j < r.value ==> !HasHeading(lines[j], name)
    ensures r.None? ==> forall j :: from <= j < |lines| ==> !HasHeading(lines[j], name)
    decreases |lines| - from
  {
    if from >= |lines| then None
    else if HasHeading(lines[from], name) then Some(from)
    else FirstLineWith(lines, name, from + 1)
  }

  /** `sectionBounds` before sorting: the first heading line of each label that occurs, in label order. */
  function LocateStarts(lines: seq<string>, names: seq<string>): (r: seq<nat>)
    ensures |r| <= |names|
    ensures forall k :: 0 <= k < |r| ==> r[k] < |lines|
    decreases |names|
  {
    if names == [] then []
    else
      var prev := LocateStarts(lines, names[..|names| - 1]);
      match FirstLineWith(lines, names[|names| - 1], 0)
      case None => prev
      case Some(i) => prev + [i]
  }

  /** Every label is located exactly when some line carries it; a missing label shortens the list. */
  lemma {:induction false} LocateStartsComplete(lines: seq<string>, names: seq<string>)
    ensures |LocateStarts(lines, names)| == |names| <==>
            forall k :: 0 <= k < |names| ==> FirstLineWith(lines, names[k], 0).Some?
    decreases |names|
  {
    if names != [] {
      var init := names[..|names| - 1];
      var last := names[|names| - 1];
      LocateStartsComplete(lines, init);
      assert forall k :: 0 <= k < |init| ==> init[k] == names[k];
      var prev := LocateStarts(lines, init);
      assert |prev| <= |init|;
      if FirstLineWith(lines, last, 0).Some? {
        assert |LocateStarts(lines, names)| == |prev| + 1;
      } else {
        assert |LocateStarts(lines, names)| == |prev|;
      }
    }
  }

  predicate Sorted(xs: seq<nat>) {
    forall i, j :: 0 <= i < j < |xs| ==> xs[i] <= xs[j]
  }

  function Insert(x: nat, xs: seq<nat>): (r: seq<nat>)
    ensures |r| == |xs| + 1 && multiset(r) == multiset(xs) + multiset{x}
  {
    if xs == [] || x <= xs[0] then [x] + xs
    else
      assert xs == [xs[0]] + xs[1..];
      [xs[0]] + Insert(x, xs[1..])
  }

  lemma {:induction false} InsertSorted(x: nat, xs: seq<nat>)
    requires Sorted(xs)
    ensures Sorted(Insert(x, xs))
    ensures Insert(x, xs)[0] == if xs == [] || x <= xs[0] then x else xs[0]
  {
    if xs == [] || x <= xs[0] {
      SortedCons(x, xs);
    } else {
      SortedTail(xs);
      InsertSorted(x, xs[1..]);
      var rest := Insert(x, xs[1..]);
      assert |xs| > 1 ==> xs[0] <= xs[1];
      SortedCons(xs[0], rest);
    }
  }

  /** A head no larger than the first element of a sorted sequence keeps it sorted. */
  lemma SortedCons(h: nat, rest: seq<nat>)
    requires Sorted(rest) && (rest == [] || h <= rest[0])
    ensures Sorted([h] + rest)
  {
    var t := [h] + rest;
    forall i, j | 0 <= i < j < |t| ensures t[i] <= t[j] {
      if i == 0 {
        assert t[j] == rest[j - 1] && rest[0] <= rest[j - 1];
      } else {
        assert t[i] == rest[i - 1] && t[j] == rest[j - 1];
      }
    }
  }

  /** `sort((a, b) => a.startLine - b.startLine)` on the start lines. */
  function SortAsc(xs: seq<nat>): (r: seq<nat>)
    ensures |r| == |xs| && multiset(r) == multiset(xs)
  {
    if xs == [] then []
    else
      assert xs == [xs[0]] + xs[1..];
      Insert(xs[0], SortAsc(xs[1..]))
  }

  /** The sort puts the start lines in ascending order. */
  lemma {:induction false} SortAscSorted(xs: seq<nat>)
    ensures Sorted(SortAsc(xs))
  {
    if xs != [] {
      SortAscSorted(xs[1..]);
      InsertSorted(xs[0], SortAsc(xs[1..]));
    }
  }

  lemma SortedTail(a: seq<nat>)
    requires Sorted(a) && a != []
    ensures Sorted(a[1..])
  {
    forall i, j | 0 <= i < j < |a| - 1 ensures a[1..][i] <= a[1..][j] {
      assert a[1..][i] == a[i + 1] && a[1..][j] == a[j + 1];
    }
  }

  lemma SortedHeadLeast(a: seq<nat>, y: nat)
    requires Sorted(a) && y in multiset(a)
    ensures a != [] && a[0] <= y
  {
    var j :| 0 <= j < |a| && a[j] == y;
  }

  /** There is only one sorted arrangement of a multiset: any correct sort gives the same start lines. */
  lemma {:induction false} SortedUnique(a: seq<nat>, b: seq<nat>)
    requires Sorted(a) && Sorted(b) && multiset(a) == multiset(b)
    ensures a == b
    decreases |a|
  {
    if a != [] {
      assert a[0] in multiset(a);
      SortedHeadLeast(b, a[0]);
      SortedHeadLeast(a, b[0]);
      assert a[0] == b[0];
      assert a == [a[0]] + a[1..];
      assert b == [b[0]] + b[1..];
      assert multiset(a[1..]) == multiset(a) - multiset{a[0]};
      assert multiset(b[1..]) == multiset(b) - multiset{b[0]};
      SortedTail(a);
      SortedTail(b);
      SortedUnique(a[1..], b[1..]);
    }
  }

  /** `(line.match(/<div/g) || []).length - (line.match(/<\/div>/g) || []).length` */
  function Delta(line: string): int {
    Count(line, DivOpen) - Count(line, DivClose)
  }

  /** The running div balance of lines `lo` up to (not including) `hi`. */
  function Balance(lines: seq<string>, lo: nat, hi: nat): int
    requires lo <= hi <= |lines|
    decreases hi - lo
  {
    if lo == hi then 0 else Balance(lines, lo, hi - 1) + Delta(lines[hi - 1])
  }

  /** The first line at or after `from` where the balance counted from `s` goes negative. */
  function FirstDrop(lines: seq<string>, s: nat, from: nat): (r: Option<nat>)
    requires s < from
    ensures r.Some? ==> from <= r.value < |lines| && Balance(lines, s, r.value + 1) < 0
    ensures r.Some? ==> forall i :: from < i <= r.value ==> Balance(lines, s, i) >= 0
    ensures r.None? ==> forall i :: from < i <= |lines| ==> Balance(lines, s, i) >= 0
    decreases |lines| - from
  {
    if from >= |lines| then None
    else if Balance(lines, s, from + 1) < 0 then Some(from)
    else FirstDrop(lines, s, from + 1)
  }

  const DivOpen: string := "<div"
  const DivClose: string := "</div>"
  const MtDiv: string := "<div class=\"mt-"
  const AnyComment: string := "<!--"
  const AdComment: string := "<!-- Ad"

  /**
   * The trimmed line after a closing `</div>` that marks the end of the guide. `comment` is the
   * comment opener accepted there: `<!--` in `reorderSections`, `<!-- Ad` in `parseSections`.
   */
  predicate EndsGuide(next: string, comment: string) {
    next == DivClose || next == "" || StartsWith(next, comment) || StartsWith(next, MtDiv)
  }

  /** Line `i` is a lone `</div>` followed by an end-of-guide line, with the balance from `s` not positive. */
  predicate ClosesGuide(lines: seq<string>, s: nat, i: nat, comment: string)
    requires s < i < |lines|
  {
    Trim(lines[i]) == DivClose && i + 1 < |lines| && EndsGuide(Trim(lines[i + 1]), comment) && Balance(lines, s, i + 1) <= 0
  }

  function Min(a: nat, b: nat): nat {
    if a < b then a else b
  }

  /** The fallback: the first closing line at or after `from` and before line `s + window`. */
  function FallbackClose(lines: seq<string>, s: nat, from: nat, window: nat, comment: string): (r: Option<nat>)
    requires s < from
    ensures r.Some? ==> from <= r.value < Min(|lines|, s + window)
    decreases Min(|lines|, s + window) - from
  {
    if from >= Min(|lines|, s + window) then None
    else if ClosesGuide(lines, s, from, comment) then Some(from)
    else FallbackClose(lines, s, from + 1, window, comment)
  }

  /** Past the window's end the fallback finds nothing. */
  lemma FallbackExhausted(lines: seq<string>, s: nat, i: nat, window: nat, comment: string)
    requires s < i && Min(|lines|, s + window) <= i
    ensures FallbackClose(lines, s, i, window, comment).None?
  {
  }

  /** One line of the fallback scan: a closing line is the answer, any other line is passed over. */
  lemma FallbackStep(lines: seq<string>, s: nat, i: nat, window: nat, comment: string, closes: bool)
    requires s < i < Min(|lines|, s + window) && closes == ClosesGuide(lines, s, i, comment)
    ensures closes ==> FallbackClose(lines, s, i, window, comment) == Some(i)
    ensures !closes ==> FallbackClose(lines, s, i, window, comment) == FallbackClose(lines, s, i + 1, window, comment)
  {
  }

  /** The fallback's line is the first closing line in the window, and there is none when it finds nothing. */
  lemma {:induction false} FallbackCloseFirst(lines: seq<string>, s: nat, from: nat, window: nat, comment: string)
    requires s < from
    ensures var r := FallbackClose(lines, s, from, window, comment);
      (r.Some? ==> ClosesGuide(lines, s, r.value, comment)) &&
      (r.Some? ==> forall i :: from <= i < r.value ==> !ClosesGuide(lines, s, i, comment)) &&
      (r.None? ==> forall i :: from <= i < Min(|lines|, s + window) ==> !ClosesGuide(lines, s, i, comment))
    decreases Min(|lines|, s + window) - from
  {
    if from < Min(|lines|, s + window) {
      var closes := ClosesGuide(lines, s, from, comment);
      FallbackStep(lines, s, from, window, comment, closes);
      if !closes {
        FallbackCloseFirst(lines, s, from + 1, window, comment);
        var r := FallbackClose(lines, s, from + 1, window, comment);
        var stop := if r.Some? then r.value else Min(|lines|, s + window);
        forall i | from <= i < stop ensures !ClosesGuide(lines, s, i, comment) {
          if i == from {
            assert !closes;
          }
        }
      }
    }
  }

  /** `lastEnd`: one past the first balance drop; failing that, one past the fallback close; failing both, `s + 1`. */
  function LastSectionEnd(lines: seq<string>, s: nat): (e: nat)
    requires s < |lines|
    ensures s < e <= |lines|
  {
    match FirstDrop(lines, s, s + 1)
    case Some(i) => i + 1
    case None =>
      match FallbackClose(lines, s, s + 1, 80, AnyComment)
      case Some(i) => i + 1
      case None => s + 1
  }

  /** When the fallback decides, the balance up to the closing line is exactly zero: it never went negative. */
  lemma FallbackBalanced(lines: seq<string>, s: nat)
    requires s < |lines| && FirstDrop(lines, s, s + 1).None?
    requires FallbackClose(lines, s, s + 1, 80, AnyComment).Some?
    ensures Balance(lines, s, LastSectionEnd(lines, s)) == 0
  {
    FallbackCloseFirst(lines, s, s + 1, 80, AnyComment);
  }

  /** The section order of a variant: a permutation of the five textual positions. */
  predicate IsOrder(order: seq<nat>) {
    multiset(order) == multiset([0, 1, 2, 3, 4])
  }

  lemma OrderInRange(order: seq<nat>)
    requires IsOrder(order)
    ensures |order| == 5 && forall k :: 0 <= k < 5 ==> order[k] < 5
  {
    assert |order| == |multiset(order)| == 5;
    forall k | 0 <= k < 5 ensures order[k] < 5 {
      assert order[k] in multiset(order);
    }
  }

  /** Each section ends where the next begins; the last one at `lastEnd`. */
  function SectionEnds(starts: seq<nat>, lastEnd: nat): (ends: seq<nat>)
    requires |starts| == 5
    ensures |ends| == 5 && ends[4] == lastEnd
    ensures forall k :: 0 <= k < 4 ==> ends[k] == starts[k + 1]
  {
    starts[1..] + [lastEnd]
  }

  /** The bounds form five well-ordered spans inside the page. */
  predicate SpansFit(lines: seq<string>, starts: seq<nat>, ends: seq<nat>) {
    |starts| == 5 && |ends| == 5 && forall k :: 0 <= k < 5 ==> starts[k] <= ends[k] <= |lines|
  }

  /** Sorted start lines below `lastEnd` give spans that fit. */
  lemma SectionEndsFit(lines: seq<string>, starts: seq<nat>, lastEnd: nat)
    requires |starts| == 5 && Sorted(starts) && starts[4] < lastEnd <= |lines|
    ensures SpansFit(lines, starts, SectionEnds(starts, lastEnd))
  {
    var ends := SectionEnds(starts, lastEnd);
    forall k | 0 <= k < 5 ensures starts[k] <= ends[k] <= |lines| {
      if k < 4 {
        assert starts[k] <= starts[k + 1] <= starts[4];
      }
    }
  }

  /** The five spans `lines.slice(startLine, endLine)`, in textual order. */
  function Spans(lines: seq<string>, starts: seq<nat>, ends: seq<nat>): (r: seq<seq<string>>)
    requires SpansFit(lines, starts, ends)
    ensures |r| == 5
  {
    seq(5, k requires 0 <= k < 5 => lines[starts[k]..ends[k]])
  }

  /** `beforeSections + '\n' + reordered.join('\n') + '\n' + afterSections` */
  function Reassemble(lines: seq<string>, starts: seq<nat>, ends: seq<nat>, order: seq<nat>): string
    requires SpansFit(lines, starts, ends) && IsOrder(order)
  {
    OrderInRange(order);
    var spans := Spans(lines, starts, ends);
    var contents := seq(5, k requires 0 <= k < 5 => Join(spans[k], '\n'));
    var reordered := seq(5, k requires 0 <= k < 5 => contents[order[k]]);
    Join(lines[..starts[0]], '\n') + "\n" + Join(reordered, '\n') + "\n" + Join(lines[ends[4]..], '\n')
  }

  /** `reorderSections(html, variantDef, standardHeadings)` with the variant's new labels and order. */
  function Reorder(html: string, names: seq<string>, order: seq<nat>): string
    requires IsOrder(order)
  {
    var lines := Split(html, '\n');
    var found := LocateStarts(lines, names);
    if |found| != 5 then html
    else
      var starts := SortAsc(found);
      SortAscSorted(found);
      assert starts[4] in multiset(found);
      var lastEnd := LastSectionEnd(lines, starts[4]);
      SectionEndsFit(lines, starts, lastEnd);
      Reassemble(lines, starts, SectionEnds(starts, lastEnd), order)
  }

  // ---------------------------------------------------------------------------
  // What reordering does to the lines
  // ---------------------------------------------------------------------------

  /** A missing label means no reordering: the page comes back as it was. */
  lemma ReorderFailsClosed(html: string, names: seq<string>, order: seq<nat>, k: nat)
    requires IsOrder(order) && |names| == 5 && k < 5
    requires FirstLineWith(Split(html, '\n'), names[k], 0).None?
    ensures Reorder(html, names, order) == html
  {
    var lines := Split(html, '\n');
    LocateStartsComplete(lines, names);
    assert |LocateStarts(lines, names)| != 5;
  }

  /** The span at position `i`, or no lines when there is none. */
  function SpanAt(spans: seq<seq<string>>, i: nat): seq<string> {
    if i < |spans| then spans[i] else []
  }

  /** The spans taken in the order `o`, laid end to end. */
  function PickFlat(spans: seq<seq<string>>, o: seq<nat>): seq<string>
    decreases |o|
  {
    if o == [] then [] else SpanAt(spans, o[0]) + PickFlat(spans, o[1..])
  }

  lemma {:induction false} PickFlatAppend(spans: seq<seq<string>>, o1: seq<nat>, o2: seq<nat>)
    ensures PickFlat(spans, o1 + o2) == PickFlat(spans, o1) + PickFlat(spans, o2)
    decreases |o1|
  {
    if o1 != [] {
      assert (o1 + o2)[0] == o1[0];
      assert (o1 + o2)[1..] == o1[1..] + o2;
      PickFlatAppend(spans, o1[1..], o2);
    } else {
      assert o1 + o2 == o2;
    }
  }

  lemma PickFlatRemove(spans: seq<seq<string>>, p: seq<nat>, j: nat)
    requires j < |p|
    ensures multiset(PickFlat(spans, p)) == multiset(SpanAt(spans, p[j])) + multiset(PickFlat(spans, p[..j] + p[j + 1..]))
  {
    var a, c := p[..j], p[j + 1..];
    var b := [p[j]] + c;
    assert b[0] == p[j] && b[1..] == c;
    assert a + b == p;
    PickFlatAppend(spans, a, b);
    PickFlatAppend(spans, a, c);
  }

  /** Removing matching heads from two equal multisets leaves equal multisets. */
  lemma RemoveMatched(o: seq<nat>, p: seq<nat>, j: nat)
    requires o != [] && j < |p| && p[j] == o[0] && multiset(o) == multiset(p)
    ensures multiset(o[1..]) == multiset(p[..j] + p[j + 1..])
  {
    assert p == p[..j] + [p[j]] + p[j + 1..];
    assert multiset(p[..j] + p[j + 1..]) == multiset(p) - multiset{p[j]};
    assert o == [o[0]] + o[1..];
    assert multiset(o[1..]) == multiset(o) - multiset{o[0]};
  }

  /** Taking the spans in any rearrangement of the same positions yields the same lines, counted with multiplicity. */
  lemma {:induction false} PickFlatPermutation(spans: seq<seq<string>>, o: seq<nat>, p: seq<nat>)
    requires multiset(o) == multiset(p)
    ensures multiset(PickFlat(spans, o)) == multiset(PickFlat(spans, p))
    decreases |o|
  {
    if o == [] {
      assert |p| == |multiset(p)| == 0;
    } else {
      assert o[0] in multiset(p);
      var j :| 0 <= j < |p| && p[j] == o[0];
      var rest := p[..j] + p[j + 1..];
      RemoveMatched(o, p, j);
      PickFlatPermutation(spans, o[1..], rest);
      PickFlatRemove(spans, p, j);
    }
  }
  /** Joining each span and joining the results is joining all the lines, when no span is empty. */
  lemma {:induction false} JoinPicked(spans: seq<seq<string>>, o: seq<nat>)
    requires o != [] && forall k :: 0 <= k < |o| ==> o[k] < |spans| && spans[o[k]] != []
    ensures Join(seq(|o|, k requires 0 <= k < |o| => Join(spans[o[k]], '\n')), '\n') == Join(PickFlat(spans, o), '\n')
    decreases |o|
  {
    var joined := seq(|o|, k requires 0 <= k < |o| => Join(spans[o[k]], '\n'));
    if |o| == 1 {
      assert o[1..] == [];
      assert PickFlat(spans, o) == spans[o[0]] + PickFlat(spans, o[1..]) == spans[o[0]];
    } else {
      var tail := o[1..];
      JoinPicked(spans, tail);
      assert joined[1..] == seq(|tail|, k requires 0 <= k < |tail| => Join(spans[tail[k]], '\n'));
      assert PickFlat(spans, tail) != [] by {
        assert PickFlat(spans, tail) == spans[tail[0]] + PickFlat(spans, tail[1..]);
      }
      JoinAppend(spans[o[0]], PickFlat(spans, tail), '\n');
    }
  }

  /** The five spans, read in textual order, are exactly the lines from the first heading to `lastEnd`. */
  lemma SpansTile(lines: seq<string>, starts: seq<nat>, lastEnd: nat)
    requires |starts| == 5 && Sorted(starts) && starts[4] < lastEnd <= |lines|
    ensures SpansFit(lines, starts, SectionEnds(starts, lastEnd))
    ensures var spans := Spans(lines, starts, SectionEnds(starts, lastEnd));
            spans[0] + spans[1] + spans[2] + spans[3] + spans[4] == lines[starts[0]..lastEnd]
  {
    SectionEndsFit(lines, starts, lastEnd);
    assert starts[0] <= starts[1] <= starts[2] <= starts[3] <= starts[4];
    SliceJoin(lines, starts[0], starts[1], starts[2]);
    SliceJoin(lines, starts[0], starts[2], starts[3]);
    SliceJoin(lines, starts[0], starts[3], starts[4]);
    SliceJoin(lines, starts[0], starts[4], lastEnd);
  }

  lemma SliceJoin<T>(s: seq<T>, a: nat, b: nat, c: nat)
    requires a <= b <= c <= |s|
    ensures s[a..b] + s[b..c] == s[a..c]
  {
  }

  /** `join` renders an empty run of lines and a single empty line alike. */
  function Pad(ls: seq<string>): (r: seq<string>)
    ensures r != [] && Join(r, '\n') == Join(ls, '\n')
  {
    if ls == [] then [""] else ls
  }

  /** A sorted sequence with no repeated element is strictly increasing. */
  lemma SortedDistinct(a: seq<nat>, b: seq<nat>)
    requires Sorted(a) && multiset(a) == multiset(b)
    requires forall i, j :: 0 <= i < j < |b| ==> b[i] != b[j]
    ensures forall i :: 0 < i < |a| ==> a[i - 1] < a[i]
  {
    forall i | 0 < i < |a| ensures a[i - 1] < a[i] {
      if a[i - 1] == a[i] {
        var x := a[i];
        assert a == a[..i] + a[i..];
        assert a[i - 1] in a[..i] && a[i] in a[i..];
        assert multiset(a)[x] >= 2;
        DistinctCount(b, x);
      }
    }
  }

  lemma {:induction false} DistinctCount(b: seq<nat>, x: nat)
    requires forall i, j :: 0 <= i < j < |b| ==> b[i] != b[j]
    ensures multiset(b)[x] <= 1
    decreases |b|
  {
    if b != [] {
      DistinctCount(b[1..], x);
      assert b == [b[0]] + b[1..];
      if b[0] == x {
        assert x !in b[1..];
      }
    }
  }

  /** Strictly increasing start lines give five non-empty spans. */
  predicate Increasing(starts: seq<nat>) {
    forall i :: 0 < i < |starts| ==> starts[i - 1] < starts[i]
  }

  /** Joining the reordered section texts joins the permuted spans' lines. */
  lemma ReorderedJoin(spans: seq<seq<string>>, order: seq<nat>)
    requires |spans| == 5 && forall k :: 0 <= k < 5 ==> spans[k] != []
    requires IsOrder(order)
    ensures forall k :: 0 <= k < |order| ==> order[k] < 5
    ensures var contents := seq(5, k requires 0 <= k < 5 => Join(spans[k], '\n'));
            Join(seq(5, k requires 0 <= k < 5 => contents[order[k]]), '\n') == Join(PickFlat(spans, order), '\n')
    ensures PickFlat(spans, order) != []
  {
    OrderInRange(order);
    var contents := seq(5, k requires 0 <= k < 5 => Join(spans[k], '\n'));
    var reordered := seq(5, k requires 0 <= k < 5 => contents[order[k]]);
    assert reordered == seq(|order|, k requires 0 <= k < |order| => Join(spans[order[k]], '\n'));
    JoinPicked(spans, order);
    assert PickFlat(spans, order) == spans[order[0]] + PickFlat(spans, order[1..]);
  }

  /** The reassembled text is the join of prefix, permuted spans and suffix. */
  lemma ReassembleJoins(lines: seq<string>, starts: seq<nat>, lastEnd: nat, order: seq<nat>)
    requires |starts| == 5 && Sorted(starts) && Increasing(starts) && starts[4] < lastEnd <= |lines|
    requires IsOrder(order)
    ensures SpansFit(lines, starts, SectionEnds(starts, lastEnd))
    ensures forall k :: 0 <= k < |order| ==> order[k] < 5
    ensures Reassemble(lines, starts, SectionEnds(starts, lastEnd), order) ==
            Join(Pad(lines[..starts[0]]) + PickFlat(Spans(lines, starts, SectionEnds(starts, lastEnd)), order) + Pad(lines[lastEnd..]), '\n')
  {
    var ends := SectionEnds(starts, lastEnd);
    SpansNonEmpty(lines, starts, lastEnd);
    var spans := Spans(lines, starts, ends);
    ReorderedJoin(spans, order);
    JoinThree(Pad(lines[..starts[0]]), PickFlat(spans, order), Pad(lines[lastEnd..]));
  }

  /** Strictly increasing starts give five non-empty spans. */
  lemma SpansNonEmpty(lines: seq<string>, starts: seq<nat>, lastEnd: nat)
    requires |starts| == 5 && Sorted(starts) && Increasing(starts) && starts[4] < lastEnd <= |lines|
    ensures SpansFit(lines, starts, SectionEnds(starts, lastEnd))
    ensures var spans := Spans(lines, starts, SectionEnds(starts, lastEnd));
            |spans| == 5 && forall k :: 0 <= k < 5 ==> spans[k] != []
  {
    var ends := SectionEnds(starts, lastEnd);
    SectionEndsFit(lines, starts, lastEnd);
    var spans := Spans(lines, starts, ends);
    forall k | 0 <= k < 5 ensures spans[k] != [] {
      assert starts[k] < ends[k];
    }
  }

  /** Joining three non-empty runs of lines is joining each and gluing them with line breaks. */
  lemma JoinThree(before: seq<string>, middle: seq<string>, after: seq<string>)
    requires before != [] && middle != [] && after != []
    ensures Join(before + middle + after, '\n') == Join(before, '\n') + "\n" + Join(middle, '\n') + "\n" + Join(after, '\n')
  {
    JoinAppend(before, middle, '\n');
    JoinAppend(before + middle, after, '\n');
  }

  /** Picking from position `i` on: the span at `o[i]`, then the rest. */
  lemma PickFlatSuffix(spans: seq<seq<string>>, o: seq<nat>, i: nat)
    requires i < |o| && o[i] < |spans|
    ensures PickFlat(spans, o[i..]) == spans[o[i]] + PickFlat(spans, o[i + 1..])
  {
    assert o[i..][0] == o[i] && o[i..][1..] == o[i + 1..];
  }

  /** Five spans picked at positions 0 to 4, in that order, laid end to end. */
  lemma PickFlatFive(spans: seq<seq<string>>, o: seq<nat>)
    requires |spans| == 5 && |o| == 5
    requires o[0] == 0 && o[1] == 1 && o[2] == 2 && o[3] == 3 && o[4] == 4
    ensures PickFlat(spans, o) == spans[0] + spans[1] + spans[2] + spans[3] + spans[4]
  {
    PickFlatSuffix(spans, o, 4);
    PickFlatSuffix(spans, o, 3);
    PickFlatSuffix(spans, o, 2);
    PickFlatSuffix(spans, o, 1);
    PickFlatSuffix(spans, o, 0);
    assert o[5..] == [] && o[0..] == o;
  }

  /** The five spans in textual order, laid end to end. */
  lemma PickFlatIdentity(spans: seq<seq<string>>)
    requires |spans| == 5
    ensures PickFlat(spans, [0, 1, 2, 3, 4]) == spans[0] + spans[1] + spans[2] + spans[3] + spans[4]
  {
    PickFlatFive(spans, [0, 1, 2, 3, 4]);
  }

  /** Five spans taken in a variant's order hold the same lines as the five in textual order. */
  lemma PickFlatOrder(spans: seq<seq<string>>, order: seq<nat>)
    requires |spans| == 5 && IsOrder(order)
    ensures multiset(PickFlat(spans, order)) == multiset(spans[0] + spans[1] + spans[2] + spans[3] + spans[4])
  {
    PickFlatPermutation(spans, order, [0, 1, 2, 3, 4]);
    PickFlatIdentity(spans);
  }

  /** The permuted spans hold exactly the lines between the first heading and `lastEnd`. */
  lemma PermutedSpansSameLines(lines: seq<string>, starts: seq<nat>, lastEnd: nat, order: seq<nat>)
    requires |starts| == 5 && Sorted(starts) && starts[4] < lastEnd <= |lines|
    requires IsOrder(order)
    ensures SpansFit(lines, starts, SectionEnds(starts, lastEnd))
    ensures multiset(PickFlat(Spans(lines, starts, SectionEnds(starts, lastEnd)), order)) == multiset(lines[starts[0]..lastEnd])
  {
    SpansTile(lines, starts, lastEnd);
    PickFlatOrder(Spans(lines, starts, SectionEnds(starts, lastEnd)), order);
  }

  /** Prefix, permuted spans and suffix together hold no line break when the page's lines hold none. */
  lemma PiecesAreLines(lines: seq<string>, starts: seq<nat>, lastEnd: nat, middle: seq<string>)
    requires starts != [] && starts[0] <= lastEnd <= |lines|
    requires forall i :: 0 <= i < |lines| ==> '\n' !in lines[i]
    requires multiset(middle) == multiset(lines[starts[0]..lastEnd])
    ensures var all := Pad(lines[..starts[0]]) + middle + Pad(lines[lastEnd..]);
            forall i :: 0 <= i < |all| ==> '\n' !in all[i]
  {
    var before := Pad(lines[..starts[0]]);
    var after := Pad(lines[lastEnd..]);
    var all := before + middle + after;
    forall i | 0 <= i < |all| ensures '\n' !in all[i] {
      if i < |before| {
        assert before == [""] || all[i] == lines[i];
      } else if i < |before| + |middle| {
        assert all[i] == middle[i - |before|];
        assert all[i] in multiset(lines[starts[0]..lastEnd]);
      } else {
        assert after == [""] || all[i] == lines[lastEnd + (i - |before| - |middle|)];
      }
    }
  }

  /** What the cut-and-reassemble step does to the lines, given five distinct sorted start lines. */
  lemma ReassemblePermutes(lines: seq<string>, starts: seq<nat>, lastEnd: nat, order: seq<nat>)
    requires |starts| == 5 && Sorted(starts) && Increasing(starts) && starts[4] < lastEnd <= |lines|
    requires forall i :: 0 <= i < |lines| ==> '\n' !in lines[i]
    requires IsOrder(order)
    ensures SpansFit(lines, starts, SectionEnds(starts, lastEnd))
    ensures var spans := Spans(lines, starts, SectionEnds(starts, lastEnd));
            Split(Reassemble(lines, starts, SectionEnds(starts, lastEnd), order), '\n') ==
              Pad(lines[..starts[0]]) + PickFlat(spans, order) + Pad(lines[lastEnd..]) &&
            multiset(PickFlat(spans, order)) == multiset(lines[starts[0]..lastEnd])
  {
    ReassembleJoins(lines, starts, lastEnd, order);
    PermutedSpansSameLines(lines, starts, lastEnd, order);
    var middle := PickFlat(Spans(lines, starts, SectionEnds(starts, lastEnd)), order);
    PiecesAreLines(lines, starts, lastEnd, middle);
    SplitJoin(Pad(lines[..starts[0]]) + middle + Pad(lines[lastEnd..]), '\n');
  }

  /**
   * With five distinct heading lines, reordering cuts the page into the lines before the first heading,
   * the five spans and the lines from `lastEnd` on, and puts the spans back in the variant's order: the
   * output's lines are those lines with the spans permuted, and the spans hold exactly the lines they
   * replace. An empty prefix or suffix comes back as one empty line.
   */
  lemma ReorderPermutesSpans(html: string, names: seq<string>, order: seq<nat>)
    requires IsOrder(order)
    requires var found := LocateStarts(Split(html, '\n'), names);
             |found| == 5 && forall i, j :: 0 <= i < j < 5 ==> found[i] != found[j]
    ensures var lines := Split(html, '\n');
            var starts := SortAsc(LocateStarts(lines, names));
            Sorted(starts) && starts[4] < |lines| &&
            var lastEnd := LastSectionEnd(lines, starts[4]);
            SpansFit(lines, starts, SectionEnds(starts, lastEnd)) &&
            var spans := Spans(lines, starts, SectionEnds(starts, lastEnd));
            Split(Reorder(html, names, order), '\n') == Pad(lines[..starts[0]]) + PickFlat(spans, order) + Pad(lines[lastEnd..]) &&
            multiset(PickFlat(spans, order)) == multiset(lines[starts[0]..lastEnd])
  {
    var lines := Split(html, '\n');
    var found := LocateStarts(lines, names);
    var starts := SortAsc(found);
    SortAscSorted(found);
    SortedDistinct(starts, found);
    assert starts[4] in multiset(found);
    var lastEnd := LastSectionEnd(lines, starts[4]);
    ReassemblePermutes(lines, starts, lastEnd, order);
  }

  /** The heading search of `reorderSections`: for each label, the first line that carries it. */
  method FindStarts(lines: seq<string>, names: seq<string>) returns (found: seq<nat>)
    ensures found == LocateStarts(lines, names)
  {
    found := [];
    for i := 0 to |names|
      invariant found == LocateStarts(lines, names[..i])
    {
      assert names[..i + 1][..i] == names[..i];
      var lineIdx := 0;
      while lineIdx < |lines|
        invariant 0 <= lineIdx <= |lines|
        invariant found == LocateStarts(lines, names[..i])
        invariant FirstLineWith(lines, names[i], 0) == FirstLineWith(lines, names[i], lineIdx)
      {
        if HasHeading(lines[lineIdx], names[i]) {
          found := found + [lineIdx];
          break;
        }
        lineIdx := lineIdx + 1;
      }
    }
    assert names[..|names|] == names;
  }

  /** The depth check of the fallback: the div balance of lines `lastStart` through `i`. */
  method DepthThrough(lines: seq<string>, lastStart: nat, i: nat) returns (depth: int)
    requires lastStart <= i < |lines|
    ensures depth == Balance(lines, lastStart, i + 1)
  {
    depth := 0;
    for j := lastStart to i + 1
      invariant depth == Balance(lines, lastStart, j)
    {
      depth := depth + Count(lines[j], "<div");
      depth := depth - Count(lines[j], DivClose);
    }
  }

  /** The closing-line test both fallbacks run: a lone `</div>`, an end-of-guide line after it, a balance not above zero. */
  method IsClosingLine(lines: seq<string>, s: nat, i: nat, comment: string) returns (closes: bool)
    requires s < i < |lines|
    ensures closes == ClosesGuide(lines, s, i, comment)
  {
    closes := false;
    if Trim(lines[i]) == DivClose && i + 1 < |lines| {
      var next := Trim(lines[i + 1]);
      if next == DivClose || next == "" || StartsWith(next, comment) || StartsWith(next, MtDiv) {
        var depth := DepthThrough(lines, s, i);
        closes := depth <= 0;
      }
    }
  }

  /**
   * The fallback scan both scripts' loops run: from the line after `s`, up to line `s + window`,
   * the first line that closes the guide.
   */
  /** One line of the fallback scan: tests line `i`, and says what that means for the search from `i`. */
  method CloseStep(lines: seq<string>, s: nat, i: nat, window: nat, comment: string) returns (closes: bool)
    requires s < i < Min(|lines|, s + window)
    ensures closes ==> FallbackClose(lines, s, i, window, comment) == Some(i)
    ensures !closes ==> FallbackClose(lines, s, i, window, comment) == FallbackClose(lines, s, i + 1, window, comment)
  {
    closes := IsClosingLine(lines, s, i, comment);
    FallbackStep(lines, s, i, window, comment, closes);
  }

  method ScanForClose(lines: seq<string>, s: nat, window: nat, comment: string) returns (close: Option<nat>)
    requires s < |lines|
    ensures close == FallbackClose(lines, s, s + 1, window, comment)
  {
    ghost var first := FallbackClose(lines, s, s + 1, window, comment);
    close := None;
    var limit := Min(|lines|, s + window);
    var i := s + 1;
    while i < limit
      invariant s + 1 <= i
      invariant FallbackClose(lines, s, i, window, comment) == first
      decreases limit - i
    {
      var closes := CloseStep(lines, s, i, window, comment);
      if closes {
        close := Some(i);
        return;
      }
      i := i + 1;
    }
    FallbackExhausted(lines, s, i, window, comment);
  }

  /** The fallback search: a lone `</div>` closing the guide within 80 lines of the last heading. */
  method FindFallbackClose(lines: seq<string>, lastStart: nat) returns (close: Option<nat>)
    requires lastStart < |lines|
    ensures close == FallbackClose(lines, lastStart, lastStart + 1, 80, AnyComment)
  {
    close := ScanForClose(lines, lastStart, 80, AnyComment);
  }

  /** The end of the last section: the running `divStack` scan, then the fallback. */
  method FindLastEnd(lines: seq<string>, lastStart: nat) returns (lastEnd: nat)
    requires lastStart < |lines|
    ensures lastEnd == LastSectionEnd(lines, lastStart)
  {
    lastEnd := lastStart + 1;
    var divStack := 0;
    var foundEnd := false;
    var i := lastStart;
    while i < |lines|
      invariant lastStart <= i <= |lines|
      invariant divStack == Balance(lines, lastStart, i)
      invariant !foundEnd && lastEnd == lastStart + 1
      invariant i > lastStart ==> FirstDrop(lines, lastStart, lastStart + 1) == FirstDrop(lines, lastStart, i)
    {
      divStack := divStack + Count(lines[i], DivOpen) - Count(lines[i], DivClose);
      if i > lastStart && divStack < 0 {
        lastEnd := i + 1;
        foundEnd := true;
        break;
      }
      i := i + 1;
    }
    if !foundEnd {
      var close := FindFallbackClose(lines, lastStart);
      if close.Some? {
        lastEnd := close.value + 1;
      }
    }
  }

  /** The `endLine` pass: each section ends where the next begins, the last one at `lastEnd`. */
  method LinkEnds(starts: seq<nat>, lastEnd: nat) returns (ends: seq<nat>)
    requires |starts| == 5
    ensures ends == SectionEnds(starts, lastEnd)
  {
    var bounds := new nat[5];
    for k := 0 to 4
      invariant forall j :: 0 <= j < k ==> bounds[j] == starts[j + 1]
    {
      bounds[k] := starts[k + 1];
    }
    bounds[4] := lastEnd;
    ends := bounds[..];
  }

  /** `reorderSections`: locate, sort, set the end lines, find the last end, cut and reassemble. */
  method ReorderSections(html: string, names: seq<string>, order: seq<nat>) returns (r: string)
    requires IsOrder(order)
    ensures r == Reorder(html, names, order)
  {
    OrderInRange(order);
    var lines := Split(html, '\n');
    var found := FindStarts(lines, names);
    if |found| != 5 {
      return html;
    }
    // `sectionBounds.sort(...)` by start line: the library sort, whose result is fixed by sortedness and the multiset
    var starts := SortAsc(found);
    SortAscSorted(found);
    assert starts[4] in multiset(found);

    var lastEnd := FindLastEnd(lines, starts[4]);
    var bounds := LinkEnds(starts, lastEnd);
    SectionEndsFit(lines, starts, lastEnd);
    r := Reassemble(lines, starts, bounds, order);
  }

  // ---------------------------------------------------------------------------
  // Relabelling lemmas
  // ---------------------------------------------------------------------------

  /** A relabelled heading is still a heading: the same tag pattern finds it under its new label. */
  lemma RelabelRecognised(t: string, original: string, replacement: string, rest: string)
    requires LabelAt(t, original).Some?
    ensures LabelMatcher(original, replacement)(t).Some?
    ensures LabelAt(LabelMatcher(original, replacement)(t).value.out + rest, replacement) == LabelAt(t, original)
  {
    LabelMatchShape(t, original, replacement);
    var e := LabelAt(t, original).value;
    var u := LabelMatcher(original, replacement)(t).value.out + rest;
    assert u == t[..e] + (replacement + H3Close + rest);
    assert u[..e] == t[..e];
    H3OpenUnique(u, e);
    assert u[e..] == replacement + H3Close + rest;
    assert StartsWith(u[e..], replacement + H3Close);
  }

  /** A label mapped to itself matches and re-emits the same text. */
  lemma SameLabelKeeps(html: string, name: string)
    ensures ReplaceMatches(html, LabelMatcher(name, name)) == html
  {
    var m := LabelMatcher(name, name);
    forall t | Fires(m, t) ensures m(t).value.out == t[..m(t).value.len] {
      LabelMatchShape(t, name, name);
    }
    ReplaceMatchesKeepsText(html, m);
  }

  /** A table that maps every label to itself leaves the page as it is. */
  lemma {:induction false} RelabelSameLabels(html: string, pairs: seq<(string, string)>)
    requires forall k :: 0 <= k < |pairs| ==> pairs[k].0 == pairs[k].1
    ensures RelabelHeadings(html, pairs) == html
    decreases |pairs|
  {
    if pairs != [] {
      SameLabelKeeps(html, pairs[0].0);
      RelabelSameLabels(html, pairs[1..]);
    }
  }

  /** Running the relabelling steps with table A would change nothing: returning early for A loses nothing. */
  lemma VariantATableInert(html: string, lang: Lang)
    ensures Relabel(html, lang, Table(lang, A)) == html
  {
    RelabelSameLabels(html, Table(lang, A).headings);
  }

  /** Every heading match, label or intro, begins with the tag prefix. */
  lemma NoTagNoMatch(html: string, m: Matcher)
    requires forall t :: Fires(m, t) ==> StartsWith(t, H3Prefix)
    requires !Contains(html, H3Prefix)
    ensures ReplaceMatches(html, m) == html
  {
    IndexOfFirst(html, H3Prefix);
    forall k | 0 <= k < |html| ensures !Fires(m, html[k..]) {
      assert !StartsWith(html[k..], H3Prefix);
    }
    ReplaceMatchesNoMatch(html, m);
  }

  lemma {:induction false} RelabelHeadingsNoTag(html: string, pairs: seq<(string, string)>)
    requires !Contains(html, H3Prefix)
    ensures RelabelHeadings(html, pairs) == html
    decreases |pairs|
  {
    if pairs != [] {
      var m := LabelMatcher(pairs[0].0, pairs[0].1);
      forall t | Fires(m, t) ensures StartsWith(t, H3Prefix) {
        LabelMatchShape(t, pairs[0].0, pairs[0].1);
      }
      NoTagNoMatch(html, m);
      RelabelHeadingsNoTag(html, pairs[1..]);
    }
  }

  /** A page without the heading tag's prefix comes out of the relabelling steps unchanged. */
  lemma RelabelNoTag(html: string, lang: Lang, t: HeadingTable)
    requires !Contains(html, H3Prefix)
    ensures Relabel(html, lang, t) == html
  {
    RelabelHeadingsNoTag(html, t.headings);
    if t.intro.Some? {
      var m := IntroMatcher(lang, t.intro.value);
      forall u | Fires(m, u) ensures StartsWith(u, H3Prefix) {
        assert H3OpenLen(u).Some?;
      }
      NoTagNoMatch(html, m);
    }
  }

  // ---------------------------------------------------------------------------
  // The relabelled headings are the ones the reorder searches for
  // ---------------------------------------------------------------------------

  /** A label no heading pattern can run into or read as an intro: no `<`, `?` or newline, and not `What is …`. */
  predicate PlainLabel(x: string) {
    '<' !in x && '?' !in x && '\n' !in x && !StartsWith(x, EnIntroHead)
  }

  /** A tag of the heading pattern's shape with no `<` after its first character and no `?` or newline. */
  predicate PlainTag(tag: string) {
    IsH3Open(tag) && '<' !in tag[1..] && '?' !in tag && '\n' !in tag
  }

  lemma H3PrefixLetters()
    ensures |H3Prefix| == 32 && H3Prefix[0] == '<' && H3Prefix[1] == 'h' && H3Prefix[10] == '"'
    ensures forall i :: 0 < i < 32 ==> H3Prefix[i] != '<'
  {
  }

  lemma H3TailLetters()
    ensures |H3Tail| == 11 && forall i :: 0 <= i < 11 ==> H3Tail[i] != '<' && H3Tail[i] != 'h'
  {
  }

  lemma H3CloseLetters()
    ensures |H3Close| == 5 && H3Close[0] == '<' && H3Close[1] == '/' && H3Close[3] == '3' && H3Close[4] == '>'
    ensures forall i :: 0 <= i < 5 ==> H3Close[i] != '?' && H3Close[i] != '\n' && (i > 0 ==> H3Close[i] != '<')
  {
  }

  lemma IntroLetters()
    ensures |KoIntroTail| == 8 && KoIntroTail[0] == '이' && KoIntroTail[2] == '?' && KoIntroTail[3] == '<' && KoIntroTail[4] == '/'
    ensures forall i :: 0 <= i < 8 && i != 3 ==> KoIntroTail[i] != '<'
    ensures |EnIntroTail| == 6 && EnIntroTail[0] == '?' && EnIntroTail[1] == '<' && EnIntroTail[2] == '/'
    ensures forall i :: 0 <= i < 6 && i != 1 ==> EnIntroTail[i] != '<'
    ensures |EnIntroHead| == 8 && forall i :: 0 <= i < 8 ==> EnIntroHead[i] != '<'
  {
  }

  /** No heading tag starts strictly inside another heading tag. */
  lemma TagHoldsNoHeading(u: string, e: nat)
    requires e <= |u| && IsH3Open(u[..e])
    ensures forall d :: 0 < d < e ==> !StartsWith(u[d..], H3Prefix)
  {
    H3PrefixLetters();
    H3TailLetters();
    var tag := u[..e];
    assert tag[..32] == H3Prefix && tag[e - 11..] == H3Tail;
    forall d | 0 < d < e ensures !StartsWith(u[d..], H3Prefix) {
      if d < 32 {
        assert u[d] == tag[..32][d];
      } else if e - 11 <= d {
        assert u[d] == tag[e - 11..][d - (e - 11)];
      } else if d == e - 12 {
        assert u[d + 1] == tag[e - 11..][0];
      } else {
        assert u[d + 10] == tag[32..e - 2][d + 10 - 32];
      }
      PrefixLetters(u[d..]);
    }
  }

  /** A text that starts with the tag prefix has its `<`, `h` and quote. */
  lemma PrefixLetters(v: string)
    ensures StartsWith(v, H3Prefix) ==> |v| >= 32 && v[0] == '<' && v[1] == 'h' && v[10] == '"'
  {
    H3PrefixLetters();
    if StartsWith(v, H3Prefix) {
      assert v[..32][0] == v[0] && v[..32][1] == v[1] && v[..32][10] == v[10];
    }
  }

  /** Where `<`, `h`, `/` and the closing letters sit in a plain heading `tag + name + </h3>`. */
  lemma HeadingLetters(tag: string, name: string)
    requires PlainTag(tag) && PlainLabel(name)
    ensures var w := tag + name + H3Close;
      |w| >= |tag| + 5 && |tag| >= 43 && w[0] == '<' && w[1] == 'h' && w[|w| - 5] == '<' && w[|w| - 4] == '/' &&
      w[|w| - 2] == '3' && w[|w| - 1] == '>' &&
      (forall i :: 0 < i < |w| && i != |w| - 5 ==> w[i] != '<') && '?' !in w && '\n' !in w
  {
    H3PrefixLetters();
    H3CloseLetters();
    var w := tag + name + H3Close;
    assert tag[..32] == H3Prefix;
    assert w[0] == tag[0] == tag[..32][0] && w[1] == tag[..32][1];
    forall i | 0 < i < |w| && i != |w| - 5 ensures w[i] != '<' {
      if i < |tag| {
        assert w[i] == tag[1..][i - 1];
      } else if i < |tag| + |name| {
        assert w[i] == name[i - |tag|];
      } else {
        assert w[i] == H3Close[i - |tag| - |name|];
      }
    }
    assert w[|w| - 5..] == H3Close;
  }

  /** The letters of a text that starts with `w`. */
  lemma LettersAt(t: string, s: nat, w: string)
    requires s <= |t| && StartsWith(t[s..], w)
    ensures forall i :: 0 <= i < |w| ==> t[s + i] == w[i]
  {
    forall i | 0 <= i < |w| ensures t[s + i] == w[i] {
      assert t[s + i] == t[s..][..|w|][i];
    }
  }

  /** No heading tag starts strictly inside a plain heading. */
  lemma InsideHeadingNoTag(t: string, s: nat, tag: string, name: string)
    requires PlainTag(tag) && PlainLabel(name) && s <= |t| && StartsWith(t[s..], tag + name + H3Close)
    ensures forall p :: s < p < s + |tag + name + H3Close| ==> !StartsWith(t[p..], H3Prefix)
  {
    var w := tag + name + H3Close;
    HeadingLetters(tag, name);
    LettersAt(t, s, w);
    forall p | s < p < s + |w| ensures !StartsWith(t[p..], H3Prefix) {
      PrefixLetters(t[p..]);
      assert t[p] == w[p - s];
      if p - s == |w| - 5 {
        assert t[p + 1] == w[|w| - 4];
      }
    }
  }

  /** A label match that starts before a plain heading ends by the heading's start. */
  lemma LabelMatchBefore(t: string, p: nat, s: nat, orig: string, tag: string, name: string)
    requires p < s <= |t| && PlainTag(tag) && PlainLabel(name) && StartsWith(t[s..], tag + name + H3Close)
    requires '<' !in orig && LabelAt(t[p..], orig).Some?
    ensures p + LabelAt(t[p..], orig).value + |orig| + |H3Close| <= s
  {
    var u := t[p..];
    var e := LabelAt(u, orig).value;
    var w := tag + name + H3Close;
    H3CloseLetters();
    HeadingLetters(tag, name);
    TagHoldsNoHeading(u, e);
    assert StartsWith(u[s - p..], H3Prefix) by {
      assert u[s - p..] == t[s..];
      assert t[s..][..32] == w[..32] == tag[..32];
    }
    assert e <= s - p;
    assert t[s] == '<' && t[s + 1] == 'h' by {
      assert t[s..][..|w|][0] == t[s] && t[s..][..|w|][1] == t[s + 1];
    }
    AfterLabel(t, p + e, s, orig);
  }

  /** The letters from `orig + </h3>` on: where a `<h` can start. */
  lemma AfterLabel(t: string, k: nat, s: nat, orig: string)
    requires k <= s < |t| - 1 && '<' !in orig && StartsWith(t[k..], orig + H3Close)
    requires t[s] == '<' && t[s + 1] == 'h'
    ensures k + |orig| + |H3Close| <= s
  {
    H3CloseLetters();
    LettersFrom(t, k, orig + H3Close);
  }

  /** The letters of a text from the position where `w` starts. */
  lemma LettersFrom(t: string, k: nat, w: string)
    requires k <= |t| && StartsWith(t[k..], w)
    ensures forall j :: k <= j < k + |w| ==> t[j] == w[j - k]
  {
    LettersAt(t, k, w);
    forall j | k <= j < k + |w| ensures t[j] == w[j - k] {
      assert t[k + (j - k)] == w[j - k];
    }
  }

  /** At a plain heading, the label pattern for `orig` fires exactly when `orig` is the heading's label. */
  lemma LabelAtHeading(t: string, s: nat, tag: string, name: string, orig: string)
    requires PlainTag(tag) && PlainLabel(name) && '<' !in orig && s <= |t| && StartsWith(t[s..], tag + name + H3Close)
    ensures LabelAt(t[s..], orig).Some? <==> orig == name
    ensures LabelAt(t[s..], name) == Some(|tag|)
  {
    HeadingParts(t, s, tag, name);
    LabelsClash(t[s..][|tag|..], name, orig);
  }

  /** Text that starts with one label and `</h3>` starts with another label and `</h3>` only when the two agree. */
  lemma LabelsClash(x: string, name: string, orig: string)
    requires '<' !in name && '<' !in orig && StartsWith(x, name + H3Close)
    ensures StartsWith(x, orig + H3Close) <==> orig == name
  {
    H3CloseLetters();
    LettersAt(x, 0, name + H3Close);
    StartLetters(x, orig + H3Close);
    assert |orig| < |name| ==> (orig + H3Close)[|orig|] == '<' && name[|orig|] != '<';
    assert |name| < |orig| ==> (name + H3Close)[|name|] == '<' && orig[|name|] != '<';
    assert |orig| == |name| && StartsWith(x, orig + H3Close) ==> orig == x[..|orig|] == name;
  }

  /** The letters of a text, where it starts with `w`. */
  lemma StartLetters(x: string, w: string)
    ensures StartsWith(x, w) ==> forall i :: 0 <= i < |w| ==> x[i] == w[i]
  {
    if StartsWith(x, w) {
      LettersAt(x, 0, w);
    }
  }

  /** The Korean intro tail `이란?</h3>` cannot overlap a plain heading. */
  lemma KoTailClear(t: string, s: nat, tag: string, name: string, x: nat)
    requires PlainTag(tag) && PlainLabel(name) && s <= |t| && StartsWith(t[s..], tag + name + H3Close)
    requires x <= |t| && StartsWith(t[x..], KoIntroTail)
    ensures x + |KoIntroTail| <= s || s + |tag + name + H3Close| <= x
  {
    var w := tag + name + H3Close;
    IntroLetters();
    HeadingLetters(tag, name);
    LettersFrom(t, s, w);
    LettersFrom(t, x, KoIntroTail);
    assert t[s] == '<' && t[s + 1] == 'h';
    assert t[x] == '이' && t[x + 2] == '?';
  }

  /** The English intro tail `?</h3>` cannot overlap a plain heading. */
  lemma EnTailClear(t: string, s: nat, tag: string, name: string, x: nat)
    requires PlainTag(tag) && PlainLabel(name) && s <= |t| && StartsWith(t[s..], tag + name + H3Close)
    requires x <= |t| && StartsWith(t[x..], EnIntroTail)
    ensures x + |EnIntroTail| <= s || s + |tag + name + H3Close| <= x
  {
    var w := tag + name + H3Close;
    IntroLetters();
    HeadingLetters(tag, name);
    LettersFrom(t, s, w);
    LettersFrom(t, x, EnIntroTail);
    assert t[s] == '<' && t[s + 1] == 'h';
    assert t[x] == '?';
  }

  /** A Korean intro match that reaches a plain heading runs past it and copies it into its output. */
  lemma KoIntroKeeps(t: string, p: nat, s: nat, tag: string, name: string, e: nat, repl: string, h: Hit)
    requires p <= s <= |t| && PlainTag(tag) && PlainLabel(name) && StartsWith(t[s..], tag + name + H3Close)
    requires KoIntroShape(t[p..], e, repl, h)
    ensures p + h.len <= s || Contains(h.out, tag + name + H3Close)
  {
    var w := tag + name + H3Close;
    var u := t[p..];
    var x := h.len - |KoIntroTail|;
    PieceAt(t, p, x, KoIntroTail);
    KoTailClear(t, s, tag, name, p + x);
    if s + |w| <= p + x {
      KeptBefore(t, p, s, x, w);
      ContainsInPrefix(u[..x], repl + H3Close, w);
      assert h.out == u[..x] + (repl + H3Close);
    }
  }

  /** A piece of `t[p..]` at `x` is a piece of `t` at `p + x`. */
  lemma PieceAt(t: string, p: nat, x: nat, w: string)
    requires p + x + |w| <= |t| && t[p..][x..x + |w|] == w
    ensures StartsWith(t[p + x..], w)
  {
    assert t[p + x..][..|w|] == t[p..][x..x + |w|];
  }

  /** Text between `p` and `p + x` that holds `w` at `s` still holds it once cut out. */
  lemma KeptBefore(t: string, p: nat, s: nat, x: nat, w: string)
    requires p <= s && s + |w| <= p + x <= |t| && StartsWith(t[s..], w)
    ensures Contains(t[p..][..x], w)
  {
    assert t[p..][..x][s - p..][..|w|] == t[s..][..|w|];
    ContainsAt(t[p..][..x], w, s - p);
  }

  /** An English intro match that starts before a plain heading either ends by it or copies it into its output. */
  lemma EnIntroKeeps(t: string, p: nat, s: nat, tag: string, name: string, e: nat, frame: string, h: Hit)
    requires p < s <= |t| && PlainTag(tag) && PlainLabel(name) && StartsWith(t[s..], tag + name + H3Close)
    requires e <= |t[p..]| && IsH3Open(t[p..][..e]) && EnIntroShape(t[p..], e, frame, h)
    ensures p + h.len <= s || Contains(h.out, tag + name + H3Close)
  {
    var x := h.len - |EnIntroTail|;
    EnHeadBefore(t, p, s, tag, name, e);
    PieceAt(t, p, x, EnIntroTail);
    EnTailClear(t, s, tag, name, p + x);
    EnKeptInside(t, p, s, tag + name + H3Close, e, frame, h);
  }

  /** An English intro match whose text spans `w` copies `w` into its output. */
  lemma EnKeptInside(t: string, p: nat, s: nat, w: string, e: nat, frame: string, h: Hit)
    requires p <= |t| && s <= |t| && StartsWith(t[s..], w) && EnIntroShape(t[p..], e, frame, h)
    requires p + e + |EnIntroHead| <= s
    ensures s + |w| <= p + h.len - |EnIntroTail| ==> Contains(h.out, w)
  {
    var u := t[p..];
    var x := h.len - |EnIntroTail|;
    var a := e + |EnIntroHead|;
    assert a <= x && h.out == u[..e] + frame + u[a..x] + H3Close;
    if s + |w| <= p + x {
      KeptBetween(t, p, s, a, x, w);
      ContainsInMiddle(u[..e] + frame, u[a..x], H3Close, w);
    }
  }

  /** Text between `p + a` and `p + x` that holds `w` at `s` still holds it once cut out. */
  lemma KeptBetween(t: string, p: nat, s: nat, a: nat, x: nat, w: string)
    requires p + a <= s && s + |w| <= p + x <= |t| && a <= x && StartsWith(t[s..], w)
    ensures Contains(t[p..][a..x], w)
  {
    assert t[p..][a..x] == t[p + a..][..x - a];
    KeptBefore(t, p + a, s, x - a, w);
  }

  /** The tag and the `What is ` of an English intro match that starts before a plain heading lie before it. */
  lemma EnHeadBefore(t: string, p: nat, s: nat, tag: string, name: string, e: nat)
    requires p < s <= |t| && PlainTag(tag) && PlainLabel(name) && StartsWith(t[s..], tag + name + H3Close)
    requires e + |EnIntroHead| <= |t[p..]| && IsH3Open(t[p..][..e]) && t[p..][e..e + |EnIntroHead|] == EnIntroHead
    ensures p + e + |EnIntroHead| <= s
  {
    var w := tag + name + H3Close;
    var u := t[p..];
    IntroLetters();
    HeadingLetters(tag, name);
    TagHoldsNoHeading(u, e);
    assert StartsWith(u[s - p..], H3Prefix) by {
      assert u[s - p..] == t[s..];
      assert t[s..][..32] == w[..32] == tag[..32];
    }
    assert t[s] == '<' by {
      assert t[s..][..|w|][0] == t[s];
    }
    assert t[p + e..][..|EnIntroHead|] == u[e..e + |EnIntroHead|];
    LettersFrom(t, p + e, EnIntroHead);
  }

  /** The English intro pattern does not fire at a plain heading. */
  lemma EnIntroNotAtHeading(t: string, s: nat, tag: string, name: string, frame: string)
    requires PlainTag(tag) && PlainLabel(name) && s <= |t| && StartsWith(t[s..], tag + name + H3Close)
    ensures EnIntroHit(t[s..], frame).None?
  {
    HeadingParts(t, s, tag, name);
    NotIntroHead(t[s..][|tag|..], name);
  }

  /** A plain heading in the text: its tag is the whole opening tag, and the label and `</h3>` follow. */
  lemma HeadingParts(t: string, s: nat, tag: string, name: string)
    requires PlainTag(tag) && s <= |t| && StartsWith(t[s..], tag + name + H3Close)
    ensures |tag| <= |t[s..]| && H3OpenLen(t[s..]) == Some(|tag|) && StartsWith(t[s..][|tag|..], name + H3Close)
  {
    var v := t[s..];
    assert v[..|tag|] == (tag + name + H3Close)[..|tag|] == tag;
    H3OpenUnique(v, |tag|);
    assert v[|tag|..][..|name| + 5] == v[..|tag| + |name| + 5][|tag|..] == (tag + name + H3Close)[|tag|..] == name + H3Close;
  }

  /** Text that starts with a plain label and `</h3>` does not start with `What is `. */
  lemma NotIntroHead(x: string, name: string)
    requires PlainLabel(name) && StartsWith(x, name + H3Close)
    ensures !StartsWith(x, EnIntroHead)
  {
    IntroLetters();
    H3CloseLetters();
    LettersAt(x, 0, name + H3Close);
    StartLetters(x, EnIntroHead);
    assert |name| >= |EnIntroHead| ==> x[..|EnIntroHead|] == name[..|EnIntroHead|];
    assert |name| < |EnIntroHead| ==> x[|name|] == '<';
  }

  /** A pass of the label pattern for another label keeps a plain heading. */
  lemma LabelPassKeeps(t: string, tag: string, name: string, orig: string, repl: string)
    requires PlainTag(tag) && PlainLabel(name) && '<' !in orig && orig != name && Contains(t, tag + name + H3Close)
    ensures Contains(ReplaceMatches(t, LabelMatcher(orig, repl)), tag + name + H3Close)
  {
    var w := tag + name + H3Close;
    var s := IndexOf(t, w).value;
    var m := LabelMatcher(orig, repl);
    forall p | 0 <= p < s + |w| ensures EndsOrCarries(t, m, p, s, w) {
      LabelPassClear(t, p, s, tag, name, orig, repl);
    }
    assert t[s..s + |w|] == w;
    ContainsAt(w, w, 0);
    ReplaceMatchesKeeps(t, m, s, s + |w|, w);
  }

  /** A label match for another label ends before a plain heading, and none starts inside it. */
  lemma LabelPassClear(t: string, p: nat, s: nat, tag: string, name: string, orig: string, repl: string)
    requires PlainTag(tag) && PlainLabel(name) && '<' !in orig && orig != name
    requires s <= |t| && StartsWith(t[s..], tag + name + H3Close) && p < s + |tag + name + H3Close|
    ensures EndsOrCarries(t, LabelMatcher(orig, repl), p, s, tag + name + H3Close)
  {
    LabelMatchShape(t[p..], orig, repl);
    if p < s {
      LabelClearBefore(t, p, s, tag, name, orig, repl);
    } else if p == s {
      LabelAtHeading(t, s, tag, name, orig);
    } else {
      InsideHeadingNoTag(t, s, tag, name);
      LabelAtStarts(t[p..], orig);
    }
  }

  /** A label match starts with the heading tag prefix. */
  lemma LabelAtStarts(u: string, orig: string)
    ensures LabelAt(u, orig).Some? ==> StartsWith(u, H3Prefix)
  {
    if LabelAt(u, orig).Some? {
      var e := LabelAt(u, orig).value;
      assert u[..e][..|H3Prefix|] == u[..|H3Prefix|];
    }
  }

  /** A pass of the label pattern for a plain heading's own label leaves that heading with the new label. */
  lemma LabelPassRenames(t: string, tag: string, name: string, repl: string)
    requires PlainTag(tag) && PlainLabel(name) && Contains(t, tag + name + H3Close)
    ensures Contains(ReplaceMatches(t, LabelMatcher(name, repl)), tag + repl + H3Close)
  {
    var w := tag + name + H3Close;
    var target := tag + repl + H3Close;
    var s := IndexOf(t, w).value;
    var m := LabelMatcher(name, repl);
    forall p | 0 <= p < s + 1 ensures EndsOrCarries(t, m, p, s, target) {
      LabelPassClaims(t, p, s, tag, name, repl);
    }
    LabelPassFiresAt(t, s, tag, name, repl);
    ReplaceMatchesKeeps(t, m, s, s + 1, target);
  }

  /** A label match before a plain heading ends by it; the one at the heading puts the new label in. */
  lemma LabelPassClaims(t: string, p: nat, s: nat, tag: string, name: string, repl: string)
    requires PlainTag(tag) && PlainLabel(name) && p <= s <= |t| && StartsWith(t[s..], tag + name + H3Close)
    ensures EndsOrCarries(t, LabelMatcher(name, repl), p, s, tag + repl + H3Close)
  {
    if p < s {
      LabelClearBefore(t, p, s, tag, name, name, repl);
    } else {
      LabelClaimAt(t, s, tag, name, repl);
    }
  }

  /** A label match that starts before a plain heading ends by it. */
  lemma LabelClearBefore(t: string, p: nat, s: nat, tag: string, name: string, orig: string, repl: string)
    requires PlainTag(tag) && PlainLabel(name) && '<' !in orig && p < s <= |t| && StartsWith(t[s..], tag + name + H3Close)
    ensures Fires(LabelMatcher(orig, repl), t[p..]) ==> p + LabelMatcher(orig, repl)(t[p..]).value.len <= s
  {
    LabelMatchShape(t[p..], orig, repl);
    if LabelAt(t[p..], orig).Some? {
      LabelMatchBefore(t, p, s, orig, tag, name);
    }
  }

  /** The label match at a plain heading with its own label emits the heading with the new label. */
  lemma LabelClaimAt(t: string, s: nat, tag: string, name: string, repl: string)
    requires PlainTag(tag) && PlainLabel(name) && s <= |t| && StartsWith(t[s..], tag + name + H3Close)
    ensures EndsOrCarries(t, LabelMatcher(name, repl), s, s, tag + repl + H3Close)
  {
    LabelMatchShape(t[s..], name, repl);
    LabelAtHeading(t, s, tag, name, name);
    assert t[s..][..|tag|] == tag;
    ContainsAt(tag + repl + H3Close, tag + repl + H3Close, 0);
  }

  /** The label pattern for a plain heading's own label fires at the heading. */
  lemma LabelPassFiresAt(t: string, s: nat, tag: string, name: string, repl: string)
    requires PlainTag(tag) && PlainLabel(name) && s <= |t| && StartsWith(t[s..], tag + name + H3Close)
    ensures s < |t| && Fires(LabelMatcher(name, repl), t[s..])
  {
    LabelAtHeading(t, s, tag, name, name);
    LabelMatchShape(t[s..], name, repl);
  }

  /** The intro pass keeps a plain heading: its matches either end before it or copy it. */
  lemma IntroPassKeeps(t: string, tag: string, name: string, lang: Lang, repl: string)
    requires PlainTag(tag) && PlainLabel(name) && Contains(t, tag + name + H3Close)
    ensures Contains(ReplaceMatches(t, IntroMatcher(lang, repl)), tag + name + H3Close)
  {
    var w := tag + name + H3Close;
    var s := IndexOf(t, w).value;
    var m := IntroMatcher(lang, repl);
    InsideHeadingNoTag(t, s, tag, name);
    forall p | 0 <= p < s + |w| ensures EndsOrCarries(t, m, p, s, w)
    {
      if lang == Ko {
        if KoIntroHit(t[p..], repl).Some? && p <= s {
          KoIntroKeeps(t, p, s, tag, name, H3OpenLen(t[p..]).value, repl, KoIntroHit(t[p..], repl).value);
        }
      } else if p == s {
        EnIntroNotAtHeading(t, s, tag, name, repl);
      } else if EnIntroHit(t[p..], repl).Some? && p < s {
        EnIntroKeeps(t, p, s, tag, name, H3OpenLen(t[p..]).value, repl, EnIntroHit(t[p..], repl).value);
      }
    }
    assert t[s..s + |w|] == w;
    ContainsAt(w, w, 0);
    ReplaceMatchesKeeps(t, m, s, s + |w|, w);
  }

  /** The label passes for labels other than a plain heading's own keep the heading. */
  lemma {:induction false} RelabelHeadingsKeeps(html: string, pairs: seq<(string, string)>, tag: string, name: string)
    requires PlainTag(tag) && PlainLabel(name) && Contains(html, tag + name + H3Close)
    requires forall j :: 0 <= j < |pairs| ==> '<' !in pairs[j].0 && pairs[j].0 != name
    ensures Contains(RelabelHeadings(html, pairs), tag + name + H3Close)
    decreases |pairs|
  {
    if pairs != [] {
      LabelPassKeeps(html, tag, name, pairs[0].0, pairs[0].1);
      RelabelHeadingsKeeps(ReplaceMatches(html, LabelMatcher(pairs[0].0, pairs[0].1)), pairs[1..], tag, name);
    }
  }

  /**
   * The label passes rename a plain heading labelled `pairs[k].0` to `pairs[k].1`, provided no earlier pass is for
   * the same label and no later pass is for the new one.
   */
  lemma {:induction false} RelabelHeadingsRenames(html: string, pairs: seq<(string, string)>, k: nat, tag: string)
    requires k < |pairs| && PlainTag(tag) && Contains(html, tag + pairs[k].0 + H3Close)
    requires forall j :: 0 <= j < |pairs| ==> PlainLabel(pairs[j].0) && PlainLabel(pairs[j].1)
    requires forall j :: 0 <= j < k ==> pairs[j].0 != pairs[k].0
    requires forall j :: k < j < |pairs| ==> pairs[j].0 != pairs[k].1
    ensures Contains(RelabelHeadings(html, pairs), tag + pairs[k].1 + H3Close)
    decreases |pairs|
  {
    var next := ReplaceMatches(html, LabelMatcher(pairs[0].0, pairs[0].1));
    if k == 0 {
      LabelPassRenames(html, tag, pairs[0].0, pairs[0].1);
      RelabelHeadingsKeeps(next, pairs[1..], tag, pairs[0].1);
    } else {
      LabelPassKeeps(html, tag, pairs[k].0, pairs[0].0, pairs[0].1);
      RelabelHeadingsRenames(next, pairs[1..], k - 1, tag);
    }
  }

  /**
   * A table whose passes leave every standard heading with its new label: plain labels, distinct standard labels,
   * and no new label that a later pass is for.
   */
  predicate PlainTable(t: HeadingTable) {
    |t.headings| == 5 &&
    (forall j :: 0 <= j < 5 ==> PlainLabel(t.headings[j].0) && PlainLabel(t.headings[j].1)) &&
    (forall j, k :: 0 <= j < k < 5 ==> t.headings[j].0 != t.headings[k].0) &&
    (forall j, k :: 0 <= k < j < 5 ==> t.headings[j].0 != t.headings[k].1)
  }

  /** The table facts, read off the two label lists. */
  lemma PairPlain(std: seq<string>, names: seq<string>, intro: Option<string>, order: Option<seq<nat>>)
    requires |std| == 5 && |names| == 5
    requires forall j :: 0 <= j < 5 ==> PlainLabel(std[j]) && PlainLabel(names[j])
    requires forall j, k :: 0 <= j < k < 5 ==> std[j] != std[k]
    requires forall j, k :: 0 <= k < j < 5 ==> std[j] != names[k]
    ensures PlainTable(HeadingTable(Pair(std, names), intro, order))
  {
  }

  /** A label is plain once it has none of `<`, `?`, a newline, and differs from "What is " at some place. */
  lemma PlainLabelOf(x: string, i: nat)
    requires '<' !in x && '?' !in x && '\n' !in x
    requires i < |EnIntroHead| && (i >= |x| || x[i] != EnIntroHead[i])
    ensures PlainLabel(x)
  {
    StartLetters(x, EnIntroHead);
  }

  /** Labels `lo` to `hi` of a list are plain, given for each a place where it differs from "What is ". */
  lemma PlainLabelsIn(x: seq<string>, i: seq<nat>, lo: nat, hi: nat)
    requires lo <= hi <= |x| && hi <= |i|
    requires forall j :: lo <= j < hi ==> '<' !in x[j] && '?' !in x[j] && '\n' !in x[j]
    requires forall j :: lo <= j < hi ==> i[j] < |EnIntroHead| && (i[j] >= |x[j]| || x[j][i[j]] != EnIntroHead[i[j]])
    ensures forall j :: lo <= j < hi ==> PlainLabel(x[j])
  {
    forall j | lo <= j < hi ensures PlainLabel(x[j]) {
      PlainLabelOf(x[j], i[j]);
    }
  }

  lemma KoStandardPlain()
    ensures forall j :: 0 <= j < 5 ==> PlainLabel(KoStandard[j])
    ensures forall j, k :: 0 <= j < k < 5 ==> KoStandard[j] != KoStandard[k]
  {
    PlainLabelsIn(KoStandard, [0, 0, 0, 0, 0], 0, 5);
  }

  lemma EnStandardPlainFirst()
    ensures forall j :: 0 <= j < 3 ==> PlainLabel(EnStandard[j])
  {
    PlainLabelsIn(EnStandard, [0, 0, 0, 0, 0], 0, 3);
  }

  lemma EnStandardPlainLast()
    ensures forall j :: 3 <= j < 5 ==> PlainLabel(EnStandard[j])
  {
    PlainLabelsIn(EnStandard, [0, 0, 0, 0, 0], 3, 5);
  }

  lemma EnStandardPlain()
    ensures forall j :: 0 <= j < 5 ==> PlainLabel(EnStandard[j])
    ensures forall j, k :: 0 <= j < k < 5 ==> EnStandard[j] != EnStandard[k]
  {
    EnStandardPlainFirst();
    EnStandardPlainLast();
  }

  lemma KoBPlain()
    ensures PlainTable(Table(Ko, B))
  {
    PlainLabelsIn(KoBLabels, [0, 0, 0, 0, 0], 0, 5);
    KoStandardPlain();
    PairPlain(KoStandard, KoBLabels, Some(" 소개"), Some([1, 0, 2, 4, 3]));
  }

  lemma KoDPlain()
    ensures PlainTable(Table(Ko, D))
  {
    PlainLabelsIn(KoDLabels, [0, 0, 0, 0, 0], 0, 5);
    KoStandardPlain();
    PairPlain(KoStandard, KoDLabels, Some("에 대해서"), Some([1, 0, 3, 2, 4]));
  }

  lemma EnBPlainFirst()
    ensures forall j :: 0 <= j < 3 ==> PlainLabel(EnBLabels[j])
  {
    PlainLabelsIn(EnBLabels, [0, 0, 2, 0, 0], 0, 3);
  }

  lemma EnBPlainLast()
    ensures forall j :: 3 <= j < 5 ==> PlainLabel(EnBLabels[j])
  {
    PlainLabelsIn(EnBLabels, [0, 0, 2, 0, 0], 3, 5);
  }

  lemma EnBPlain()
    ensures PlainTable(Table(En, B))
  {
    EnBPlainFirst();
    EnBPlainLast();
    EnStandardPlain();
    PairPlain(EnStandard, EnBLabels, Some("About "), Some([1, 0, 2, 4, 3]));
  }

  lemma EnDPlainLabels()
    ensures forall j :: 0 <= j < 5 ==> PlainLabel(EnDLabels[j])
  {
    PlainLabelsIn(EnDLabels, [0, 0, 0, 0, 0], 0, 5);
  }

  lemma EnDPlain()
    ensures PlainTable(Table(En, D))
  {
    EnDPlainLabels();
    EnStandardPlain();
    PairPlain(EnStandard, EnDLabels, Some("All About "), Some([1, 0, 3, 2, 4]));
  }

  /** A line holding a plain heading with this label passes the reorder's heading test for it. */
  lemma HeadingOnLine(line: string, tag: string, name: string)
    requires PlainTag(tag) && Contains(line, tag + name + H3Close)
    ensures HasHeading(line, name)
  {
    var w := tag + name + H3Close;
    var k := IndexOf(line, w).value;
    var v := line[k..];
    assert v[..|w|] == w;
    assert v[..|tag|] == w[..|tag|] == tag;
    H3OpenUnique(v, |tag|);
    assert v[|tag|..][..|name| + 5] == w[|tag|..] == name + H3Close;
    HeadingBelow(line, name, 0, k);
  }

  lemma {:induction false} HeadingBelow(line: string, name: string, j: nat, k: nat)
    requires j <= k < |line| && LabelAt(line[k..], name).Some?
    ensures HasHeadingFrom(line, name, j)
    decreases k - j
  {
    if j < k {
      HeadingBelow(line, name, j + 1, k);
    }
  }

  lemma TablePlain(lang: Lang, v: Variant)
    requires v == B || v == D
    ensures PlainTable(Table(lang, v)) && Table(lang, v).intro.Some?
    ensures forall k :: 0 <= k < 5 ==> Table(lang, v).headings[k].0 == Standard(lang)[k]
  {
    match (lang, v)
    case (Ko, B) => KoBPlain();
    case (Ko, D) => KoDPlain();
    case (En, B) => EnBPlain();
    case (En, D) => EnDPlain();
  }

  /**
   * For the variants that reorder, a standard guide heading written as a plain heading on the page is, once the
   * labels and the intro are rewritten, on a line the reorder finds under the table's new label for it.
   */
  lemma RelabelledHeadingFound(html: string, lang: Lang, v: Variant, k: nat, tag: string)
    requires (v == B || v == D) && k < 5 && PlainTag(tag)
    requires Contains(html, tag + Standard(lang)[k] + H3Close)
    ensures FirstLineWith(Split(Relabel(html, lang, Table(lang, v)), '\n'), NewLabels(Table(lang, v))[k], 0).Some?
  {
    var t := Table(lang, v);
    TablePlain(lang, v);
    var name := t.headings[k].1;
    RelabelHeadingsRenames(html, t.headings, k, tag);
    var labelled := RelabelHeadings(html, t.headings);
    IntroPassKeeps(labelled, tag, name, lang, t.intro.value);
    var page := Relabel(html, lang, t);
    HeadingLetters(tag, name);
    var i := SplitContains(page, tag + name + H3Close, '\n');
    var lines := Split(page, '\n');
    HeadingOnLine(lines[i], tag, name);
  }

  /** With all five standard guide headings on the page, the reorder of a B or D page locates all five sections. */
  lemma RelabelledGuideLocated(html: string, lang: Lang, v: Variant, tags: seq<string>)
    requires (v == B || v == D) && |tags| == 5
    requires forall k :: 0 <= k < 5 ==> PlainTag(tags[k]) && Contains(html, tags[k] + Standard(lang)[k] + H3Close)
    ensures |LocateStarts(Split(Relabel(html, lang, Table(lang, v)), '\n'), NewLabels(Table(lang, v)))| == 5
  {
    var lines := Split(Relabel(html, lang, Table(lang, v)), '\n');
    var names := NewLabels(Table(lang, v));
    TablePlain(lang, v);
    forall k | 0 <= k < |names| ensures FirstLineWith(lines, names[k], 0).Some? {
      RelabelledHeadingFound(html, lang, v, k, tags[k]);
    }
    LocateStartsComplete(lines, names);
  }

  // ---------------------------------------------------------------------------
  // `applyVariant`
  // ---------------------------------------------------------------------------

  /** B's order is a permutation of the five positions. */
  lemma OrderBIsOrder()
    ensures IsOrder([1, 0, 2, 4, 3])
  {
    var o: seq<nat> := [1, 0, 2, 4, 3];
    assert o == [1, 0, 2] + [4, 3];
    assert multiset([4, 3]) == multiset([3, 4]);
    assert [0, 1, 2, 3, 4] == [0, 1, 2] + [3, 4];
    assert multiset([1, 0, 2]) == multiset([0, 1, 2]);
  }

  /** D's order is a permutation of the five positions. */
  lemma OrderDIsOrder()
    ensures IsOrder([1, 0, 3, 2, 4])
  {
    var o: seq<nat> := [1, 0, 3, 2, 4];
    assert o == [1, 0] + [3, 2] + [4];
    assert multiset([1, 0]) == multiset([0, 1]);
    assert multiset([3, 2]) == multiset([2, 3]);
    assert [0, 1, 2, 3, 4] == [0, 1] + [2, 3] + [4];
  }

  /** The B and D orders are permutations of the five positions. */
  lemma TableOrder(lang: Lang, v: Variant)
    ensures Table(lang, v).order.Some? ==> IsOrder(Table(lang, v).order.value)
  {
    if v == B {
      OrderBIsOrder();
    } else if v == D {
      OrderDIsOrder();
    }
  }

  /** `applyVariant(html, variant, lang)`: relabel, rewrite the intro, and reorder when the variant has an order. */
  function ApplyVariant(html: string, v: Variant, lang: Lang): (r: string)
    ensures v == A ==> r == html
    ensures Table(lang, v).order.None? ==> r == Relabel(html, lang, Table(lang, v))
  {
    if v == A then
      VariantATableInert(html, lang);
      html
    else
      var t := Table(lang, v);
      var relabelled := Relabel(html, lang, t);
      match t.order
      case None => relabelled
      case Some(order) =>
        TableOrder(lang, v);
        Reorder(relabelled, NewLabels(t), order)
  }

  // ---------------------------------------------------------------------------
  // `parseSections` (defined in the script, not called by the pipeline)
  // ---------------------------------------------------------------------------

  /** The exact base class the intro search looks for. */
  const H3Base: string := "<h3 class=\"text-lg font-semibold mt-6 mb-3\">"

  /** `line.includes('>' + h + '</h3>')` */
  predicate Carries(line: string, h: string) {
    Contains(line, ">" + h + H3Close)
  }

  /** The first label of `std`, from position `k` on, whose heading text the line carries. */
  function StandardFrom(line: string, std: seq<string>, k: nat): (r: Option<nat>)
    ensures r.Some? ==> k <= r.value < |std|
    decreases |std| - k
  {
    if k >= |std| then None
    else if Carries(line, std[k]) then Some(k)
    else StandardFrom(line, std, k + 1)
  }

  /** The label found is the first one the line carries; none is found only when the line carries none. */
  lemma {:induction false} StandardFromFirst(line: string, std: seq<string>, k: nat)
    ensures var r := StandardFrom(line, std, k);
            (r.Some? ==> Carries(line, std[r.value]) && forall j :: k <= j < r.value ==> !Carries(line, std[j])) &&
            (r.None? ==> forall j :: k <= j < |std| ==> !Carries(line, std[j]))
    decreases |std| - k
  {
    if k < |std| && !Carries(line, std[k]) {
      StandardFromFirst(line, std, k + 1);
    }
  }

  predicate IsStandardLine(line: string, std: seq<string>) {
    StandardFrom(line, std, 0).Some?
  }

  /** The label a standard heading line is filed under (the first one it carries). */
  function HeadingOf(line: string, std: seq<string>): string {
    match StandardFrom(line, std, 0)
    case Some(k) => std[k]
    case None => ""
  }

  /** `guideStartIdx`: the first line at or after `from` that carries a standard heading. */
  function GuideStart(lines: seq<string>, std: seq<string>, from: nat): (r: Option<nat>)
    ensures r.Some? ==> from <= r.value < |lines| && IsStandardLine(lines[r.value], std)
    decreases |lines| - from
  {
    if from >= |lines| then None
    else if IsStandardLine(lines[from], std) then Some(from)
    else GuideStart(lines, std, from + 1)
  }

  /** The guide starts at the first standard heading line; there is none only when no line carries a standard heading. */
  lemma {:induction false} GuideStartFirst(lines: seq<string>, std: seq<string>, from: nat)
    ensures var r := GuideStart(lines, std, from);
            (r.Some? ==> forall j :: from <= j < r.value ==> !IsStandardLine(lines[j], std)) &&
            (r.None? ==> forall j :: from <= j < |lines| ==> !IsStandardLine(lines[j], std))
    decreases |lines| - from
  {
    if from < |lines| && !IsStandardLine(lines[from], std) {
      GuideStartFirst(lines, std, from + 1);
    }
  }

  /** A heading line with exactly the base class that carries no standard heading. */
  predicate IsIntroLine(line: string, std: seq<string>) {
    Contains(line, H3Base) && !IsStandardLine(line, std)
  }

  /** Searching downwards from `i` to `lo`: the nearest intro line. */
  function IntroFrom(lines: seq<string>, std: seq<string>, lo: nat, i: int): (r: Option<nat>)
    requires i < |lines|
    ensures r.Some? ==> lo <= r.value <= i
    decreases i + 1 - lo
  {
    if i < lo then None
    else if IsIntroLine(lines[i], std) then Some(i)
    else IntroFrom(lines, std, lo, i - 1)
  }

  /** The downward search finds the nearest intro line in the window, and reports none only when there is none. */
  lemma {:induction false} IntroFromNearest(lines: seq<string>, std: seq<string>, lo: nat, i: int)
    requires i < |lines|
    ensures var r := IntroFrom(lines, std, lo, i);
            (r.Some? ==> IsIntroLine(lines[r.value], std) && forall j :: r.value < j <= i ==> !IsIntroLine(lines[j], std)) &&
            (r.None? ==> forall j :: lo <= j <= i ==> !IsIntroLine(lines[j], std))
    decreases i + 1 - lo
  {
    if i >= lo && !IsIntroLine(lines[i], std) {
      IntroFromNearest(lines, std, lo, i - 1);
    }
  }

  /** The standard heading lines in `[lo, hi)`, in order. */
  function HeadingLines(lines: seq<string>, std: seq<string>, lo: nat, hi: nat): seq<nat>
    requires lo <= hi <= |lines|
    decreases hi - lo
  {
    if hi == lo then []
    else HeadingLines(lines, std, lo, hi - 1) + (if IsStandardLine(lines[hi - 1], std) then [hi - 1] else [])
  }

  /** The heading lines are standard heading lines in `[lo, hi)`, strictly increasing. */
  lemma {:induction false} HeadingLinesAscending(lines: seq<string>, std: seq<string>, lo: nat, hi: nat)
    requires lo <= hi <= |lines|
    ensures var r := HeadingLines(lines, std, lo, hi);
            Ascending(r, hi) && forall k :: 0 <= k < |r| ==> lo <= r[k] && IsStandardLine(lines[r[k]], std)
    decreases hi - lo
  {
    if hi > lo {
      HeadingLinesAscending(lines, std, lo, hi - 1);
    }
  }

  lemma HeadingLinesStep(lines: seq<string>, std: seq<string>, lo: nat, i: nat)
    requires lo <= i < |lines|
    ensures HeadingLines(lines, std, lo, i + 1) ==
            HeadingLines(lines, std, lo, i) + if IsStandardLine(lines[i], std) then [i] else []
  {
  }

  /** No standard heading line is skipped. */
  lemma {:induction false} HeadingLinesComplete(lines: seq<string>, std: seq<string>, lo: nat, hi: nat, j: nat)
    requires lo <= j < hi <= |lines| && IsStandardLine(lines[j], std)
    ensures j in HeadingLines(lines, std, lo, hi)
    decreases hi - lo
  {
    if j < hi - 1 {
      HeadingLinesComplete(lines, std, lo, hi - 1, j);
    }
  }

  /** The first heading line found from a standard line on is that line. */
  lemma HeadingLinesFirst(lines: seq<string>, std: seq<string>, g: nat, hi: nat)
    requires g < hi <= |lines| && IsStandardLine(lines[g], std)
    ensures var hs := HeadingLines(lines, std, g, hi); hs != [] && hs[0] == g && Ascending(hs, hi)
  {
    HeadingLinesComplete(lines, std, g, hi, g);
    HeadingLinesAscending(lines, std, g, hi);
  }

  lemma {:induction false} AscendingFirst(hs: seq<nat>, k: nat)
    requires 0 < k < |hs| && forall i :: 0 < i < |hs| ==> hs[i - 1] < hs[i]
    ensures hs[0] < hs[k]
    decreases k
  {
    if k > 1 {
      AscendingFirst(hs, k - 1);
    }
  }

  datatype Section = Section(heading: string, headingLine: string, startLine: nat, contentLines: seq<string>)
  datatype IntroSection = IntroSection(startLine: nat, lines: seq<string>)
  datatype Parsed = Parsed(intro: Option<IntroSection>, sections: seq<Section>, allLines: seq<string>)

  /** The section whose heading is line `s`, with its content lines up to (not including) line `e`. */
  function SectionAt(lines: seq<string>, std: seq<string>, s: nat, e: nat): Section {
    if s < e <= |lines| then Section(HeadingOf(lines[s], std), lines[s], s, lines[s + 1..e])
    else Section("", "", s, [])  // no such span; never asked for
  }

  /** Line indices below `n`, strictly increasing. */
  predicate Ascending(hs: seq<nat>, n: nat) {
    (forall k :: 0 <= k < |hs| ==> hs[k] < n) && forall k :: 0 < k < |hs| ==> hs[k - 1] < hs[k]
  }

  /** The sections closed by a following heading: every heading line but the last, each running to the next. */
  function Closed(lines: seq<string>, std: seq<string>, hs: seq<nat>): (r: seq<Section>)
    ensures |r| == if hs == [] then 0 else |hs| - 1
    decreases |hs|
  {
    if |hs| <= 1 then []
    else Closed(lines, std, hs[..|hs| - 1]) + [SectionAt(lines, std, hs[|hs| - 2], hs[|hs| - 1])]
  }

  /**
   * `lastSectionEnd` of `parseSections`: one past the first closing `</div>` (next line `</div>`, blank,
   * `<!-- Ad…` or `<div class="mt-…`, balance not positive) within 100 lines of the heading; failing that,
   * the last line index the search visited, or `s + 1` when it visited none.
   */
  function ParseLastEnd(lines: seq<string>, s: nat): (e: nat)
    requires s < |lines|
    ensures s < e <= |lines|
  {
    var lim := Min(|lines|, s + 100);
    match FallbackClose(lines, s, s + 1, 100, AdComment)
    case Some(i) => i + 1
    case None => if s + 1 < lim then lim - 1 else s + 1
  }

  /** `parseSections(html, standardHeadings)` */
  function Parse(html: string, std: seq<string>): (r: Option<Parsed>)
    ensures r.None? <==> GuideStart(Split(html, '\n'), std, 0).None?
    ensures r.Some? ==> r.value.allLines == Split(html, '\n') && r.value.sections != [] &&
                        r.value.intro == IntroOf(Split(html, '\n'), std, GuideStart(Split(html, '\n'), std, 0).value)
  {
    var lines := Split(html, '\n');
    match GuideStart(lines, std, 0)
    case None => None
    case Some(g) =>
      var intro := IntroOf(lines, std, g);
      var hs := HeadingLines(lines, std, g, |lines|);
      HeadingLinesFirst(lines, std, g, |lines|);
      var last := hs[|hs| - 1];
      Some(Parsed(intro, Closed(lines, std, hs) + [SectionAt(lines, std, last, ParseLastEnd(lines, last))], lines))
  }

  /** Each closed section runs from its heading line to the next heading line. */
  lemma {:induction false} ClosedAt(lines: seq<string>, std: seq<string>, hs: seq<nat>, k: nat)
    requires k + 1 < |hs|
    ensures Closed(lines, std, hs)[k] == SectionAt(lines, std, hs[k], hs[k + 1])
    decreases |hs|
  {
    var init := hs[..|hs| - 1];
    if k + 2 < |hs| {
      ClosedAt(lines, std, init, k);
    }
  }

  /** The heading lines and their contents, read in order, are the lines from the first heading to `e`. */
  function Flatten(secs: seq<Section>): seq<string>
    decreases |secs|
  {
    if secs == [] then [] else Flatten(secs[..|secs| - 1]) + [secs[|secs| - 1].headingLine] + secs[|secs| - 1].contentLines
  }

  lemma FlattenSnoc(c: seq<Section>, sec: Section)
    ensures Flatten(c + [sec]) == Flatten(c) + [sec.headingLine] + sec.contentLines
  {
    assert (c + [sec])[..|c|] == c;
  }

  lemma LinesSnoc(lines: seq<string>, lo: nat, a: nat, b: nat)
    requires lo <= a < b <= |lines|
    ensures lines[lo..b] == lines[lo..a] + [lines[a]] + lines[a + 1..b]
  {
  }

  lemma {:induction false} ClosedTile(lines: seq<string>, std: seq<string>, hs: seq<nat>)
    requires Ascending(hs, |lines|) && hs != [] && hs[0] <= hs[|hs| - 1]
    ensures Flatten(Closed(lines, std, hs)) == lines[hs[0]..hs[|hs| - 1]]
    decreases |hs|
  {
    if |hs| > 1 {
      var init := hs[..|hs| - 1];
      if |hs| > 2 {
        AscendingFirst(hs, |hs| - 2);
      }
      ClosedTile(lines, std, init);
      var a, b := hs[|hs| - 2], hs[|hs| - 1];
      var c, sec := Closed(lines, std, init), SectionAt(lines, std, a, b);
      assert init[0] == hs[0] && init[|init| - 1] == a;
      assert Closed(lines, std, hs) == c + [sec];
      assert sec.headingLine == lines[a] && sec.contentLines == lines[a + 1..b];
      FlattenSnoc(c, sec);
      LinesSnoc(lines, hs[0], a, b);
    }
  }

  /** `parseSections` gives up exactly when no line carries a standard heading. */
  lemma ParseNone(html: string, std: seq<string>)
    ensures var lines := Split(html, '\n');
            Parse(html, std).None? <==> forall j :: 0 <= j < |lines| ==> !IsStandardLine(lines[j], std)
  {
    var lines := Split(html, '\n');
    GuideStartFirst(lines, std, 0);
    var r := GuideStart(lines, std, 0);
    assert Parse(html, std).None? <==> r.None?;
    if r.Some? {
      assert IsStandardLine(lines[r.value], std);
    }
  }

  /** Closed sections followed by the last one, ending at `e`: each runs to the next heading, and together they tile. */
  lemma SectionsShape(lines: seq<string>, std: seq<string>, hs: seq<nat>, e: nat)
    requires Ascending(hs, |lines|) && hs != [] && hs[0] <= hs[|hs| - 1] < e <= |lines|
    ensures var secs := Closed(lines, std, hs) + [SectionAt(lines, std, hs[|hs| - 1], e)];
            |secs| == |hs| &&
            (forall k :: 0 <= k < |hs| - 1 ==> secs[k] == SectionAt(lines, std, hs[k], hs[k + 1])) &&
            secs[|hs| - 1] == SectionAt(lines, std, hs[|hs| - 1], e) &&
            Flatten(secs) == lines[hs[0]..e]
  {
    var last := hs[|hs| - 1];
    var c := Closed(lines, std, hs);
    var secs := c + [SectionAt(lines, std, last, e)];
    forall k | 0 <= k < |hs| - 1 ensures secs[k] == SectionAt(lines, std, hs[k], hs[k + 1]) {
      ClosedAt(lines, std, hs, k);
    }
    ClosedTile(lines, std, hs);
    FlattenSnoc(c, SectionAt(lines, std, last, e));
    LinesSnoc(lines, hs[0], last, e);
  }

  /**
   * What `parseSections` finds: the first line carrying a standard heading starts the guide; every
   * standard heading line from there on starts a section, whose content runs to the next such line,
   * and the last one to `ParseLastEnd`; read in order, the sections are exactly the guide's lines.
   */
  lemma ParseSectionsShape(html: string, std: seq<string>)
    requires Parse(html, std).Some?
    ensures var lines := Split(html, '\n');
            var g := GuideStart(lines, std, 0).value;
            var hs := HeadingLines(lines, std, g, |lines|);
            var secs := Parse(html, std).value.sections;
            hs != [] && hs[0] == g && g <= hs[|hs| - 1] < |lines| && Ascending(hs, |lines|) && |secs| == |hs| &&
            (forall k :: 0 <= k < |hs| - 1 ==> secs[k] == SectionAt(lines, std, hs[k], hs[k + 1])) &&
            var last := hs[|hs| - 1];
            secs[|hs| - 1] == SectionAt(lines, std, last, ParseLastEnd(lines, last)) &&
            Flatten(secs) == lines[g..ParseLastEnd(lines, last)]
  {
    var lines := Split(html, '\n');
    var g := GuideStart(lines, std, 0).value;
    HeadingLinesFirst(lines, std, g, |lines|);
    var hs := HeadingLines(lines, std, g, |lines|);
    if |hs| > 1 {
      AscendingFirst(hs, |hs| - 1);
    }
    SectionsShape(lines, std, hs, ParseLastEnd(lines, hs[|hs| - 1]));
  }

  /** The intro lookback's result for a guide starting at line `g`. */
  function IntroOf(lines: seq<string>, std: seq<string>, g: nat): Option<IntroSection>
    requires g < |lines|
  {
    match IntroFrom(lines, std, if g >= 15 then g - 15 else 0, g - 1)
    case None => None
    case Some(i) => Some(IntroSection(i, lines[i..g]))
  }

  /**
   * The intro section is the nearest line above the guide, at most 15 lines up, holding the exact base
   * heading class and no standard heading; it runs up to the guide's first line. None is reported when
   * no such line exists in that window.
   */
  lemma IntroWindow(lines: seq<string>, std: seq<string>, g: nat)
    requires g < |lines|
    ensures var lo := if g >= 15 then g - 15 else 0;
            match IntroOf(lines, std, g)
            case None => forall j :: lo <= j < g ==> !IsIntroLine(lines[j], std)
            case Some(intro) =>
              lo <= intro.startLine < g && IsIntroLine(lines[intro.startLine], std) &&
              intro.lines == lines[intro.startLine..g] &&
              forall j :: intro.startLine < j < g ==> !IsIntroLine(lines[j], std)
  {
    IntroFromNearest(lines, std, if g >= 15 then g - 15 else 0, g - 1);
  }

  /** `standardHeadings.find(h => line.includes('>' + h + '</h3>'))`, as the script's inner loop does it. */
  method MatchStandard(line: string, std: seq<string>) returns (found: Option<nat>)
    ensures found == StandardFrom(line, std, 0)
  {
    found := None;
    for k := 0 to |std|
      invariant StandardFrom(line, std, 0) == StandardFrom(line, std, k)
    {
      if Contains(line, ">" + std[k] + H3Close) {
        found := Some(k);
        return;
      }
    }
  }

  /** The `lastSectionEnd` scan of `parseSections`: the line after the closing line, or the last line scanned. */
  method FindParseLastEnd(lines: seq<string>, s: nat) returns (lastEnd: nat)
    requires s < |lines|
    ensures lastEnd == ParseLastEnd(lines, s)
  {
    var close := ScanForClose(lines, s, 100, AdComment);
    var lim := Min(|lines|, s + 100);
    match close
    case Some(i) =>
      lastEnd := i + 1;
    case None =>
      lastEnd := if s + 1 < lim then lim - 1 else s + 1;
  }

  /** `parseSections(html, standardHeadings)`: the guide start, the intro lookback, the section pass and the last end. */
  method ParseSections(html: string, std: seq<string>) returns (r: Option<Parsed>)
    ensures r == Parse(html, std)
  {
    var lines := Split(html, '\n');
    var guideStart: int := -1;
    for i := 0 to |lines|
      invariant guideStart == -1 ==> GuideStart(lines, std, 0) == GuideStart(lines, std, i)
      invariant guideStart != -1 ==> 0 <= guideStart < i && GuideStart(lines, std, 0) == Some(guideStart)
    {
      if guideStart == -1 {
        var found := MatchStandard(lines[i], std);
        if found.Some? {
          guideStart := i;
        }
      }
    }
    if guideStart == -1 {
      return None;
    }
    var g: nat := guideStart;

    var intro := FindIntro(lines, std, g);
    var sections, currentStart := CollectSections(lines, std, g);
    var lastEnd := FindParseLastEnd(lines, currentStart);
    sections := sections + [Section(HeadingOf(lines[currentStart], std), lines[currentStart], currentStart, lines[currentStart + 1..lastEnd])];
    r := Some(Parsed(intro, sections, lines));
  }

  /** The intro lookback: from the line above the guide up to 15 lines up, the nearest intro line. */
  method FindIntro(lines: seq<string>, std: seq<string>, g: nat) returns (intro: Option<IntroSection>)
    requires g < |lines|
    ensures intro == IntroOf(lines, std, g)
  {
    intro := None;
    var lo := if g >= 15 then g - 15 else 0;
    var i: int := g - 1;
    while i >= lo
      invariant lo - 1 <= i <= g - 1
      invariant IntroFrom(lines, std, lo, g - 1) == IntroFrom(lines, std, lo, i)
    {
      var found := MatchStandard(lines[i], std);
      if Contains(lines[i], H3Base) && found.None? {
        var copied := CopyLines(lines, i, g);
        intro := Some(IntroSection(i, copied));
        return;
      }
      i := i - 1;
    }
  }

  /** `for (let j = i; j < guideStartIdx; j++) introSection.lines.push(lines[j])` */
  method CopyLines(lines: seq<string>, i: nat, g: nat) returns (copied: seq<string>)
    requires i <= g <= |lines|
    ensures copied == lines[i..g]
  {
    copied := [];
    for j := i to g
      invariant copied == lines[i..j]
    {
      copied := copied + [lines[j]];
    }
  }

  /** A new heading line closes the section of the previous one. */
  lemma ClosedSnoc(lines: seq<string>, std: seq<string>, hs: seq<nat>, i: nat)
    requires hs != []
    ensures Closed(lines, std, hs + [i]) == Closed(lines, std, hs) + [SectionAt(lines, std, hs[|hs| - 1], i)]
  {
    assert (hs + [i])[..|hs|] == hs;
  }

  /** From a standard heading line on, the heading lines are empty only before that line is reached. */
  lemma HeadingLinesStart(lines: seq<string>, std: seq<string>, g: nat, i: nat)
    requires g <= i <= |lines| && (g < |lines| && IsStandardLine(lines[g], std))
    ensures HeadingLines(lines, std, g, i) == [] <==> i == g
  {
    if i > g {
      HeadingLinesComplete(lines, std, g, i, g);
    }
  }

  /** The record the section pass pushes, built from the heading and line it remembered, is the section at `s`. */
  lemma SectionRecord(lines: seq<string>, std: seq<string>, s: nat, e: nat, heading: string, headingLine: string)
    requires s < e <= |lines| && heading == HeadingOf(lines[s], std) && headingLine == lines[s]
    ensures Section(heading, headingLine, s, lines[s + 1..e]) == SectionAt(lines, std, s, e)
  {
  }

  /** What the section pass knows after the lines before `i`: the headings seen, the current one, the sections closed. */
  ghost predicate CollectState(lines: seq<string>, std: seq<string>, g: nat, i: nat, hs: seq<nat>, sections: seq<Section>,
                               cur: nat, heading: Option<string>, headingLine: string)
    requires g <= i <= |lines|
  {
    hs == HeadingLines(lines, std, g, i) &&
    (heading.None? <==> hs == []) &&
    (hs != [] ==>
       cur == hs[|hs| - 1] && cur < i && heading.value == HeadingOf(lines[cur], std) && headingLine == lines[cur]) &&
    sections == Closed(lines, std, hs)
  }

  /** A line without a standard heading leaves the section pass's state as it was. */
  lemma CollectSkip(lines: seq<string>, std: seq<string>, g: nat, i: nat, hs: seq<nat>, sections: seq<Section>,
                    cur: nat, heading: Option<string>, headingLine: string)
    requires g <= i < |lines| && CollectState(lines, std, g, i, hs, sections, cur, heading, headingLine)
    requires StandardFrom(lines[i], std, 0).None?
    ensures CollectState(lines, std, g, i + 1, hs, sections, cur, heading, headingLine)
  {
    HeadingLinesStep(lines, std, g, i);
  }

  /** The first standard heading line becomes the current one; nothing is closed yet. */
  lemma CollectOpen(lines: seq<string>, std: seq<string>, g: nat, i: nat, hs: seq<nat>, sections: seq<Section>,
                    cur: nat, headingLine: string, which: nat)
    requires g <= i < |lines| && CollectState(lines, std, g, i, hs, sections, cur, None, headingLine)
    requires StandardFrom(lines[i], std, 0) == Some(which)
    ensures which < |std|
    ensures CollectState(lines, std, g, i + 1, hs + [i], sections, i, Some(std[which]), lines[i])
  {
    assert HeadingOf(lines[i], std) == std[which];
    HeadingLinesStep(lines, std, g, i);
    assert hs + [i] == [i];
  }

  /** A later standard heading line closes the current section and becomes the current one. */
  lemma CollectClose(lines: seq<string>, std: seq<string>, g: nat, i: nat, hs: seq<nat>, sections: seq<Section>,
                     cur: nat, heading: string, headingLine: string, which: nat)
    requires g <= i < |lines| && CollectState(lines, std, g, i, hs, sections, cur, Some(heading), headingLine)
    requires StandardFrom(lines[i], std, 0) == Some(which)
    ensures which < |std|
    ensures CollectState(lines, std, g, i + 1, hs + [i], sections + [Section(heading, headingLine, cur, lines[cur + 1..i])],
                         i, Some(std[which]), lines[i])
  {
    assert HeadingOf(lines[i], std) == std[which];
    HeadingLinesStep(lines, std, g, i);
    ClosedSnoc(lines, std, hs, i);
    SectionRecord(lines, std, cur, i, heading, headingLine);
  }

  /** The section pass: every standard heading line from the guide start closes the previous section. */
  method CollectSections(lines: seq<string>, std: seq<string>, g: nat) returns (sections: seq<Section>, currentStart: nat)
    requires g < |lines| && IsStandardLine(lines[g], std)
    ensures var hs := HeadingLines(lines, std, g, |lines|);
            hs != [] && currentStart == hs[|hs| - 1] && sections == Closed(lines, std, hs)
    ensures currentStart < |lines|
  {
    sections := [];
    currentStart := g;
    var currentHeading: Option<string> := None;
    var currentHeadingLine := "";
    ghost var hs: seq<nat> := [];
    for i := g to |lines|
      invariant CollectState(lines, std, g, i, hs, sections, currentStart, currentHeading, currentHeadingLine)
    {
      var found := MatchStandard(lines[i], std);
      if found.None? {
        CollectSkip(lines, std, g, i, hs, sections, currentStart, currentHeading, currentHeadingLine);
      } else {
        if currentHeading.Some? {
          CollectClose(lines, std, g, i, hs, sections, currentStart, currentHeading.value, currentHeadingLine, found.value);
          sections := sections + [Section(currentHeading.value, currentHeadingLine, currentStart, lines[currentStart + 1..i])];
        } else {
          CollectOpen(lines, std, g, i, hs, sections, currentStart, currentHeadingLine, found.value);
        }
        currentHeading, currentHeadingLine, currentStart := Some(std[found.value]), lines[i], i;
        hs := hs + [i];
      }
    }
    HeadingLinesStart(lines, std, g, |lines|);
  }
}
