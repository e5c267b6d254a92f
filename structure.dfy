/**
 * The structural restyling pass over tool pages (scripts/auto/diversify-structure.js).
 *
 * Each page is assigned one of the variants A-D. Variant A leaves the page alone. For B, C and D the pass
 * locates the guide `<section>` and rewrites fixed class strings from that point to the end of the page,
 * in a fixed order: the section tag, the h3 classes, the list classes, the Q&A wrapper, the Q&A question
 * headings and finally the Q&A answer paragraphs.
 */
module Structure {
  import opened Text
  import Headings

  type Variant = Headings.Variant

  /** A literal class or tag rewrite. */
  datatype Rule = Rule(from: string, to: string)

  /** How an answer rule recognises a question heading's opening tag. */
  datatype H4Open =
    | Exact(tag: string)            // the tag, character for character
    | ClassPrefix(prefix: string)   // the prefix, any quote-free run, then `">`

  /** `(<question h4>[^<]*</h4>\s*)<p …>` becomes `$1` followed by `to`. */
  datatype AnswerRule = AnswerRule(h4: H4Open, p: string, to: string)

  /** One variant's rules; `None` is a rule the variant does not apply. */
  datatype Restyle = Restyle(
    section: Option<Rule>,
    h3: Option<Rule>,
    h3Alt: Option<Rule>,
    ul: Option<Rule>,
    ol: Option<Rule>,
    qaDivWrap: Option<Rule>,
    qaH4: Option<Rule>,
    qaH4Alt: Option<Rule>,
    qaP: Option<AnswerRule>,
    qaPClassed: Option<AnswerRule>)

  // ---------------------------------------------------------------------------
  // The rule table
  // ---------------------------------------------------------------------------

  // the longer class strings are written in pieces so that facts about their characters stay cheap to check
  const SectionBase: string := BasePiece1 + BasePiece2 + BasePiece3
  const H3Class: string := "text-lg font-semibold mt-6 mb-3"
  const H3AltClass: string := "text-lg font-semibold text-gray-900 dark:text-white mt-6 mb-3"
  const UlClass: string := "list-disc list-inside space-y-2"
  const OlClass: string := "list-decimal list-inside space-y-2"
  const QaWrap: string := "<div class=\"space-y-4\">"
  // tags are written as `<` followed by the rest, for the same reason
  const QaH4: string := "<" + QaH4Tail
  const QaH4Tail: string := "h4 class=\"font-medium\">"
  const QaH4Alt: string := "<" + QaH4AltTail
  const QaH4AltTail: string := "h4 class=\"font-medium " + "text-gray-900 dark:text-white\">"
  const PlainP: string := "<p>"
  const ClassedP: string := "<p class=\"text-gray-600 dark:text-gray-400\">"
  const H4Close: string := "</h4>"

  const SectionToB: string := "mt-10 bg-white dark:bg-gray-800 " + "rounded-xl p-5 shadow border " + "border-gray-200 dark:border-gray-600"
  const SectionToC: string := "mt-8 bg-gray-50 dark:bg-gray-800/50 " + "rounded-2xl p-6 border " + "border-gray-100 dark:border-gray-700"
  const SectionToD: string := "mt-8 bg-white dark:bg-gray-800 " + "rounded-lg p-5 md:p-8 ring-1 " + "ring-gray-100 dark:ring-gray-700"

  const H3ToB: string := "text-lg font-bold mt-8 mb-2"
  const H3ToC: string := "text-base font-bold text-gray-800 " + "dark:text-gray-200 mt-6 mb-2"
  /** Variant D keeps the standard class and appends a bottom border. */
  const DSuffix: string := " pb-2 border-b " + "border-gray-100 dark:border-gray-700"
  const H3ToD: string := H3Class + DSuffix

  const QuestionB: string := "<" + QuestionBTail
  const QuestionBTail: string := "h4 class=\"font-semibold " + "text-gray-800 dark:text-gray-200\">"
  const QuestionPrefixC: string := "<" + PrefixCTail
  const PrefixCTail: string := "h4 class=\"font-medium pt-3 first:pt-0"
  const AltTail: string := " text-gray-900 dark:text-white"
  const QuestionC: string := QuestionPrefixC + "\">"
  const QuestionAltC: string := QuestionPrefixC + AltTail + "\">"
  const QuestionD: string := "<" + QuestionDTail
  const QuestionDTail: string := "h4 class=\"font-semibold text-sm\">"

  const AnswerB: string := "<p class=\"text-gray-500 dark:text-gray-400 mt-1\">"
  const AnswerC: string := "<p class=\"text-gray-600 dark:text-gray-400 pb-1\">"
  const AnswerD: string := "<p class=\"text-gray-600 dark:text-gray-400 text-sm mt-1\">"

  /** The `VARIANTS` table. */
  function Rules(v: Variant): Restyle {
    match v
    case A => Restyle(None, None, None, None, None, None, None, None, None, None)
    case B => Restyle(
      Some(Rule(SectionBase, SectionToB)),
      Some(Rule(H3Class, H3ToB)),
      Some(Rule(H3AltClass, H3ToB)),
      Some(Rule(UlClass, "list-disc pl-5 space-y-1.5")),
      Some(Rule(OlClass, "list-decimal pl-5 space-y-1.5")),
      Some(Rule(QaWrap, "<div class=\"space-y-3\">")),
      Some(Rule(QaH4, QuestionB)),
      Some(Rule(QaH4Alt, QuestionB)),
      Some(AnswerRule(Exact(QuestionB), PlainP, AnswerB)),
      Some(AnswerRule(Exact(QuestionB), ClassedP, AnswerB)))
    case C => Restyle(
      Some(Rule(SectionBase, SectionToC)),
      Some(Rule(H3Class, H3ToC)),
      Some(Rule(H3AltClass, H3ToC)),
      None,
      None,
      Some(Rule(QaWrap, "<div class=\"divide-y divide-gray-100 dark:divide-gray-700\">")),
      Some(Rule(QaH4, QuestionC)),
      Some(Rule(QaH4Alt, QuestionAltC)),
      Some(AnswerRule(ClassPrefix(QuestionPrefixC), PlainP, AnswerC)),
      Some(AnswerRule(ClassPrefix(QuestionPrefixC), ClassedP, AnswerC)))
    case D => Restyle(
      Some(Rule(SectionBase, SectionToD)),
      Some(Rule(H3Class, H3ToD)),
      Some(Rule(H3AltClass, H3ToD)),
      Some(Rule(UlClass, "list-disc ml-5 space-y-2")),
      Some(Rule(OlClass, "list-decimal ml-5 space-y-2")),
      Some(Rule(QaWrap, "<div class=\"space-y-5\">")),
      Some(Rule(QaH4, QuestionD)),
      Some(Rule(QaH4Alt, QuestionD)),
      Some(AnswerRule(Exact(QuestionD), PlainP, AnswerD)),
      Some(AnswerRule(Exact(QuestionD), ClassedP, AnswerD)))
  }

  // ---------------------------------------------------------------------------
  // Tags of the shape `prefix[^"]*">`
  // ---------------------------------------------------------------------------

  /** Length of a tag `prefix`, quote-free run, `">` at the start of `t`: it ends just after the first quote past the prefix. */
  function TagLen(t: string, prefix: string): (r: Option<nat>)
    ensures r.Some? ==> |prefix| + 2 <= r.value <= |t|
  {
    if !StartsWith(t, prefix) then None
    else
      match FindChar(t[|prefix|..], '"')
      case None => None
      case Some(q) =>
        var c := |prefix| + q;
        if c + 1 < |t| && t[c + 1] == '>' then Some(c + 2) else None
  }

  /** A tag is the prefix, a run without quotes, then `">`. */
  lemma TagLenShape(t: string, prefix: string)
    requires TagLen(t, prefix).Some?
    ensures var n := TagLen(t, prefix).value;
            StartsWith(t, prefix) && '"' !in t[|prefix|..n - 2] && t[n - 2] == '"' && t[n - 1] == '>'
  {
    FindCharFirst(t[|prefix|..], '"');
    var q := FindChar(t[|prefix|..], '"').value;
    assert t[|prefix|..|prefix| + q] == t[|prefix|..][..q];
  }

  // ---------------------------------------------------------------------------
  // findGuideSection
  // ---------------------------------------------------------------------------

  const SectionLead: string := "<section class=\""
  const SectionOpen: string := SectionLead + SectionBase
  const Prose: string := "prose"
  const H3Lead: string := "<h3"
  const Window: nat := 2000

  /** `/<section class="BASE[^"]*">/`: the guide-class section tag at the start of `t`. */
  function SectionTagLen(t: string): Option<nat> {
    TagLen(t, SectionOpen)
  }

  // The scan is stated for any tag prefix `open` of the right shape; the script's prefix is `SectionOpen`.

  /** A tag `open[^"]*">` starts at `k`. */
  predicate TagAt(html: string, open: string, k: nat) {
    k < |html| && TagLen(html[k..], open).Some?
  }

  /** `sectionRegex.exec(html)` with `lastIndex == from`: the next tag at or after `from`. */
  function NextTag(html: string, open: string, from: nat): (r: Option<nat>)
    ensures r.Some? ==> from <= r.value < |html|
    decreases |html| - from
  {
    if from >= |html| then None
    else if TagAt(html, open, from) then Some(from)
    else NextTag(html, open, from + 1)
  }

  /** The 2000 characters from `k` on mention both `prose` and `<h3`. */
  predicate Qualifies(html: string, k: nat)
    requires k <= |html|
  {
    var w := html[k..Headings.Min(k + Window, |html|)];
    Includes(w, Prose) && Includes(w, H3Lead)
  }

  /** A guide section starts at `k`. */
  predicate GuideAt(html: string, open: string, k: nat) {
    TagAt(html, open, k) && Qualifies(html, k)
  }

  /** The first guide section at or after `from`. */
  function GuideFrom(html: string, open: string, from: nat): (r: Option<nat>)
    ensures r.Some? ==> from <= r.value < |html|
    decreases |html| - from
  {
    if from >= |html| then None
    else if GuideAt(html, open, from) then Some(from)
    else GuideFrom(html, open, from + 1)
  }

  /** Where `findGuideSection` finds the guide: the first qualifying guide-class section tag. */
  function FindGuide(html: string): Option<nat> {
    GuideFrom(html, SectionOpen, 0)
  }

  /** The first guide section at or after `from` is the first position there that qualifies, and None means none does. */
  lemma {:induction false} GuideFromFirst(html: string, open: string, from: nat)
    ensures GuideFrom(html, open, from).Some? ==> GuideAt(html, open, GuideFrom(html, open, from).value)
    ensures GuideFrom(html, open, from).Some? ==>
      forall j :: from <= j < GuideFrom(html, open, from).value ==> !GuideAt(html, open, j)
    ensures GuideFrom(html, open, from).None? ==> forall j :: from <= j < |html| ==> !GuideAt(html, open, j)
    decreases |html| - from
  {
    if from < |html| && !GuideAt(html, open, from) {
      GuideFromFirst(html, open, from + 1);
      var r := GuideFrom(html, open, from + 1);
      var stop := if r.Some? then r.value else |html|;
      forall j | from <= j < stop ensures !GuideAt(html, open, j) {
      }
    }
  }

  /** `findGuideSection` finds the first qualifying section tag, and no tag qualifies when it finds nothing. */
  lemma GuideFirst(html: string)
    ensures FindGuide(html).Some? ==> GuideAt(html, SectionOpen, FindGuide(html).value)
    ensures FindGuide(html).Some? ==> forall j :: 0 <= j < FindGuide(html).value ==> !GuideAt(html, SectionOpen, j)
    ensures FindGuide(html).None? ==> forall j :: 0 <= j < |html| ==> !GuideAt(html, SectionOpen, j)
  {
    GuideFromFirst(html, SectionOpen, 0);
  }

  /** The search gives the same answer from `a` as from `b`. */
  predicate SameGuide(html: string, open: string, a: nat, b: nat) {
    GuideFrom(html, open, a) == GuideFrom(html, open, b)
  }

  lemma SameGuideTrans(html: string, open: string, a: nat, b: nat, c: nat)
    requires SameGuide(html, open, a, b) && SameGuide(html, open, b, c)
    ensures SameGuide(html, open, a, c)
  {
  }

  /** No guide section starts in `[from, to)`. */
  predicate NoGuideIn(html: string, open: string, from: nat, to: nat) {
    forall j :: from <= j < to ==> !GuideAt(html, open, j)
  }

  /** Skipping positions where no guide section starts does not change the answer. */
  lemma {:induction false} GuideFromSkip(html: string, open: string, from: nat, to: nat)
    requires from <= to && NoGuideIn(html, open, from, to)
    ensures GuideFrom(html, open, from) == GuideFrom(html, open, to)
    decreases (to as int) - (from as int)
  {
    if from < to && from < |html| {
      assert !GuideAt(html, open, from);
      GuideFromSkip(html, open, from + 1, to);
    }
  }

  /** No tag starts between `from` and the next tag, and none at all when there is no next tag. */
  lemma {:induction false} NextTagFirst(html: string, open: string, from: nat)
    ensures NextTag(html, open, from).Some? ==> TagAt(html, open, NextTag(html, open, from).value)
    ensures NextTag(html, open, from).Some? ==>
      forall j :: from <= j < NextTag(html, open, from).value ==> !TagAt(html, open, j)
    ensures NextTag(html, open, from).None? ==> forall j :: from <= j < |html| ==> !TagAt(html, open, j)
    decreases |html| - from
  {
    if from < |html| && !TagAt(html, open, from) {
      NextTagFirst(html, open, from + 1);
      var r := NextTag(html, open, from + 1);
      var stop := if r.Some? then r.value else |html|;
      forall j | from <= j < stop ensures !TagAt(html, open, j) {
      }
    }
  }

  /** A tag prefix whose only quote is at offset 15 and that neither starts nor continues like the tag's end. */
  predicate TagShaped(open: string) {
    |open| > 17 && open[0] == '<' && open[15] == '"' && open[16] != '>' &&
    forall i :: 0 <= i < |open| && i != 15 ==> open[i] != '"'
  }

  // the three pieces of the base class, each checked on its own
  const BasePiece1: string := "mt-8 bg-white dark:bg-gray-800 "
  const BasePiece2: string := "rounded-2xl p-6 shadow-sm border "
  const BasePiece3: string := "border-gray-100 dark:border-gray-700"

  lemma Piece1QuoteFree() ensures '"' !in BasePiece1 {}
  lemma Piece2QuoteFree() ensures '"' !in BasePiece2 {}
  lemma Piece3QuoteFree() ensures '"' !in BasePiece3 {}

  lemma BaseQuoteFree()
    ensures '"' !in SectionBase
  {
    Piece1QuoteFree();
    Piece2QuoteFree();
    Piece3QuoteFree();
    assert SectionBase == BasePiece1 + BasePiece2 + BasePiece3;
  }

  lemma LeadChars()
    ensures SectionLead == "<section class=" + "\"" && '"' !in "<section class="
  {
  }

  /** The literal facts about the section tag the overlap argument needs. */
  lemma SectionOpenChars()
    ensures TagShaped(SectionOpen) && SectionOpen[16] == 'm'
  {
    var lead := "<section class=";
    LeadChars();
    BaseQuoteFree();
    assert SectionBase[0] == 'm';
    forall i | 0 <= i < |SectionOpen| && i != 15 ensures SectionOpen[i] != '"' {
      if i < 15 {
        assert SectionOpen[i] == lead[i];
      } else {
        assert SectionOpen[i] == SectionBase[i - 16];
      }
    }
  }

  /** Tags cannot overlap: no tag starts strictly inside another one. */
  lemma TagsDisjoint(t: string, open: string, n: nat, j: nat)
    requires TagShaped(open) && TagLen(t, open) == Some(n) && 0 < j < n
    ensures TagLen(t[j..], open).None?
  {
    TagLenShape(t, open);
    var L := |open|;
    assert forall x :: 0 <= x < L ==> t[x] == open[x] by {
      forall x | 0 <= x < L ensures t[x] == open[x] {
        assert t[..L][x] == t[x];
      }
    }
    assert forall x :: L <= x < n - 2 ==> t[x] != '"' by {
      forall x | L <= x < n - 2 ensures t[x] != '"' {
        assert t[L..n - 2][x - L] == t[x];
      }
    }
    // an offset where `t[j..]` and the tag text differ
    var i: nat :=
      if j + 15 < n - 2 then 15
      else if j + 15 == n - 2 then 16
      else if j <= n - 2 then n - 2 - j
      else 0;
    assert i < L && j + i < n && t[j + i] != open[i];
    if L <= |t| - j {
      assert t[j..][..L][i] == t[j + i];
    }
    assert !StartsWith(t[j..], open);
  }

  /** No guide section starts strictly inside a tag. */
  lemma NoGuideInsideTag(html: string, open: string, k: nat, n: nat, j: nat)
    requires TagShaped(open)
    requires k < j && k < |html| && TagLen(html[k..], open) == Some(n) && j < k + n
    ensures !GuideAt(html, open, j)
  {
    TagsDisjoint(html[k..], open, n, j - k);
    assert html[k..][j - k..] == html[j..];
  }

  /** No guide section starts inside a tag that does not qualify, its own position included. */
  lemma NoGuideInTag(html: string, open: string, k: nat, n: nat)
    requires TagShaped(open)
    requires k < |html| && TagLen(html[k..], open) == Some(n) && !Qualifies(html, k)
    ensures NoGuideIn(html, open, k, k + n)
  {
    forall j | k <= j < k + n ensures !GuideAt(html, open, j) {
      if j > k {
        NoGuideInsideTag(html, open, k, n, j);
      }
    }
  }

  /** No guide section starts before the next tag. */
  lemma SkipToTag(html: string, open: string, from: nat, k: nat)
    requires NextTag(html, open, from) == Some(k)
    ensures TagAt(html, open, k) && SameGuide(html, open, from, k)
  {
    NextTagFirst(html, open, from);
    forall j | from <= j < k ensures !GuideAt(html, open, j) {
    }
    GuideFromSkip(html, open, from, k);
  }

  /** A tag that does not qualify is skipped whole: the search may resume after it. */
  lemma SkipTag(html: string, open: string, k: nat, n: nat)
    requires TagShaped(open)
    requires k < |html| && TagLen(html[k..], open) == Some(n) && !Qualifies(html, k)
    ensures SameGuide(html, open, k, k + n)
  {
    NoGuideInTag(html, open, k, n);
    GuideFromSkip(html, open, k, k + n);
  }

  /** With no tag left, no guide section is left. */
  lemma NoTagNoGuide(html: string, open: string, from: nat)
    requires NextTag(html, open, from).None?
    ensures GuideFrom(html, open, from).None?
  {
    NextTagFirst(html, open, from);
    if from < |html| {
      forall j | from <= j < |html| ensures !GuideAt(html, open, j) {
      }
      GuideFromSkip(html, open, from, |html|);
    }
  }

  /** The next tag, when it qualifies, is the guide section. */
  lemma TagQualifies(html: string, open: string, from: nat, k: nat)
    requires NextTag(html, open, from) == Some(k) && Qualifies(html, k)
    ensures GuideFrom(html, open, from) == Some(k)
  {
    SkipToTag(html, open, from, k);
    assert GuideAt(html, open, k);
  }

  /** One turn of the `exec` loop: after a tag that does not qualify, the search resumes past it with the same answer. */
  method SkipPast(html: string, open: string, from: nat, k: nat) returns (next: nat)
    requires TagShaped(open) && NextTag(html, open, from) == Some(k) && !Qualifies(html, k)
    ensures from < next <= |html| && SameGuide(html, open, from, next)
  {
    SkipToTag(html, open, from, k);
    var n := TagLen(html[k..], open).value;
    SkipTag(html, open, k, n);
    next := k + n;
    SameGuideTrans(html, open, from, k, next);
  }

  /**
   * One `exec` call and the test on its match: either the scan is over, with the offset found or -1,
   * or it resumes at `next`, past a tag that did not qualify, with the same answer ahead.
   */
  method ExecStep(html: string, open: string, from: nat) returns (done: bool, start: int, next: nat)
    requires TagShaped(open)
    ensures done && GuideFrom(html, open, from).None? ==> start == -1
    ensures done && GuideFrom(html, open, from).Some? ==> start == GuideFrom(html, open, from).value
    ensures !done ==> from < next <= |html| && SameGuide(html, open, from, next)
  {
    next := from;
    var m := NextTag(html, open, from);
    if m.None? {
      NoTagNoGuide(html, open, from);
      return true, -1, from;
    }
    var k := m.value;
    if Qualifies(html, k) {
      TagQualifies(html, open, from, k);
      return true, k, from;
    }
    next := SkipPast(html, open, from, k);
    return false, -1, next;
  }

  /**
   * The `exec` loop of a global regular expression for tags `open[^"]*">`, resuming after each match:
   * the offset of the first tag whose window qualifies, or -1.
   */
  method ScanForGuide(html: string, open: string) returns (start: int)
    requires TagShaped(open)
    ensures GuideFrom(html, open, 0).None? ==> start == -1
    ensures GuideFrom(html, open, 0).Some? ==> start == GuideFrom(html, open, 0).value
  {
    ghost var first := GuideFrom(html, open, 0);
    var lastIndex: nat := 0;
    while lastIndex < |html|
      invariant lastIndex <= |html|
      invariant GuideFrom(html, open, lastIndex) == first
      decreases |html| - lastIndex
    {
      var done, found, next := ExecStep(html, open, lastIndex);
      if done {
        return found;
      }
      lastIndex := next;
    }
    return -1;
  }

  /** `findGuideSection`: the scan with the guide-class section tag; -1 when no tag qualifies. */
  method FindGuideSection(html: string) returns (start: int)
    ensures FindGuide(html).None? ==> start == -1
    ensures FindGuide(html).Some? ==> start == FindGuide(html).value
  {
    SectionOpenChars();
    start := ScanForGuide(html, SectionOpen);
  }

  // ---------------------------------------------------------------------------
  // The rewrites
  // ---------------------------------------------------------------------------

  /** Length of a quote-free run: what a greedy `[^"]*` consumes. */
  function QuoteFreeRun(s: string): (n: nat)
    ensures n <= |s|
  {
    match FindChar(s, '"') case None => |s| case Some(q) => q
  }

  /**
   * `g.replace(new RegExp(escapeRegex(from) + '([^"]*)'), to + '$1')`: the first occurrence of the class
   * string and the quote-free run after it; the run is put back after the new class string.
   */
  function SectionRewrite(g: string, r: Rule): string {
    ClassRunAt(g, r, IndexOf(g, r.from))
  }

  /** The section step once the class string has been looked for: `at` is where it was found. */
  function ClassRunAt(g: string, r: Rule, at: Option<nat>): string
    requires at.Some? ==> at.value <= |g|
  {
    match at
    case None => g
    case Some(k) => g[..k] + ClassRunRewrite(g[k..], r)
  }

  /** The match at the start of `t`: `from` and the run `[^"]*` become `to` and the same run. */
  function ClassRunRewrite(t: string, r: Rule): string {
    if |r.from| <= |t| then
      var q := QuoteFreeRun(t[|r.from|..]);
      r.to + t[|r.from|..|r.from| + q] + t[|r.from| + q..]
    else t
  }

  /** Copying the run back leaves everything after the class string as it was. */
  lemma ClassRunKept(t: string, r: Rule)
    requires |r.from| <= |t|
    ensures ClassRunRewrite(t, r) == r.to + t[|r.from|..]
  {
    var f := |r.from|;
    var q := QuoteFreeRun(t[f..]);
    assert t[f..f + q] + t[f + q..] == t[f..];
    assert r.to + t[f..f + q] + t[f + q..] == r.to + (t[f..f + q] + t[f + q..]);
  }

  /** A global literal rewrite; a missing rule leaves the text alone. */
  function Global(s: string, r: Option<Rule>): string {
    if r.Some? then ReplaceAll(s, r.value.from, r.value.to) else s
  }

  /** Length of the question heading's opening tag at the start of `t`, as the answer rule describes it. */
  function H4OpenLen(t: string, h: H4Open): (r: Option<nat>)
    ensures r.Some? ==> r.value <= |t|
  {
    match h
    case Exact(tag) => if StartsWith(t, tag) then Some(|tag|) else None
    case ClassPrefix(prefix) => TagLen(t, prefix)
  }

  /** Where the answer paragraph would start: after the heading tag, its `[^<]*` text, `</h4>` and `\s*`. */
  function QuestionEnd(t: string, h: H4Open): (r: Option<nat>)
    ensures r.Some? ==> r.value <= |t| && H4OpenLen(t, h).Some?
  {
    match H4OpenLen(t, h)
    case None => None
    case Some(e) =>
      match HeadingRest(t[e..])
      case None => None
      case Some(n) => Some(e + n)
  }

  /** `[^<]*<\/h4>\s*` at the start of `x`: the heading text, the closing tag and the whitespace after it. */
  function HeadingRest(x: string): (r: Option<nat>)
    ensures r.Some? ==> r.value <= |x|
  {
    match FindChar(x, '<')
    case None => None
    case Some(c) =>
      if StartsWith(x[c..], H4Close) then Some(c + |H4Close| + SpaceRun(x[c + |H4Close|..])) else None
  }

  /** The answer pattern at the start of `t`: the question part is kept and the paragraph tag replaced. */
  function AnswerHit(a: AnswerRule, t: string): (r: Option<Hit>)
    ensures r.Some? ==> H4OpenLen(t, a.h4).Some?
    ensures r.Some? ==>
      var w := r.value.len - |a.p|;
      |a.p| <= r.value.len <= |t| && t[w..r.value.len] == a.p && r.value.out == t[..w] + a.to
  {
    match QuestionEnd(t, a.h4)
    case None => None
    case Some(w) => if StartsWith(t[w..], a.p) then Some(Hit(w + |a.p|, t[..w] + a.to)) else None
  }

  function AnswerMatcher(a: AnswerRule): Matcher {
    t => AnswerHit(a, t)
  }

  lemma AnswerMatcherApplies(a: AnswerRule, t: string)
    ensures AnswerMatcher(a)(t) == AnswerHit(a, t)
  {
  }

  function Answers(s: string, a: Option<AnswerRule>): string {
    if a.Some? then ReplaceMatches(s, AnswerMatcher(a.value)) else s
  }

  function SectionStep(g: string, r: Option<Rule>): string {
    if r.Some? then SectionRewrite(g, r.value) else g
  }

  function WrapStep(s: string, r: Option<Rule>): string {
    if r.Some? then ReplaceFirst(s, r.value.from, r.value.to) else s
  }

  /** The pipeline on the text from the guide section on, each step on the previous result. */
  function Restyled(g: string, v: Restyle): string {
    var s1 := SectionStep(g, v.section);
    var s2 := Global(s1, v.h3Alt);
    var s3 := Global(s2, v.h3);
    var s4 := Global(s3, v.ul);
    var s5 := Global(s4, v.ol);
    var s6 := WrapStep(s5, v.qaDivWrap);
    QaSteps(s6, v)
  }

  /** The last four steps: question headings (alternate class first), then answers (classed paragraphs first). */
  function QaSteps(s: string, v: Restyle): string {
    Answers(Answers(Questions(s, v), v.qaPClassed), v.qaP)
  }

  function Questions(s: string, v: Restyle): string {
    Global(Global(s, v.qaH4Alt), v.qaH4)
  }

  /**
   * `applyVariant`: variant A and a page without a guide section are returned as they are; otherwise the
   * text before the guide section is kept byte for byte and the rest goes through the pipeline.
   */
  function ApplyStructure(html: string, v: Variant): (r: string)
    ensures v == Headings.A || FindGuide(html).None? ==> r == html
    ensures v != Headings.A && FindGuide(html).Some? ==>
      var k := FindGuide(html).value;
      k <= |html| && k <= |r| && r[..k] == html[..k] && r[k..] == Restyled(html[k..], Rules(v))
  {
    if v == Headings.A then html
    else
      match FindGuide(html)
      case None => html
      case Some(k) =>
        html[..k] + Restyled(html[k..], Rules(v))
  }

  // ---------------------------------------------------------------------------
  // Properties of the rules
  // ---------------------------------------------------------------------------

  /** The guide tag's class step is the first-occurrence literal rewrite: the run after the class string is copied back. */
  lemma SectionStepLiteral(g: string, r: Rule)
    requires |r.from| > 0
    ensures SectionRewrite(g, r) == ReplaceFirst(g, r.from, r.to)
  {
    var at := IndexOf(g, r.from);
    if at.Some? {
      SectionStepAt(g, r, at.value);
    }
  }

  /** Where the class string was found, the section step splices `to` in its place. */
  lemma SectionStepAt(g: string, r: Rule, k: nat)
    requires k + |r.from| <= |g|
    ensures ClassRunAt(g, r, Some(k)) == g[..k] + r.to + g[k + |r.from|..]
  {
    ClassRunKept(g[k..], r);
    SpliceShift(g, k, |r.from|, r.to);
  }

  lemma SpliceShift(g: string, k: nat, f: nat, x: string)
    requires k + f <= |g|
    ensures g[..k] + (x + g[k..][f..]) == g[..k] + x + g[k + f..]
  {
    assert g[k..][f..] == g[k + f..];
  }

  /** In the text from a section tag on, the base class string first occurs right after `<section class="`. */
  lemma BaseFirstAtTag(g: string)
    requires StartsWith(g, SectionOpen)
    ensures IndexOf(g, SectionBase) == Some(16)
  {
    assert g[..|SectionOpen|][16..] == g[16..][..|SectionBase|];
    assert StartsWith(g[16..], SectionBase);
    assert 'm' !in SectionLead;
    forall k | 0 <= k < 16 ensures !StartsWith(g[k..], SectionBase) {
      assert g[k] == g[..|SectionOpen|][k] == SectionLead[k];
      assert SectionBase[0] == 'm';
      if |SectionBase| <= |g[k..]| {
        assert g[k..][..|SectionBase|][0] == g[k];
      }
    }
    IndexOfUnique(g, SectionBase, 16);
  }

  /**
   * On the text from a guide section on, the section step rewrites that section's own tag: the base class
   * string becomes `to`, and any extra classes and everything after stay as they were.
   */
  lemma TagRewrittenTo(g: string, to: string)
    requires SectionTagLen(g).Some?
    ensures SectionRewrite(g, Rule(SectionBase, to)) == SectionLead + to + g[|SectionOpen|..]
  {
    BaseFirstAtTag(g);
    SectionStepLiteral(g, Rule(SectionBase, to));
    assert |SectionLead| == 16;
    OpenPrefix(g, SectionLead, SectionBase);
  }

  /** A text that starts with `a + b` starts with `a`. */
  lemma OpenPrefix(g: string, a: string, b: string)
    requires StartsWith(g, a + b)
    ensures g[..|a|] == a
  {
    assert g[..|a + b|][..|a|] == g[..|a|];
  }

  lemma GuideTagRewritten(g: string, v: Variant)
    requires v != Headings.A && SectionTagLen(g).Some?
    ensures SectionStep(g, Rules(v).section) == SectionLead + Rules(v).section.value.to + g[|SectionOpen|..]
  {
    TagRewrittenTo(g, Rules(v).section.value.to);
  }

  /** No variant's section class contains the base class string: each is shorter than it. */
  lemma SectionToLacksBase(v: Variant)
    requires v != Headings.A
    ensures !Contains(Rules(v).section.value.to, SectionBase)
  {
    assert |Rules(v).section.value.to| < |SectionBase|;
    ShorterLacks(Rules(v).section.value.to, SectionBase);
  }

  /** A tag whose class departs from the base class string somewhere does not match the tag pattern. */
  lemma DepartedTag(to: string, rest: string, i: nat)
    requires i < |to| && i < |SectionBase| && to[i] != SectionBase[i]
    ensures SectionTagLen(SectionLead + to + rest).None?
  {
    var out := SectionLead + to + rest;
    assert out[16 + i] == to[i];
    assert SectionOpen[16 + i] == SectionBase[i];
    if |SectionOpen| <= |out| {
      assert out[..|SectionOpen|][16 + i] == out[16 + i];
    }
  }

  /** After the section step the guide's tag no longer matches the tag pattern, so it cannot be selected again. */
  lemma RewrittenTagNotSelected(g: string, v: Variant)
    requires v != Headings.A && SectionTagLen(g).Some?
    ensures SectionTagLen(SectionStep(g, Rules(v).section)).None?
  {
    GuideTagRewritten(g, v);
    var rest := g[|SectionOpen|..];
    Departures();
    match v
    case B => DepartedTag(SectionToB, rest, 3);
    case C => DepartedTag(SectionToC, rest, 8);
    case D => DepartedTag(SectionToD, rest, 39);
  }

  /** Where each variant's section class first departs from the base class string. */
  lemma Departures()
    ensures |SectionToB| > 3 && |SectionToC| > 8 && |SectionToD| > 39 && |SectionBase| > 39
    ensures SectionToB[3] != SectionBase[3] && SectionToC[8] != SectionBase[8] && SectionToD[39] != SectionBase[39]
  {
    assert SectionToB[3] == '1' && SectionBase[3] == '8';
    assert SectionToC[8] == 'g' && SectionBase[8] == 'w';
    assert SectionToD[39] == 'l' && SectionBase[39] == '2';
  }

  // ---------------------------------------------------------------------------
  // Heading classes: the two h3 steps, in order
  // ---------------------------------------------------------------------------

  /** The h3 steps (alternate pattern first, then the standard one) applied to a class attribute value. */
  function HeadingSteps(cls: string, v: Variant): string {
    Global(Global(cls, Rules(v).h3Alt), Rules(v).h3)
  }

  lemma H3ClassChars()
    ensures |H3Class| == 31 && H3Class[2] == 'x' && H3Class[30] == '3' && |H3Class| < |H3AltClass|
  {
  }

  lemma DSuffixLacksX()
    ensures 'x' !in DSuffix
  {
  }

  lemma NewClassesLack3()
    ensures '3' !in H3ToB && '3' !in H3ToC
  {
  }

  /** A class shorter than the first pattern and equal to the second ends up as the second rule's replacement. */
  lemma ClassStepsWhole(first: Rule, second: Rule)
    requires 0 < |second.from| < |first.from|
    ensures ReplaceAll(ReplaceAll(second.from, first.from, first.to), second.from, second.to) == second.to
  {
    ShorterLacks(second.from, first.from);
    ReplaceAllAbsent(second.from, first.from, first.to);
    ReplaceAllHead(second.from, [], second.to);
    assert second.from + [] == second.from && second.to + [] == second.to;
  }

  /** The standard class is not touched by the alternate step and is rewritten whole by the standard one. */
  lemma StandardClassOutcome(v: Variant)
    requires v != Headings.A
    ensures HeadingSteps(H3Class, v) == Rules(v).h3.value.to
  {
    H3ClassChars();
    assert Rules(v).h3Alt.value.from == H3AltClass && Rules(v).h3.value.from == H3Class;
    ClassStepsWhole(Rules(v).h3Alt.value, Rules(v).h3.value);
  }

  /** In B and C the alternate class becomes the variant's class, which the standard step leaves alone. */
  lemma AltClassOutcomeBC(v: Variant)
    requires v == Headings.B || v == Headings.C
    ensures HeadingSteps(H3AltClass, v) == Rules(v).h3.value.to
  {
    H3ClassChars();
    NewClassesLack3();
    var to := Rules(v).h3.value.to;
    assert Rules(v).h3Alt.value.to == to;
    ReplaceAllHead(H3AltClass, [], to);
    assert H3AltClass + [] == H3AltClass && to + [] == to;
    MissingChar(to, H3Class, 30);
    ReplaceAllAbsent(to, H3Class, to);
  }

  /** In D the alternate class becomes the standard class plus the border suffix, which the standard step rewrites again. */
  lemma AltClassOutcomeD()
    ensures HeadingSteps(H3AltClass, Headings.D) == H3Class + DSuffix + DSuffix
  {
    H3ClassChars();
    DSuffixLacksX();
    var to := H3ToD;
    assert Rules(Headings.D).h3Alt.value.to == to && Rules(Headings.D).h3.value.to == to;
    ReplaceAllHead(H3AltClass, [], to);
    assert H3AltClass + [] == H3AltClass && to + [] == to;
    MissingChar(DSuffix, H3Class, 2);
    ReplaceAllHead(H3Class, DSuffix, to);
  }

  /**
   * What the heading steps make of the two original classes: in B and C both end up as the variant's class;
   * in D the alternate class is first rewritten to a string that starts with the standard class, so the
   * standard step rewrites it again and the border suffix appears twice.
   */
  lemma HeadingClassOutcome(v: Variant)
    requires v != Headings.A
    ensures HeadingSteps(H3Class, v) == Rules(v).h3.value.to
    ensures v != Headings.D ==> HeadingSteps(H3AltClass, v) == Rules(v).h3.value.to
    ensures v == Headings.D ==> HeadingSteps(H3AltClass, v) == H3Class + DSuffix + DSuffix
  {
    StandardClassOutcome(v);
    if v == Headings.D {
      AltClassOutcomeD();
    } else {
      AltClassOutcomeBC(v);
    }
  }

  // ---------------------------------------------------------------------------
  // The headings pass on restyled headings
  // ---------------------------------------------------------------------------

  const H3ClassAttr: string := "<h3 class=\""

  /**
   * Where a heading's class holds no quote and is at least as long as the pattern's class prefix, the headings
   * pass's tag pattern finds its tag only if the class ends in `3`.
   */
  lemma HeadingNeedsTail(cls: string, rest: string)
    requires '"' !in cls && |H3ClassAttr| + |cls| >= |Headings.H3Prefix|
    ensures Headings.H3OpenLen(H3ClassAttr + cls + "\">" + rest).Some? ==> cls[|cls| - 1] == '3'
  {
    var t := H3ClassAttr + cls + "\">" + rest;
    var p := |Headings.H3Prefix|;
    var q := |H3ClassAttr| + |cls|;
    var s := t[p..];
    assert s[q - p] == '"';
    assert s[..q - p] == cls[p - |H3ClassAttr|..];
    FindCharUnique(s, '"', q - p);
    if Headings.H3OpenLen(t).Some? {
      assert t[q - 9..q + 2][8] == t[q - 1] == cls[|cls| - 1];
      assert Headings.H3Tail[8] == '3';
    }
  }

  /** A tag that departs from the pattern's prefix somewhere is not found. */
  lemma HeadingDeparts(t: string, k: nat)
    requires k < |Headings.H3Prefix| && k < |t| && t[k] != Headings.H3Prefix[k]
    ensures Headings.H3OpenLen(t).None?
  {
    if |Headings.H3Prefix| <= |t| {
      assert t[..|Headings.H3Prefix|][k] == t[k];
    }
  }

  lemma H3PrefixChars()
    ensures |H3ClassAttr| == 11 && |Headings.H3Prefix| == 32 && Headings.H3Prefix[24] == 's' && Headings.H3Prefix[16] == 'l'
  {
  }

  lemma RestyledClassChars()
    ensures |H3ToB| > 13 && H3ToB[13] == 'b' && |H3ToC| > 5 && H3ToC[5] == 'b'
  {
  }

  lemma DSuffixChars()
    ensures '"' !in DSuffix && |DSuffix| > 0 && DSuffix[|DSuffix| - 1] == '0'
  {
  }

  lemma H3ClassQuoteFree()
    ensures '"' !in H3Class
  {
  }

  /** The headings pass finds no tag and no label on a heading carrying one of the restyled classes. */
  lemma RestyledClassIgnored(cls: string, rest: string)
    requires cls == H3ToB || cls == H3ToC || cls == H3ToD || cls == H3ToD + DSuffix
    ensures Headings.H3OpenLen(H3ClassAttr + cls + "\">" + rest).None?
    ensures forall name :: Headings.LabelAt(H3ClassAttr + cls + "\">" + rest, name).None?
  {
    var t := H3ClassAttr + cls + "\">" + rest;
    H3PrefixChars();
    if cls == H3ToB || cls == H3ToC {
      RestyledClassChars();
      if cls == H3ToB {
        assert t[24] == cls[13];
        HeadingDeparts(t, 24);
      } else {
        assert t[16] == cls[5];
        HeadingDeparts(t, 16);
      }
    } else {
      H3ClassChars();
      DSuffixChars();
      H3ClassQuoteFree();
      assert cls[|cls| - 1] == DSuffix[|DSuffix| - 1];
      HeadingNeedsTail(cls, rest);
    }
  }

  /**
   * The headings pass does not recognise a heading the structure pass has restyled, whichever of the two
   * standard classes it started from: its tag no longer matches, so no label is found on it.
   */
  lemma RestyledHeadingIgnored(v: Variant, c: string, rest: string)
    requires v != Headings.A && (c == H3Class || c == H3AltClass)
    ensures Headings.H3OpenLen(H3ClassAttr + HeadingSteps(c, v) + "\">" + rest).None?
    ensures forall name :: Headings.LabelAt(H3ClassAttr + HeadingSteps(c, v) + "\">" + rest, name).None?
  {
    HeadingClassOutcome(v);
    RulesHeadingTarget(v);
    RestyledClassIgnored(HeadingSteps(c, v), rest);
  }

  lemma RulesHeadingTarget(v: Variant)
    requires v != Headings.A
    ensures Rules(v).h3.value.to == (match v case B => H3ToB case C => H3ToC case _ => H3ToD)
  {
  }

  // ---------------------------------------------------------------------------
  // The wrapper, list and Q&A steps
  // ---------------------------------------------------------------------------

  // The properties below are stated for any rule set of the table's Q&A shape (`QaShaped`);
  // `QaShapedRules` shows that the rules of B, C and D have it.

  const H4Lead: string := "<h4"

  /** What an answer rule's question heading must start with: its exact tag, or its class prefix. */
  function QuestionLead(h: H4Open): string {
    match h
    case Exact(tag) => tag
    case ClassPrefix(prefix) => prefix
  }

  /** `q` is a heading tag the answer pattern `h` accepts as it stands. */
  predicate Recognises(h: H4Open, q: string) {
    match h
    case Exact(tag) => q == tag
    case ClassPrefix(prefix) => q == prefix + "\">"
  }

  /** A new question tag: `<`, then no further `<`, starting with the lead the answer rules look for. */
  predicate NewTag(q: string, lead: string) {
    |q| > 0 && q[0] == '<' && '<' !in q[1..] && StartsWith(q, lead) && StartsWith(lead, H4Lead)
  }

  /** The shape of the Q&A rules of every variant but A. */
  predicate QaShaped(r: Restyle) {
    && r.qaDivWrap.Some? && r.qaDivWrap.value.from == QaWrap
    && r.qaH4.Some? && r.qaH4Alt.Some? && r.qaP.Some? && r.qaPClassed.Some?
    && r.qaH4.value.from == QaH4 && r.qaH4Alt.value.from == QaH4Alt
    && r.qaP.value.p == PlainP && r.qaPClassed.value.p == ClassedP
    && r.qaPClassed.value.h4 == r.qaP.value.h4
    && Recognises(r.qaP.value.h4, r.qaH4.value.to)
    && NewTag(r.qaH4.value.to, QuestionLead(r.qaP.value.h4))
    && NoNewOccurrence(r.qaH4Alt.value.to, QaH4Alt)
    && NoNewOccurrence(r.qaH4.value.to, QaH4)
    && NoNewOccurrence(r.qaH4.value.to, QaH4Alt)
    && Clash(QuestionLead(r.qaP.value.h4), QaH4)
    && Clash(QuestionLead(r.qaP.value.h4), QaH4Alt)
  }

  /** A tag written as `<` and a tail. */
  lemma TagHead(tail: string)
    ensures ("<" + tail)[0] == '<' && ("<" + tail)[1..] == tail
  {
  }

  /** A tag whose tail starts with `h4` starts with `<h4`. */
  lemma H4Head(tail: string)
    requires |tail| >= 2 && tail[0] == 'h' && tail[1] == '4'
    ensures StartsWith("<" + tail, H4Lead)
  {
    assert ("<" + tail)[..3] == H4Lead;
  }

  /** Two strings that differ at `i` are not prefixes of each other. */
  lemma ClashAt(a: string, b: string, i: nat)
    requires i < |a| && i < |b| && a[i] != b[i]
    ensures Clash(a, b)
  {
    if |b| <= |a| {
      assert a[..|b|][i] == a[i];
    }
    if |a| <= |b| {
      assert b[..|a|][i] == b[i];
    }
  }

  lemma QaH4TailChars() ensures '<' !in QaH4Tail && QaH4Tail[0] == 'h' && QaH4Tail[1] == '4' && QaH4Tail[15] == 'm' && QaH4Tail[21] == '"' {}
  lemma QaH4AltTailChars() ensures '<' !in QaH4AltTail && QaH4AltTail[0] == 'h' && QaH4AltTail[1] == '4' && QaH4AltTail[15] == 'm' && QaH4AltTail[22] == 't' {}
  lemma QuestionBTailChars() ensures '<' !in QuestionBTail && QuestionBTail[0] == 'h' && QuestionBTail[1] == '4' && QuestionBTail[15] == 's' {}
  lemma QuestionDTailChars() ensures '<' !in QuestionDTail && QuestionDTail[0] == 'h' && QuestionDTail[1] == '4' && QuestionDTail[15] == 's' {}
  lemma PrefixCTailLt() ensures '<' !in PrefixCTail {}
  lemma PrefixCTailChars() ensures PrefixCTail[0] == 'h' && PrefixCTail[1] == '4' && PrefixCTail[21] == ' ' && PrefixCTail[22] == 'p' {}
  lemma AltTailChars() ensures '<' !in AltTail {}

  /** The original question tags: `<`, then no further `<`; and where they differ from the new tags. */
  lemma OriginalTags()
    ensures QaH4[0] == '<' && '<' !in QaH4[1..] && |QaH4| > 22 && QaH4[16] == 'm' && QaH4[22] == '"'
    ensures QaH4Alt[0] == '<' && '<' !in QaH4Alt[1..] && |QaH4Alt| > 23 && QaH4Alt[16] == 'm' && QaH4Alt[23] == 't'
    ensures StartsWith(QaH4, H4Lead) && StartsWith(QaH4Alt, H4Lead)
  {
    TagHead(QaH4Tail);
    TagHead(QaH4AltTail);
    QaH4TailChars();
    QaH4AltTailChars();
    H4Head(QaH4Tail);
    H4Head(QaH4AltTail);
  }

  /** A single new tag for both original question tags, the answer rules looking for it exactly, as in B and D. */
  lemma ExactShape(q: string, tail: string)
    requires q == "<" + tail && |tail| > 15 && tail[0] == 'h' && tail[1] == '4' && tail[15] == 's' && '<' !in tail
    ensures NewTag(q, q) && NoNewOccurrence(q, QaH4) && NoNewOccurrence(q, QaH4Alt)
    ensures Clash(q, QaH4) && Clash(q, QaH4Alt)
  {
    TagHead(tail);
    H4Head(tail);
    OriginalTags();
    assert q[..|q|] == q;
    ClashAt(q, QaH4, 16);
    ClashAt(q, QaH4Alt, 16);
  }

  /** The new tags of C share a class prefix, which is what its answer rules look for. */
  lemma PrefixShape()
    ensures NewTag(QuestionC, QuestionPrefixC)
    ensures NoNewOccurrence(QuestionAltC, QaH4Alt) && NoNewOccurrence(QuestionC, QaH4) && NoNewOccurrence(QuestionC, QaH4Alt)
    ensures Clash(QuestionPrefixC, QaH4) && Clash(QuestionPrefixC, QaH4Alt)
  {
    TagHead(PrefixCTail);
    PrefixCTailLt();
    PrefixCTailChars();
    AltTailChars();
    H4Head(PrefixCTail);
    OriginalTags();
    assert QuestionC[1..] == PrefixCTail + "\">";
    assert QuestionAltC[1..] == PrefixCTail + AltTail + "\">";
    assert QuestionC[..|QuestionPrefixC|] == QuestionPrefixC;
    assert QuestionAltC[23] == QuestionPrefixC[23] && QuestionC[22] == QuestionPrefixC[22] && QuestionC[23] == QuestionPrefixC[23];
    ClashAt(QuestionAltC, QaH4Alt, 23);
    ClashAt(QuestionC, QaH4, 22);
    ClashAt(QuestionC, QaH4Alt, 23);
    ClashAt(QuestionPrefixC, QaH4, 22);
    ClashAt(QuestionPrefixC, QaH4Alt, 23);
  }

  /** The rules of B, C and D have the Q&A shape. */
  lemma QaShapedRules(v: Variant)
    requires v != Headings.A
    ensures QaShaped(Rules(v))
  {
    match v
    case B =>
      QuestionBTailChars();
      ExactShape(QuestionB, QuestionBTail);
    case C =>
      PrefixShape();
    case D =>
      QuestionDTailChars();
      ExactShape(QuestionD, QuestionDTail);
  }

  /** The wrapper step is a first-occurrence rewrite: the first wrapper is restyled and the rest, further wrappers included, is kept. */
  lemma FirstWrapperOnly(r: Restyle, s: string, j: nat)
    requires QaShaped(r) && j + |QaWrap| <= |s| && StartsWith(s[j..], QaWrap)
    requires forall i :: 0 <= i < j ==> !StartsWith(s[i..], QaWrap)
    ensures WrapStep(s, r.qaDivWrap) == s[..j] + r.qaDivWrap.value.to + s[j + |QaWrap|..]
  {
    ReplaceFirstAt(s, QaWrap, r.qaDivWrap.value.to, j);
  }

  /** Variant C has no list rules, so list classes pass through it; B and D rewrite them. */
  lemma ListClassOutcome(v: Variant, rest: string)
    requires v != Headings.A && !Contains(rest, UlClass) && !Contains(rest, OlClass)
    ensures Global(UlClass + rest, Rules(v).ul) == if v == Headings.C then UlClass + rest else Rules(v).ul.value.to + rest
    ensures Global(OlClass + rest, Rules(v).ol) == if v == Headings.C then OlClass + rest else Rules(v).ol.value.to + rest
  {
    if v != Headings.C {
      ReplaceAllHead(UlClass, rest, Rules(v).ul.value.to);
      ReplaceAllHead(OlClass, rest, Rules(v).ol.value.to);
    }
  }

  /** Both question steps are global: afterwards neither original question tag is left anywhere. */
  lemma QuestionsAllRewritten(r: Restyle, s: string)
    requires QaShaped(r)
    ensures !Contains(Questions(s, r), QaH4) && !Contains(Questions(s, r), QaH4Alt)
  {
    var s7 := ReplaceAll(s, QaH4Alt, r.qaH4Alt.value.to);
    ReplaceAllLeavesNo(s, QaH4Alt, r.qaH4Alt.value.to, QaH4Alt);
    ReplaceAllLeavesNo(s7, QaH4, r.qaH4.value.to, QaH4);
    ReplaceAllLeavesNo(s7, QaH4, r.qaH4.value.to, QaH4Alt);
  }

  /** An answer rule only fires where a heading starting with its question lead begins. */
  lemma AnswerNeedsQuestion(a: AnswerRule, t: string)
    ensures AnswerHit(a, t).Some? ==> StartsWith(t, QuestionLead(a.h4))
  {
  }

  /** Two clashing strings do not both start `t`. */
  lemma ClashingPrefixes(t: string, a: string, b: string)
    requires Clash(a, b) && StartsWith(t, a)
    ensures !StartsWith(t, b)
  {
    if |b| <= |a| && |a| <= |t| {
      assert t[..|a|][..|b|] == t[..|b|];
    } else if |a| < |b| <= |t| {
      assert t[..|b|][..|a|] == t[..|a|];
    }
  }

  /** The original question tags carry none of the new classes, so no answer rule fires right after them. */
  lemma OldQuestionIgnored(r: Restyle, t: string)
    requires QaShaped(r) && (StartsWith(t, QaH4) || StartsWith(t, QaH4Alt))
    ensures AnswerHit(r.qaP.value, t).None? && AnswerHit(r.qaPClassed.value, t).None?
  {
    var lead := QuestionLead(r.qaP.value.h4);
    if StartsWith(t, QaH4) {
      ClashingPrefixes(t, QaH4, lead);
    } else {
      ClashingPrefixes(t, QaH4Alt, lead);
    }
    AnswerNeedsQuestion(r.qaP.value, t);
    AnswerNeedsQuestion(r.qaPClassed.value, t);
  }

  /** A text in which the rule's question lead never occurs comes out of the answer step unchanged. */
  lemma NoAnswerWithout(s: string, a: AnswerRule)
    requires !Contains(s, QuestionLead(a.h4))
    ensures ReplaceMatches(s, AnswerMatcher(a)) == s
  {
    IndexOfFirst(s, QuestionLead(a.h4));
    forall k | 0 <= k < |s| ensures !Fires(AnswerMatcher(a), s[k..]) {
      AnswerNeedsQuestion(a, s[k..]);
    }
    ReplaceMatchesNoMatch(s, AnswerMatcher(a));
  }

  /** Without the variant's new question heading, both answer steps leave the text as it is. */
  lemma NoQuestionNoAnswer(r: Restyle, s: string)
    requires QaShaped(r) && !Contains(s, QuestionLead(r.qaP.value.h4))
    ensures Answers(s, r.qaPClassed) == s && Answers(s, r.qaP) == s
  {
    NoAnswerWithout(s, r.qaP.value);
    NoAnswerWithout(s, r.qaPClassed.value);
  }

  /** A recognised tag is accepted whatever follows it. */
  lemma OpenRecognised(h: H4Open, q: string, u: string)
    requires Recognises(h, q)
    ensures H4OpenLen(q + u, h) == Some(|q|)
  {
    var t := q + u;
    assert t[..|q|] == q;
    if h.ClassPrefix? {
      var prefix := h.prefix;
      assert t[..|prefix|] == prefix;
      assert t[|prefix|..] == "\">" + u;
      FindCharUnique(t[|prefix|..], '"', 0);
    }
  }

  /** A `<`-free heading text, `</h4>` and whitespace are consumed up to the next tag. */
  lemma HeadingRestOn(text: string, ws: string, u: string)
    requires '<' !in text && (forall i :: 0 <= i < |ws| ==> IsSpace(ws[i]))
    requires |u| > 0 && u[0] == '<'
    ensures HeadingRest(text + H4Close + ws + u) == Some(|text| + |H4Close| + |ws|)
  {
    var x := text + H4Close + ws + u;
    assert x[..|text|] == text;
    FindCharUnique(x, '<', |text|);
    assert x[|text|..] == H4Close + ws + u;
    assert x[|text|..][..|H4Close|] == H4Close;
    assert x[|text| + |H4Close|..] == ws + u;
    SpaceRunOf(ws, u);
  }

  /** After a recognised question tag, a `<`-free heading text, `</h4>` and whitespace, the answer rules look at `u`. */
  lemma QuestionEndOnEntry(h: H4Open, q: string, text: string, ws: string, u: string)
    requires Recognises(h, q) && '<' !in text && (forall i :: 0 <= i < |ws| ==> IsSpace(ws[i]))
    requires |u| > 0 && u[0] == '<'
    ensures QuestionEnd(q + (text + H4Close + ws + u), h) == Some(|q| + |text| + |H4Close| + |ws|)
  {
    var x := text + H4Close + ws + u;
    OpenRecognised(h, q, x);
    assert (q + x)[|q|..] == x;
    HeadingRestOn(text, ws, u);
  }

  /** The entry split where the answer paragraph starts. */
  lemma EntrySplit(q: string, text: string, ws: string, u: string)
    ensures var t, w := q + (text + H4Close + ws + u), |q| + |text| + |H4Close| + |ws|;
      t[w..] == u && t[..w] == q + text + H4Close + ws
  {
  }

  /** The text of an entry after its heading tag holds no `<h4`. */
  lemma EntryLacksH4(text: string, ws: string, rest: string)
    requires '<' !in text && (forall i :: 0 <= i < |ws| ==> IsSpace(ws[i])) && !Contains(rest, H4Lead)
    ensures !Contains(text + H4Close + ws + PlainP + rest, H4Lead)
  {
    var p := PlainP + rest;
    ContainsStep(p, H4Lead);
    assert p[1..] == "p>" + rest;
    NoHeadConcat("p>", rest, H4Lead);
    var tail := H4Close + ws + p;
    ContainsStep(tail, H4Lead);
    assert tail[1..] == (H4Close[1..] + ws) + p;
    assert '<' !in H4Close[1..] + ws;
    NoHeadConcat(H4Close[1..] + ws, p, H4Lead);
    assert text + H4Close + ws + PlainP + rest == text + tail;
    NoHeadConcat(text, tail, H4Lead);
  }

  /** The question steps on an entry whose remainder has no `<h4`: only the heading tag changes. */
  lemma QuestionStepsOnEntry(r: Restyle, e: string)
    requires QaShaped(r) && !Contains(e, H4Lead)
    ensures Questions(QaH4 + e, r) == r.qaH4.value.to + e
  {
    OriginalTags();
    var t := QaH4 + e;
    assert t[..|QaH4|] == QaH4;
    ClashAt(QaH4, QaH4Alt, 22);
    ClashingPrefixes(t, QaH4, QaH4Alt);
    ContainsStep(t, QaH4Alt);
    assert t[1..] == QaH4[1..] + e;
    LongerLacks(e, H4Lead, QaH4Alt);
    NoHeadConcat(QaH4[1..], e, QaH4Alt);
    ReplaceAllAbsent(t, QaH4Alt, r.qaH4Alt.value.to);
    LongerLacks(e, H4Lead, QaH4);
    ReplaceAllHead(QaH4, e, r.qaH4.value.to);
  }

  /** Where the question part ends at `w`, the answer rule fires exactly when its paragraph tag follows. */
  lemma AnswerHitAt(a: AnswerRule, t: string, w: nat)
    requires QuestionEnd(t, a.h4) == Some(w)
    ensures StartsWith(t[w..], a.p) ==> AnswerHit(a, t) == Some(Hit(w + |a.p|, t[..w] + a.to))
    ensures !StartsWith(t[w..], a.p) ==> AnswerHit(a, t).None?
  {
  }

  /**
   * An entry whose heading already carries the new tag: after the heading text, `</h4>` and whitespace the
   * answer rule finds its paragraph tag and replaces it, keeping everything before it.
   */
  lemma AnswerOnEntry(a: AnswerRule, q: string, text: string, ws: string, rest: string, t: string)
    requires Recognises(a.h4, q) && |a.p| > 0 && a.p[0] == '<' && '<' !in text && (forall i :: 0 <= i < |ws| ==> IsSpace(ws[i]))
    requires t == q + (text + H4Close + ws + (a.p + rest))
    ensures AnswerHit(a, t) == Some(Hit(|q| + |text| + |H4Close| + |ws| + |a.p|, q + text + H4Close + ws + a.to))
  {
    var w := |q| + |text| + |H4Close| + |ws|;
    QuestionEndOnEntry(a.h4, q, text, ws, a.p + rest);
    EntrySplit(q, text, ws, a.p + rest);
    assert (a.p + rest)[..|a.p|] == a.p;
    AnswerFires(a, t, w, q + text + H4Close + ws);
  }

  lemma AnswerFires(a: AnswerRule, t: string, w: nat, before: string)
    requires QuestionEnd(t, a.h4) == Some(w) && t[..w] == before && StartsWith(t[w..], a.p)
    ensures AnswerHit(a, t) == Some(Hit(w + |a.p|, before + a.to))
  {
  }
}
