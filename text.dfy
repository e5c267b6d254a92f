/**
 * Text helpers shared by every script of the site tooling: strings are
 * sequences of Unicode scalar values, so lengths and offsets count scalars
 * where JavaScript counts UTF-16 code units, and every regular expression the
 * scripts use is a fixed shape, so each one is written as a hand-made matcher
 * that the generic left-to-right scanner below drives exactly as
 * `String.prototype.replace` drives a regular expression.
 */
module Text {

  datatype Option<T> = None | Some(value: T)

  // ---------------------------------------------------------------------------
  // Prefixes, suffixes, searching
  // ---------------------------------------------------------------------------

  predicate StartsWith(s: string, p: string) {
    |p| <= |s| && s[..|p|] == p
  }

  predicate EndsWith(s: string, p: string) {
    |p| <= |s| && s[|s| - |p|..] == p
  }

  /** Offset of the first occurrence of `p` in `s` (`String.prototype.indexOf`). */
  function IndexOf(s: string, p: string): (r: Option<nat>)
    ensures r.Some? ==> r.value + |p| <= |s| && StartsWith(s[r.value..], p)
    decreases |s|
  {
    if StartsWith(s, p) then Some(0)
    else if s == [] then None
    else
      var r := IndexOf(s[1..], p);
      assert r.Some? ==> s[1..][r.value..] == s[r.value + 1..];
      if r.Some? then Some(r.value + 1) else None
  }

  /** `IndexOf` finds the first occurrence, and None means there is none. */
  lemma {:induction false} IndexOfFirst(s: string, p: string)
    ensures IndexOf(s, p).Some? ==> forall k :: 0 <= k < IndexOf(s, p).value ==> !StartsWith(s[k..], p)
    ensures IndexOf(s, p).None? ==> forall k :: 0 <= k <= |s| ==> !StartsWith(s[k..], p)
    decreases |s|
  {
    if !StartsWith(s, p) && s != [] {
      IndexOfFirst(s[1..], p);
      var r := IndexOf(s[1..], p);
      var stop := if r.Some? then r.value + 1 else |s| + 1;
      forall k | 0 <= k < stop ensures !StartsWith(s[k..], p) {
        if k > 0 {
          assert s[k..] == s[1..][k - 1..];
        }
      }
    }
  }

  /** Offset of the first `c` in `s`: where a run of `[^c]*` followed by `c` ends. */
  function FindChar(s: string, c: char): (r: Option<nat>)
    ensures r.Some? ==> r.value < |s|
    decreases |s|
  {
    if s == [] then None
    else if s[0] == c then Some(0)
    else
      match FindChar(s[1..], c)
      case None => None
      case Some(k) => Some(k + 1)
  }

  /** The offset found holds `c` and none before it does; no offset is found only when `c` does not occur. */
  lemma {:induction false} FindCharFirst(s: string, c: char)
    ensures FindChar(s, c).Some? ==> s[FindChar(s, c).value] == c && c !in s[..FindChar(s, c).value]
    ensures FindChar(s, c).None? ==> c !in s
    decreases |s|
  {
    if s != [] && s[0] != c {
      FindCharFirst(s[1..], c);
      assert s == [s[0]] + s[1..];
      if FindChar(s[1..], c).Some? {
        var k := FindChar(s[1..], c).value;
        assert s[..k + 1] == [s[0]] + s[1..][..k];
      }
    }
  }

  /** The first `c` is the only position with no `c` before it. */
  lemma FindCharUnique(s: string, c: char, q: nat)
    requires q < |s| && s[q] == c && c !in s[..q]
    ensures FindChar(s, c) == Some(q)
  {
    FindCharFirst(s, c);
    assert s[q] in s;
  }

  /** An occurrence with none before it is the one `IndexOf` finds. */
  lemma IndexOfUnique(s: string, p: string, k: nat)
    requires k <= |s| && StartsWith(s[k..], p)
    requires forall j :: 0 <= j < k ==> !StartsWith(s[j..], p)
    ensures IndexOf(s, p) == Some(k)
  {
    IndexOfFirst(s, p);
  }

  /** `String.prototype.includes`. */
  predicate Contains(s: string, p: string) {
    IndexOf(s, p).Some?
  }

  lemma ContainsStep(s: string, p: string)
    ensures Contains(s, p) <==> StartsWith(s, p) || (s != [] && Contains(s[1..], p))
  {
  }

  lemma ContainsAt(s: string, p: string, k: nat)
    requires k <= |s| && StartsWith(s[k..], p)
    ensures Contains(s, p)
  {
    IndexOfFirst(s, p);
  }

  /** `s.includes(p)` as a recursive scan; `IncludesIsContains` ties it to `Contains`. */
  predicate Includes(s: string, p: string)
    decreases |s|
  {
    StartsWith(s, p) || (s != [] && Includes(s[1..], p))
  }

  lemma {:induction false} IncludesIsContains(s: string, p: string)
    ensures Includes(s, p) <==> Contains(s, p)
    decreases |s|
  {
    ContainsStep(s, p);
    if s != [] {
      IncludesIsContains(s[1..], p);
    }
  }

  /** Number of non-overlapping occurrences, found left to right: the length of `s.match(/p/g)`. */
  function Count(s: string, p: string): (n: nat)
    requires |p| > 0
    ensures n <= |s|
    decreases |s|
  {
    if s == [] then 0
    else if StartsWith(s, p) then 1 + Count(s[|p|..], p)
    else Count(s[1..], p)
  }

  function Repeat(s: string, n: nat): (r: string)
    ensures |r| == n * |s|
  {
    if n == 0 then [] else s + Repeat(s, n - 1)
  }

  // ---------------------------------------------------------------------------
  // Characters as JavaScript classifies them
  // ---------------------------------------------------------------------------

  /** `\s` and the characters `trim()` removes: WhiteSpace and LineTerminator of ECMA-262. */
  predicate IsSpace(c: char) {
    c == '\t' || c == '\n' || c == '\U{000B}' || c == '\U{000C}' || c == '\r' || c == ' ' ||
    c == '\U{00A0}' || c == '\U{1680}' || ('\U{2000}' <= c <= '\U{200A}') ||
    c == '\U{2028}' || c == '\U{2029}' || c == '\U{202F}' || c == '\U{205F}' || c == '\U{3000}' || c == '\U{FEFF}'
  }

  /** The characters `.` does not match (no `s` flag). */
  predicate IsLineTerminator(c: char) {
    c == '\n' || c == '\r' || c == '\U{2028}' || c == '\U{2029}'
  }

  /** Length of the longest all-whitespace prefix: what a greedy `\s*` consumes. */
  function SpaceRun(s: string): (n: nat)
    ensures n <= |s|
    decreases |s|
  {
    if s != [] && IsSpace(s[0]) then 1 + SpaceRun(s[1..]) else 0
  }

  function TrimStart(s: string): string {
    s[SpaceRun(s)..]
  }

  function TrimEnd(s: string): (r: string)
    decreases |s|
  {
    if s != [] && IsSpace(s[|s| - 1]) then TrimEnd(s[..|s| - 1]) else s
  }

  /** `String.prototype.trim`. */
  function Trim(s: string): string {
    TrimEnd(TrimStart(s))
  }

  predicate IsAsciiUpper(c: char) { 'A' <= c <= 'Z' }

  function LowerAscii(c: char): char {
    if IsAsciiUpper(c) then (c as int + 32) as char else c
  }

  /** Prefix test under the `i` flag; `p` is written in lower case and case folding is ASCII-only. */
  predicate StartsWithIgnoreCase(s: string, p: string) {
    |p| <= |s| && forall k :: 0 <= k < |p| ==> LowerAscii(s[k]) == p[k]
  }

  // ---------------------------------------------------------------------------
  // Lines: `split('\n')` and `join('\n')`
  // ---------------------------------------------------------------------------

  function Split(s: string, c: char): (r: seq<string>)
    ensures |r| >= 1
    ensures forall i :: 0 <= i < |r| ==> c !in r[i]
    decreases |s|
  {
    if s == [] then [[]]
    else
      var rest := Split(s[1..], c);
      if s[0] == c then [[]] + rest
      else [[s[0]] + rest[0]] + rest[1..]
  }

  function Join(ls: seq<string>, c: char): string
    decreases |ls|
  {
    if |ls| == 0 then []
    else if |ls| == 1 then ls[0]
    else ls[0] + [c] + Join(ls[1..], c)
  }

  /** Splitting and joining on the same character gives the text back. */
  lemma {:induction false} JoinSplit(s: string, c: char)
    ensures Join(Split(s, c), c) == s
    decreases |s|
  {
    if s != [] {
      var rest := Split(s[1..], c);
      JoinSplit(s[1..], c);
      if s[0] != c && |rest| > 1 {
        assert Join(rest, c) == rest[0] + [c] + Join(rest[1..], c);
        assert [s[0]] + rest[0] + [c] + Join(rest[1..], c) == [s[0]] + Join(rest, c);
      }
    }
  }

  lemma {:induction false} SplitNoSeparator(a: string, c: char)
    requires c !in a
    ensures Split(a, c) == [a]
    decreases |a|
  {
    if a != [] {
      SplitNoSeparator(a[1..], c);
      assert [a[0]] + a[1..] == a;
    }
  }

  lemma {:induction false} SplitFirstPiece(a: string, rest: string, c: char)
    requires c !in a
    ensures Split(a + [c] + rest, c) == [a] + Split(rest, c)
    decreases |a|
  {
    if a == [] {
      assert a + [c] + rest == [c] + rest;
      assert ([c] + rest)[1..] == rest;
    } else {
      SplitFirstPiece(a[1..], rest, c);
      assert (a + [c] + rest)[1..] == a[1..] + [c] + rest;
      assert [a[0]] + a[1..] == a;
    }
  }

  /** Joining lines that hold no separator and splitting again gives the same lines. */
  lemma {:induction false} SplitJoin(ls: seq<string>, c: char)
    requires |ls| >= 1 && forall i :: 0 <= i < |ls| ==> c !in ls[i]
    ensures Split(Join(ls, c), c) == ls
    decreases |ls|
  {
    if |ls| == 1 {
      SplitNoSeparator(ls[0], c);
    } else {
      SplitJoin(ls[1..], c);
      SplitFirstPiece(ls[0], Join(ls[1..], c), c);
      assert ls == [ls[0]] + ls[1..];
    }
  }

  /** A text that starts with a separator-free `w` has a first line that starts with `w`. */
  lemma {:induction false} SplitHeadStarts(s: string, w: string, c: char)
    requires StartsWith(s, w) && c !in w
    ensures StartsWith(Split(s, c)[0], w)
    decreases |w|
  {
    if w != [] {
      assert s[0] == w[0];
      assert s[1..][..|w| - 1] == w[1..];
      SplitHeadStarts(s[1..], w[1..], c);
      var first := Split(s[1..], c)[0];
      assert Split(s, c)[0] == [s[0]] + first;
      assert ([s[0]] + first)[..|w|] == [w[0]] + first[..|w| - 1];
      assert [w[0]] + w[1..] == w;
    }
  }

  /** A separator-free `w` found in a text lies within one of its lines. */
  lemma {:induction false} SplitContains(s: string, w: string, c: char) returns (i: nat)
    requires Contains(s, w) && c !in w
    ensures i < |Split(s, c)| && Contains(Split(s, c)[i], w)
    decreases |s|
  {
    ContainsStep(s, w);
    if StartsWith(s, w) {
      SplitHeadStarts(s, w, c);
      i := 0;
      assert Split(s, c)[0][0..] == Split(s, c)[0];
      ContainsAt(Split(s, c)[0], w, 0);
    } else {
      var j := SplitContains(s[1..], w, c);
      var rest := Split(s[1..], c);
      if s[0] == c {
        i := j + 1;
      } else if j == 0 {
        i := 0;
        ContainsInSuffix([s[0]], rest[0], w);
      } else {
        i := j;
      }
    }
  }

  /** Joining two non-empty runs of lines puts exactly one separator between them. */
  lemma {:induction false} JoinAppend(a: seq<string>, b: seq<string>, c: char)
    requires |a| > 0 && |b| > 0
    ensures Join(a + b, c) == Join(a, c) + [c] + Join(b, c)
    decreases |a|
  {
    if |a| == 1 {
      assert (a + b)[1..] == b;
    } else {
      JoinAppend(a[1..], b, c);
      assert (a + b)[1..] == a[1..] + b;
    }
  }

  // ---------------------------------------------------------------------------
  // Fixed-shape regular expressions: the scanner
  // ---------------------------------------------------------------------------

  /** A match of a fixed shape at the start of the remaining text: it consumes `len` characters and is replaced by `out`. */
  datatype Hit = Hit(len: nat, out: string)

  /** A matcher looks at the text from the current position on (no shape used here looks behind). */
  type Matcher = string -> Option<Hit>

  /** The matcher matches at the start of `t` with a non-empty match. */
  predicate Fires(m: Matcher, t: string) {
    m(t).Some? && 0 < m(t).value.len <= |t|
  }

  /**
   * `s.replace(re, f)` for a global regular expression: the leftmost match is
   * replaced, the search resumes after it, and text no match covers is copied.
   */
  function ReplaceMatches(s: string, m: Matcher): string
    decreases |s|
  {
    if s == [] then []
    else if Fires(m, s) then m(s).value.out + ReplaceMatches(s[m(s).value.len..], m)
    else [s[0]] + ReplaceMatches(s[1..], m)
  }

  /** Where the shape fires, its output replaces the matched text. */
  lemma ReplaceMatchesFires(s: string, m: Matcher)
    requires Fires(m, s)
    ensures ReplaceMatches(s, m) == m(s).value.out + ReplaceMatches(s[m(s).value.len..], m)
  {
  }

  /** Where the shape does not fire, the head character is copied. */
  lemma ReplaceMatchesCopy(s: string, m: Matcher)
    requires s != [] && !Fires(m, s)
    ensures ReplaceMatches(s, m) == [s[0]] + ReplaceMatches(s[1..], m)
  {
  }

  lemma NoFiresShift(s: string, m: Matcher, j: nat)
    requires 0 < j <= |s| && forall k :: 0 <= k < j ==> !Fires(m, s[k..])
    ensures forall k :: 0 <= k < j - 1 ==> !Fires(m, s[1..][k..])
  {
    forall k | 0 <= k < j - 1 ensures !Fires(m, s[1..][k..]) {
      assert s[1..][k..] == s[k + 1..];
    }
  }

  lemma HeadAndPrefix(s: string, j: nat, x: string)
    requires 0 < j <= |s|
    ensures s[1..][j - 1..] == s[j..]
    ensures [s[0]] + (s[1..][..j - 1] + x) == s[..j] + x
  {
    assert [s[0]] + s[1..][..j - 1] == s[..j];
  }

  /** Text before the first match is copied unchanged. */
  lemma {:induction false} ReplaceMatchesCopiesPrefix(s: string, m: Matcher, j: nat)
    requires j <= |s|
    requires forall k :: 0 <= k < j ==> !Fires(m, s[k..])
    ensures ReplaceMatches(s, m) == s[..j] + ReplaceMatches(s[j..], m)
    decreases j
  {
    if j > 0 {
      assert !Fires(m, s[0..]);
      assert s[0..] == s;
      ReplaceMatchesCopy(s, m);
      NoFiresShift(s, m, j);
      ReplaceMatchesCopiesPrefix(s[1..], m, j - 1);
      HeadAndPrefix(s, j, ReplaceMatches(s[j..], m));
    }
  }

  /** A shape that matches nowhere changes nothing. */
  lemma ReplaceMatchesNoMatch(s: string, m: Matcher)
    requires forall k :: 0 <= k < |s| ==> !Fires(m, s[k..])
    ensures ReplaceMatches(s, m) == s
  {
    ReplaceMatchesCopiesPrefix(s, m, |s|);
    assert s[|s|..] == [];
  }

  /** A shape whose every match is replaced by the text it matched changes nothing. */
  lemma {:induction false} ReplaceMatchesKeepsText(s: string, m: Matcher)
    requires forall t :: Fires(m, t) ==> m(t).value.out == t[..m(t).value.len]
    ensures ReplaceMatches(s, m) == s
    decreases |s|
  {
    if s != [] {
      if Fires(m, s) {
        ReplaceMatchesKeepsText(s[m(s).value.len..], m);
        assert s[..m(s).value.len] + s[m(s).value.len..] == s;
      } else {
        ReplaceMatchesKeepsText(s[1..], m);
      }
    }
  }

  // ---------------------------------------------------------------------------
  // Literal patterns (`escapeRegex`-ed strings and plain string patterns)
  // ---------------------------------------------------------------------------

  /** The matcher of a literal pattern `p` with replacement `r`. */
  function Literal(p: string, r: string): Matcher {
    t => if |p| > 0 && StartsWith(t, p) then Some(Hit(|p|, r)) else None
  }

  /** `s.replace(new RegExp(escapeRegex(p), 'g'), r)`. */
  function ReplaceAll(s: string, p: string, r: string): string {
    ReplaceMatches(s, Literal(p, r))
  }

  /** `s.replace(p, r)` with a string pattern: only the first occurrence. */
  function ReplaceFirst(s: string, p: string, r: string): string {
    match IndexOf(s, p)
    case None => s
    case Some(k) => s[..k] + r + s[k + |p|..]
  }

  lemma ReplaceAllStep(s: string, p: string, r: string)
    requires |p| > 0
    ensures s == [] ==> ReplaceAll(s, p, r) == []
    ensures s != [] && StartsWith(s, p) ==> ReplaceAll(s, p, r) == r + ReplaceAll(s[|p|..], p, r)
    ensures s != [] && !StartsWith(s, p) ==> ReplaceAll(s, p, r) == [s[0]] + ReplaceAll(s[1..], p, r)
  {
    if s != [] {
      assert Literal(p, r)(s) == if StartsWith(s, p) then Some(Hit(|p|, r)) else None;
    }
  }

  lemma ReplaceAllAbsent(s: string, p: string, r: string)
    requires |p| > 0 && !Contains(s, p)
    ensures ReplaceAll(s, p, r) == s
  {
    IndexOfFirst(s, p);
    forall k | 0 <= k < |s| ensures !Fires(Literal(p, r), s[k..]) {
    }
    ReplaceMatchesNoMatch(s, Literal(p, r));
  }

  /** A text lacking one of the pattern's characters cannot contain the pattern. */
  lemma MissingChar(s: string, p: string, i: nat)
    requires i < |p| && p[i] !in s
    ensures !Contains(s, p)
  {
    forall k | 0 <= k <= |s| - |p| ensures s[k..][..|p|] != p {
      assert s[k..][..|p|][i] == s[k + i];
      assert s[k + i] in s;
    }
  }

  /** A pattern longer than the text cannot occur in it. */
  lemma ShorterLacks(s: string, p: string)
    requires |s| < |p|
    ensures !Contains(s, p)
  {
  }

  /** A text made of the pattern and a remainder free of it: only the head is replaced. */
  lemma ReplaceAllHead(p: string, x: string, r: string)
    requires |p| > 0 && !Contains(x, p)
    ensures ReplaceAll(p + x, p, r) == r + x
  {
    ReplaceAllStep(p + x, p, r);
    assert (p + x)[..|p|] == p;
    assert (p + x)[|p|..] == x;
    ReplaceAllAbsent(x, p, r);
  }

  /** Neither string is a prefix of the other. */
  predicate Clash(a: string, b: string) {
    !StartsWith(a, b) && !StartsWith(b, a)
  }

  lemma {:induction false} NoHeadConcat(u: string, t: string, q: string)
    requires |q| > 0 && q[0] !in u && !Contains(t, q)
    ensures !Contains(u + t, q)
    decreases |u|
  {
    ContainsStep(u + t, q);
    if u != [] {
      assert (u + t)[0] == u[0];
      assert (u + t)[1..] == u[1..] + t;
      NoHeadConcat(u[1..], t, q);
    } else {
      assert u + t == t;
    }
  }

  /** A run of output that a replacement does not start in was copied from the input. */
  lemma {:induction false} CopiedRun(s: string, p: string, r: string, q: string, j: nat)
    requires |p| > 0 && |r| > 0 && 1 <= j <= |q|
    requires forall k :: 1 <= k < |q| ==> q[k] != r[0]
    requires StartsWith(ReplaceAll(s, p, r), q[j..])
    ensures StartsWith(s, q[j..])
    decreases |s|
  {
    ReplaceAllStep(s, p, r);
    if j < |q| {
      assert ReplaceAll(s, p, r)[0] == q[j];
      if s == [] || StartsWith(s, p) {
        // impossible: the output would start with r[0], which q does not hold past its head
      } else {
        var t := ReplaceAll(s[1..], p, r);
        assert q[j..][1..] == q[j + 1..];
        assert StartsWith(t, q[j + 1..]);
        CopiedRun(s[1..], p, r, q, j + 1);
        assert s[..|q[j..]|] == [s[0]] + s[1..][..|q[j + 1..]|];
      }
    }
  }

  /** The conditions under which a replacement by `r` cannot create an occurrence of `q`. */
  predicate NoNewOccurrence(r: string, q: string) {
    |r| > 0 && |q| > 0 && r[0] !in q[1..] && q[0] !in r[1..] && Clash(r, q)
  }

  /** The pattern matches at the head: the output is `r`, then the rest's output, and `q` occurs in neither. */
  lemma LeavesNoAtMatch(s: string, p: string, r: string, q: string)
    requires |p| > 0 && NoNewOccurrence(r, q) && s != [] && StartsWith(s, p)
    requires !Contains(ReplaceAll(s[|p|..], p, r), q)
    ensures !Contains(ReplaceAll(s, p, r), q)
  {
    ReplaceAllStep(s, p, r);
    ReplacementLeavesNo(r, ReplaceAll(s[|p|..], p, r), q);
  }

  /** A replacement followed by text free of `q` holds no `q`. */
  lemma ReplacementLeavesNo(r: string, t: string, q: string)
    requires NoNewOccurrence(r, q) && !Contains(t, q)
    ensures !Contains(r + t, q)
  {
    ClashHead(r, t, q);
    ContainsStep(r + t, q);
    assert (r + t)[1..] == r[1..] + t;
    NoHeadConcat(r[1..], t, q);
  }

  /** Two clashing strings: `q` does not start a text that starts with `r`. */
  lemma ClashHead(r: string, t: string, q: string)
    requires Clash(r, q)
    ensures !StartsWith(r + t, q)
  {
    if |q| <= |r| {
      assert (r + t)[..|q|] == r[..|q|];
    } else if |q| <= |r + t| {
      assert (r + t)[..|q|][..|r|] == r;
    }
  }

  /** No match at the head: the head is copied, and `q` cannot start there. */
  lemma LeavesNoCopied(s: string, p: string, r: string, q: string)
    requires |p| > 0 && NoNewOccurrence(r, q) && s != [] && !StartsWith(s, p)
    requires !StartsWith(s, q)
    requires !Contains(ReplaceAll(s[1..], p, r), q)
    ensures !Contains(ReplaceAll(s, p, r), q)
  {
    ReplaceAllStep(s, p, r);
    var t := ReplaceAll(s[1..], p, r);
    ContainsStep([s[0]] + t, q);
    assert ([s[0]] + t)[1..] == t;
    if StartsWith([s[0]] + t, q) {
      assert StartsWith(t, q[1..]);
      CopiedRun(s[1..], p, r, q, 1);
      assert false;
    }
  }

  /**
   * A global literal replacement creates no occurrence of `q` when a replacement
   * cannot start inside `q`, `q` cannot start inside a replacement, and the two
   * disagree where they overlap; with `q == p` this says every occurrence of the
   * pattern is gone.
   */
  lemma {:induction false} ReplaceAllLeavesNo(s: string, p: string, r: string, q: string)
    requires |p| > 0 && NoNewOccurrence(r, q)
    requires q == p || !Contains(s, q)
    ensures !Contains(ReplaceAll(s, p, r), q)
    decreases |s|
  {
    if s == [] {
      ReplaceAllStep(s, p, r);
      ContainsStep([], q);
    } else if StartsWith(s, p) {
      if q != p {
        SuffixLacks(s, q, |p|);
      }
      ReplaceAllLeavesNo(s[|p|..], p, r, q);
      LeavesNoAtMatch(s, p, r, q);
    } else {
      if q != p {
        ContainsStep(s, q);
      }
      ReplaceAllLeavesNo(s[1..], p, r, q);
      LeavesNoCopied(s, p, r, q);
    }
  }

  /** A text without `q` has no `q` in any suffix. */
  lemma SuffixLacks(s: string, q: string, n: nat)
    requires n <= |s| && !Contains(s, q)
    ensures !Contains(s[n..], q)
  {
    IndexOfFirst(s, q);
    forall k | 0 <= k <= |s[n..]| ensures !StartsWith(s[n..][k..], q) {
      assert s[n..][k..] == s[n + k..];
    }
  }

  /**
   * `ReplaceFirst` rewrites the first occurrence only: everything before it and everything after it, later
   * occurrences included, is copied unchanged.
   */
  lemma ReplaceFirstAt(s: string, p: string, r: string, k: nat)
    requires k + |p| <= |s| && StartsWith(s[k..], p)
    requires forall i :: 0 <= i < k ==> !StartsWith(s[i..], p)
    ensures ReplaceFirst(s, p, r) == s[..k] + r + s[k + |p|..]
  {
    IndexOfUnique(s, p, k);
  }

  /** A text is its three pieces around a span. */
  lemma Around(s: string, i: nat, j: nat)
    requires i <= j <= |s|
    ensures s == s[..i] + s[i..j] + s[j..]
  {
  }

  /** An occurrence in a suffix is an occurrence in the whole text. */
  lemma ContainsInSuffix(u: string, t: string, p: string)
    requires Contains(t, p)
    ensures Contains(u + t, p)
  {
    var k := IndexOf(t, p).value;
    assert (u + t)[|u| + k..] == t[k..];
    ContainsAt(u + t, p, |u| + k);
  }

  /** An occurrence in a prefix is an occurrence in the whole text. */
  lemma ContainsInPrefix(t: string, u: string, p: string)
    requires Contains(t, p)
    ensures Contains(t + u, p)
  {
    var k := IndexOf(t, p).value;
    assert (t + u)[k..][..|p|] == t[k..][..|p|];
    ContainsAt(t + u, p, k);
  }

  /** An occurrence in the middle piece is an occurrence in the whole text. */
  lemma ContainsInMiddle(a: string, mid: string, b: string, p: string)
    requires Contains(mid, p)
    ensures Contains(a + mid + b, p)
  {
    ContainsInSuffix(a, mid, p);
    ContainsInPrefix(a + mid, b, p);
  }

  /**
   * When a replacement pass keeps `w`: `w` already lies in `s[a..b]` or the pass fires at `a`, and every match
   * that starts before `b` either ends by `a` or starts no later than `a` and puts `w` into its output.
   */
  predicate KeepsBetween(s: string, m: Matcher, a: nat, b: nat, w: string) {
    a <= b <= |s| &&
    (forall p :: 0 <= p < b ==> EndsOrCarries(s, m, p, a, w)) &&
    ((a < b && Fires(m, s[a..])) || Contains(s[a..b], w))
  }

  /** A match at `p` ends by `a`, or starts no later than `a` and puts `w` into its output. */
  predicate EndsOrCarries(s: string, m: Matcher, p: nat, a: nat, w: string) {
    p <= |s| &&
    (Fires(m, s[p..]) ==> p + m(s[p..]).value.len <= a || (p <= a && Contains(m(s[p..]).value.out, w)))
  }

  lemma KeepsBetweenShift(s: string, m: Matcher, a: nat, b: nat, w: string, n: nat)
    requires KeepsBetween(s, m, a, b, w) && n <= a
    ensures KeepsBetween(s[n..], m, a - n, b - n, w)
  {
    var rest := s[n..];
    var c := a - n;
    forall p | 0 <= p < b - n ensures EndsOrCarries(rest, m, p, c, w) {
      EndsOrCarriesShift(s, m, n, p, a, w);
    }
    assert rest[a - n..] == s[a..];
    assert rest[a - n..b - n] == s[a..b];
  }

  lemma EndsOrCarriesShift(s: string, m: Matcher, n: nat, p: nat, a: nat, w: string)
    requires EndsOrCarries(s, m, n + p, a, w) && n <= a
    ensures EndsOrCarries(s[n..], m, p, a - n, w)
  {
    assert s[n..][p..] == s[n + p..];
  }

  /** A replacement pass under the conditions of `KeepsBetween` leaves `w` in its output. */
  lemma {:induction false} ReplaceMatchesKeeps(s: string, m: Matcher, a: nat, b: nat, w: string)
    requires KeepsBetween(s, m, a, b, w)
    ensures Contains(ReplaceMatches(s, m), w)
    decreases |s|, 1
  {
    if b == 0 {
      KeepsEmpty(s, m, a, w);
    } else if Fires(m, s) {
      KeepsAfterHit(s, m, a, b, w);
    } else if a > 0 {
      KeepsAfterMiss(s, m, a, b, w);
    } else {
      KeepsFromStart(s, m, b, w);
    }
  }

  lemma KeepsEmpty(s: string, m: Matcher, a: nat, w: string)
    requires KeepsBetween(s, m, a, 0, w)
    ensures Contains(ReplaceMatches(s, m), w)
  {
    assert |w| == 0;
    ContainsAt(ReplaceMatches(s, m), w, 0);
  }

  /** The pass does not fire at the start, before `a`: one character is copied and the rest of the pass keeps `w`. */
  lemma {:induction false} KeepsAfterMiss(s: string, m: Matcher, a: nat, b: nat, w: string)
    requires KeepsBetween(s, m, a, b, w) && 0 < a && !Fires(m, s)
    ensures Contains(ReplaceMatches(s, m), w)
    decreases |s|, 0
  {
    KeepsBetweenShift(s, m, a, b, w, 1);
    ReplaceMatchesKeeps(s[1..], m, a - 1, b - 1, w);
    CopyKeeps(s, m, w);
  }

  /** Where the pass copies the head character, what the rest of the pass yields is kept. */
  lemma CopyKeeps(s: string, m: Matcher, w: string)
    requires s != [] && !Fires(m, s) && Contains(ReplaceMatches(s[1..], m), w)
    ensures Contains(ReplaceMatches(s, m), w)
  {
    ReplaceMatchesCopy(s, m);
    ContainsInSuffix([s[0]], ReplaceMatches(s[1..], m), w);
  }

  /** Where the pass fires, its output and what the rest of the pass yields are both kept. */
  lemma HitKeeps(s: string, m: Matcher, w: string)
    requires Fires(m, s)
    ensures Contains(m(s).value.out, w) ==> Contains(ReplaceMatches(s, m), w)
    ensures Contains(ReplaceMatches(s[m(s).value.len..], m), w) ==> Contains(ReplaceMatches(s, m), w)
  {
    ReplaceMatchesFires(s, m);
    var h := m(s).value;
    if Contains(h.out, w) {
      ContainsInPrefix(h.out, ReplaceMatches(s[h.len..], m), w);
    }
    if Contains(ReplaceMatches(s[h.len..], m), w) {
      ContainsInSuffix(h.out, ReplaceMatches(s[h.len..], m), w);
    }
  }

  /** The pass fires at the start: its output either holds `w` or ends by `a`, and the rest of the pass keeps `w`. */
  lemma {:induction false} KeepsAfterHit(s: string, m: Matcher, a: nat, b: nat, w: string)
    requires KeepsBetween(s, m, a, b, w) && 0 < b && Fires(m, s)
    ensures Contains(ReplaceMatches(s, m), w)
    decreases |s|, 0
  {
    var h := m(s).value;
    HitKeeps(s, m, w);
    if h.len <= a {
      KeepsBetweenShift(s, m, a, b, w, h.len);
      ReplaceMatchesKeeps(s[h.len..], m, a - h.len, b - h.len, w);
    } else {
      HitHolds(s, m, a, b, w);
    }
  }

  /** A match at the start that runs past `a` carries `w` in its output. */
  lemma HitHolds(s: string, m: Matcher, a: nat, b: nat, w: string)
    requires KeepsBetween(s, m, a, b, w) && 0 < b && Fires(m, s) && a < m(s).value.len
    ensures Contains(m(s).value.out, w)
  {
    assert EndsOrCarries(s, m, 0, a, w);
    assert s[0..] == s;
  }

  lemma KeepsFromStart(s: string, m: Matcher, b: nat, w: string)
    requires KeepsBetween(s, m, 0, b, w) && 0 < b && !Fires(m, s)
    ensures Contains(ReplaceMatches(s, m), w)
  {
    forall p | 0 <= p < b ensures !Fires(m, s[p..]) {
      assert EndsOrCarries(s, m, p, 0, w);
      assert p == 0 ==> s[p..] == s;
    }
    assert s[0..] == s;
    ReplaceMatchesCopiesPrefix(s, m, b);
    assert s[0..b] == s[..b];
    ContainsInPrefix(s[..b], ReplaceMatches(s[b..], m), w);
  }

  /** A text without `p` contains nothing that starts with `p`. */
  lemma LongerLacks(s: string, p: string, q: string)
    requires StartsWith(q, p) && !Contains(s, p)
    ensures !Contains(s, q)
  {
    IndexOfFirst(s, p);
    forall k | 0 <= k <= |s| ensures !StartsWith(s[k..], q) {
      if |q| <= |s[k..]| {
        assert s[k..][..|q|][..|p|] == s[k..][..|p|];
      }
    }
  }

  /** `\s*` over a whitespace run stops at the first character that is not whitespace. */
  lemma {:induction false} SpaceRunOf(ws: string, u: string)
    requires forall i :: 0 <= i < |ws| ==> IsSpace(ws[i])
    requires u == [] || !IsSpace(u[0])
    ensures SpaceRun(ws + u) == |ws|
    decreases |ws|
  {
    if ws != [] {
      assert (ws + u)[1..] == ws[1..] + u;
      SpaceRunOf(ws[1..], u);
    }
  }

  /** The run is all whitespace and is followed by a character that is not. */
  lemma {:induction false} SpaceRunAll(s: string)
    ensures forall i :: 0 <= i < SpaceRun(s) ==> IsSpace(s[i])
    ensures SpaceRun(s) < |s| ==> !IsSpace(s[SpaceRun(s)])
    decreases |s|
  {
    if s != [] && IsSpace(s[0]) {
      SpaceRunAll(s[1..]);
    }
  }

  /** The run depends only on the text up to the character that ends it. */
  lemma SpaceRunLocal(x: string, y: string, m: nat)
    requires SpaceRun(x) < m <= |x| && m <= |y| && x[..m] == y[..m]
    ensures SpaceRun(y) == SpaceRun(x)
  {
    var r := SpaceRun(x);
    SpaceRunAll(x);
    assert y[..r] == x[..r];
    assert y[r] == x[r];
    assert y == y[..r] + y[r..];
    SpaceRunOf(y[..r], y[r..]);
  }

  // ---------------------------------------------------------------------------
  // `escapeRegex`: `str.replace(/[.*+?^${}()|[\]\\]/g, '\\$&')`
  // ---------------------------------------------------------------------------

  /** The characters that carry a meaning in a regular expression pattern. */
  predicate IsRegexSpecial(c: char) {
    c in ".*+?^${}()|[]\\"
  }

  /** How many characters of `s` are special. */
  function SpecialCount(s: string): (n: nat)
    ensures n <= |s|
  {
    if s == [] then 0 else (if IsRegexSpecial(s[0]) then 1 else 0) + SpecialCount(s[1..])
  }

  /** Every special character gets a backslash in front of it; the rest is copied. */
  function EscapeRegex(s: string): (r: string)
    ensures |r| == |s| + SpecialCount(s)
    ensures forall i :: 0 <= i < |r| && IsRegexSpecial(r[i]) && r[i] != '\\' ==> 0 < i && r[i - 1] == '\\'
  {
    if s == [] then []
    else if IsRegexSpecial(s[0]) then ['\\', s[0]] + EscapeRegex(s[1..])
    else [s[0]] + EscapeRegex(s[1..])
  }

  /** What an escaped pattern matches: a backslash and the character after it stand for that character. */
  function Unescape(e: string): string
    decreases |e|
  {
    if e == [] then []
    else if e[0] == '\\' && |e| >= 2 then [e[1]] + Unescape(e[2..])
    else [e[0]] + Unescape(e[1..])
  }

  lemma UnescapePair(c: char, rest: string)
    ensures Unescape(['\\', c] + rest) == [c] + Unescape(rest)
  {
    assert (['\\', c] + rest)[2..] == rest;
  }

  lemma UnescapeSingle(c: char, rest: string)
    requires c != '\\'
    ensures Unescape([c] + rest) == [c] + Unescape(rest)
  {
    assert ([c] + rest)[1..] == rest;
  }

  lemma BackslashIsSpecial()
    ensures IsRegexSpecial('\\')
  {
    assert ".*+?^${}()|[]\\"[13] == '\\';
  }

  /** The escaped pattern denotes exactly the literal it came from. */
  lemma {:induction false} UnescapeEscape(s: string)
    ensures Unescape(EscapeRegex(s)) == s
  {
    if s != [] {
      UnescapeEscape(s[1..]);
      if IsRegexSpecial(s[0]) {
        UnescapePair(s[0], EscapeRegex(s[1..]));
      } else {
        BackslashIsSpecial();
        UnescapeSingle(s[0], EscapeRegex(s[1..]));
      }
      assert s == [s[0]] + s[1..];
    }
  }

  /** A string without special characters is its own pattern. */
  lemma {:induction false} EscapeRegexPlain(s: string)
    requires forall k :: 0 <= k < |s| ==> !IsRegexSpecial(s[k])
    ensures EscapeRegex(s) == s
  {
    if s != [] {
      EscapeRegexPlain(s[1..]);
      assert s == [s[0]] + s[1..];
    }
  }

  /** Escaping works character by character: the escape of a concatenation is the concatenation of the escapes. */
  lemma {:induction false} EscapeRegexConcat(s: string, t: string)
    ensures EscapeRegex(s + t) == EscapeRegex(s) + EscapeRegex(t)
    decreases |s|
  {
    if s != [] {
      EscapeRegexConcat(s[1..], t);
      assert (s + t)[0] == s[0] && (s + t)[1..] == s[1..] + t;
    } else {
      assert s + t == t;
    }
  }
}
