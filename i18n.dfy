/**
 * The browser-side language helpers of assets/js/i18n.js, without the DOM: the page language read off the URL
 * path, the relative path to the locale files, the URL rewrite behind the language switch, and the translation
 * function `t` over a loaded locale object.
 */
module I18n {
  import opened Text
  import opened Components

  // ---------------------------------------------------------------------------
  // Language from the URL path
  // ---------------------------------------------------------------------------

  datatype Lang = Ko | En

  /** The code the script compares against (`'ko'`, `'en'`). */
  function Code(l: Lang): string {
    match l
    case Ko => "ko"
    case En => "en"
  }

  const EnRoot: string := "/en"
  const EnPrefix: string := "/en/"

  /** `getLanguageFromURL`: English under `/en/` and at `/en` itself, Korean everywhere else. */
  function LanguageOf(path: string): (l: Lang)
    ensures l == En <==> StartsWith(path, EnPrefix) || path == EnRoot
  {
    if StartsWith(path, EnPrefix) || path == EnRoot then En else Ko
  }

  // ---------------------------------------------------------------------------
  // `getLocalesPath`
  // ---------------------------------------------------------------------------

  /** `filter(Boolean)` on the pieces of a split: the non-empty ones, in order. */
  function NonEmpty(ls: seq<string>): (r: seq<string>)
    ensures |r| <= |ls|
    ensures forall i :: 0 <= i < |r| ==> r[i] != [] && r[i] in ls
  {
    if ls == [] then []
    else if ls[0] == [] then NonEmpty(ls[1..])
    else [ls[0]] + NonEmpty(ls[1..])
  }

  /** The number of non-empty segments of the path. */
  function Depth(path: string): nat {
    |NonEmpty(Split(path, '/'))|
  }

  const LocalesDir: string := "locales"
  const Up: string := "../"

  /** `getLocalesPath`: `./locales` at the root, otherwise one `../` per non-empty segment, then `locales`. */
  function LocalesPath(path: string): (r: string)
    ensures EndsWith(r, LocalesDir)
  {
    var depth := Depth(path);
    var r := if depth == 0 then "./" + LocalesDir else Repeat(Up, depth) + LocalesDir;
    assert r[|r| - |LocalesDir|..] == LocalesDir;
    r
  }

  lemma {:induction false} NonEmptyAppend(a: seq<string>, b: seq<string>)
    ensures NonEmpty(a + b) == NonEmpty(a) + NonEmpty(b)
    decreases |a|
  {
    if a != [] {
      NonEmptyAppend(a[1..], b);
      assert (a + b)[0] == a[0] && (a + b)[1..] == a[1..] + b;
      if a[0] != [] {
        assert NonEmpty(a + b) == [a[0]] + (NonEmpty(a[1..]) + NonEmpty(b));
        assert NonEmpty(a) == [a[0]] + NonEmpty(a[1..]);
      }
    } else {
      assert a + b == b;
    }
  }

  lemma {:induction false} NonEmptyAll(ks: seq<string>)
    requires forall i :: 0 <= i < |ks| ==> ks[i] != []
    ensures NonEmpty(ks) == ks
    decreases |ks|
  {
    if ks != [] {
      NonEmptyAll(ks[1..]);
    }
  }

  /** A leading slash splits off an empty first piece. */
  lemma LeadingSlash(t: string)
    ensures NonEmpty(Split("/" + t, '/')) == NonEmpty(Split(t, '/'))
  {
    SplitFirstPiece([], t, '/');
    assert [] + ['/'] + t == "/" + t;
    assert ([[]] + Split(t, '/'))[1..] == Split(t, '/');
  }

  /** Joined slash-free, non-empty segments split back into themselves. */
  lemma JoinedSegments(ks: seq<string>)
    requires |ks| >= 1 && forall i :: 0 <= i < |ks| ==> ks[i] != [] && '/' !in ks[i]
    ensures NonEmpty(Split(Join(ks, '/'), '/')) == ks
  {
    SplitJoin(ks, '/');
    NonEmptyAll(ks);
  }

  /** A trailing slash adds one empty piece, which is dropped. */
  lemma TrailingSlash(ks: seq<string>)
    requires |ks| >= 1 && forall i :: 0 <= i < |ks| ==> ks[i] != [] && '/' !in ks[i]
    ensures NonEmpty(Split(Join(ks, '/') + "/", '/')) == ks
  {
    var pieces := ks + [[]];
    assert forall i :: 0 <= i < |pieces| ==> '/' !in pieces[i];
    JoinAppend(ks, [[]], '/');
    assert Join([[]], '/') == [];
    assert Join(pieces, '/') == Join(ks, '/') + "/";
    SplitJoin(pieces, '/');
    NonEmptyAppend(ks, [[]]);
    NonEmptyAll(ks);
  }

  /** The segments of `/s1/…/sn` are `s1 … sn`, with or without a trailing slash. */
  lemma SegmentsOfPath(ks: seq<string>, trailing: bool)
    requires |ks| >= 1 && forall i :: 0 <= i < |ks| ==> ks[i] != [] && '/' !in ks[i]
    ensures NonEmpty(Split("/" + Join(ks, '/') + (if trailing then "/" else ""), '/')) == ks
  {
    var t := Join(ks, '/') + (if trailing then "/" else "");
    assert "/" + Join(ks, '/') + (if trailing then "/" else "") == "/" + t;
    LeadingSlash(t);
    if trailing {
      TrailingSlash(ks);
    } else {
      assert t == Join(ks, '/');
      JoinedSegments(ks);
    }
  }

  /** A page `n` segments deep, `/s1/…/sn` or `/s1/…/sn/`, reaches the locale files by climbing exactly `n` levels. */
  lemma LocalesPathClimbs(ks: seq<string>, trailing: bool)
    requires |ks| >= 1 && forall i :: 0 <= i < |ks| ==> ks[i] != [] && '/' !in ks[i]
    ensures LocalesPath("/" + Join(ks, '/') + (if trailing then "/" else "")) == Repeat(Up, |ks|) + LocalesDir
  {
    SegmentsOfPath(ks, trailing);
  }

  /** The site root and the empty path use the locale files beside the page. */
  lemma LocalesPathAtRoot()
    ensures LocalesPath("/") == "./locales" && LocalesPath("") == "./locales"
  {
    assert Split("/", '/') == [[], []] by {
      assert "/"[1..] == [];
    }
  }

  // ---------------------------------------------------------------------------
  // `switchLanguage`: the new URL path
  // ---------------------------------------------------------------------------

  /** `path.replace(/^\/en/, '')`. */
  function StripEn(path: string): (r: string)
    ensures StartsWith(path, EnRoot) ==> path == EnRoot + r
    ensures !StartsWith(path, EnRoot) ==> r == path
  {
    if StartsWith(path, EnRoot) then
      assert path == path[..3] + path[3..];
      path[3..]
    else path
  }

  /**
   * The path `switchLanguage(lang)` navigates to from `path`, or None when `lang` is the page's own language and
   * nothing happens. Any code other than `'en'` takes the Korean branch, as in the script.
   */
  function SwitchPath(path: string, lang: string): (r: Option<string>)
    ensures r.None? <==> lang == Code(LanguageOf(path))
    ensures r.Some? && lang == "en" && StartsWith(path, "/") ==> LanguageOf(r.value) == En
  {
    if lang == Code(LanguageOf(path)) then None
    else if lang == "en" then
      if path == "/" || path == "" then Some(EnPrefix)
      else
        assert (EnRoot + path)[..4] == EnRoot + path[..1];
        Some(EnRoot + path)
    else if path == EnRoot || path == EnPrefix then Some("/")
    else Some(StripEn(path))
  }

  /** Going to English and back returns to the Korean page, for every Korean path that starts with `/`. */
  lemma KoreanRoundTrip(p: string)
    requires StartsWith(p, "/") && LanguageOf(p) == Ko
    ensures var q := SwitchPath(p, "en");
      q.Some? && LanguageOf(q.value) == En && SwitchPath(q.value, "ko") == Some(p)
  {
    if p != "/" {
      var q := EnRoot + p;
      assert q[..3] == EnRoot;
      assert q[3..] == p;
      assert q[..4] == EnPrefix;
      assert EnPrefix[3..] == "/";
    }
  }

  /**
   * Going to Korean and back returns to the English page (`/en` comes back as `/en/`), unless the Korean path is
   * itself English, as it is for `/en/en/…`.
   */
  lemma EnglishRoundTrip(q: string)
    requires LanguageOf(q) == En
    ensures var p := SwitchPath(q, "ko");
      p.Some? && (LanguageOf(p.value) == Ko ==> SwitchPath(p.value, "en") == Some(if q == EnRoot then EnPrefix else q))
  {
    if q != EnRoot && q != EnPrefix {
      assert q[..3] == EnRoot;
      assert q == EnRoot + q[3..];
      assert q[3..][..1] == "/";
    }
  }

  /** `/en/en/x` switches to `/en/x`, an English path: the switch does not leave English there. */
  lemma DoubledPrefixStaysEnglish(x: string)
    ensures SwitchPath("/en/en/" + x, "ko") == Some("/en/" + x)
  {
    var q := "/en/en/" + x;
    assert q[..4] == EnPrefix;
    assert q[..3] == EnRoot;
    assert q[3..] == "/en/" + x;
    assert q != EnRoot && q != EnPrefix by {
      assert |q| >= 7;
    }
  }

  // ---------------------------------------------------------------------------
  // `getNestedValue` and `t`
  // ---------------------------------------------------------------------------

  /** A JavaScript value the browser-side reduce can produce: `undefined` or a parsed locale value. */
  datatype Value = Undefined | Defined(v: Json)

  predicate TruthyValue(x: Value) {
    x.Defined? && Truthy(x.v)
  }

  /** One step of the reduce: `acc && acc[part]`; a falsy accumulator is kept as it is. */
  function Access(acc: Value, part: string): Value {
    if !TruthyValue(acc) then acc
    else if acc.v.Obj? && part in acc.v.fields then Defined(acc.v.fields[part])
    else Undefined
  }

  function Reduce(acc: Value, ks: seq<string>): Value
    decreases |ks|
  {
    if ks == [] then acc else Reduce(Access(acc, ks[0]), ks[1..])
  }

  /** `getNestedValue(obj, path)` of the browser script. */
  function NestedValue(obj: Json, path: string): Value {
    Reduce(Defined(obj), Split(path, '.'))
  }

  /** `t(key)`: the looked-up value, or the key itself when the lookup is falsy. */
  function Translate(translations: Json, key: string): (r: Json)
    ensures TruthyValue(NestedValue(translations, key)) ==> r == NestedValue(translations, key).v
    ensures !TruthyValue(NestedValue(translations, key)) ==> r == Str(key)
  {
    var x := NestedValue(translations, key);
    if TruthyValue(x) then x.v else Str(key)
  }

  lemma {:induction false} ReduceFalsy(acc: Value, ks: seq<string>)
    requires !TruthyValue(acc)
    ensures Reduce(acc, ks) == acc
    decreases |ks|
  {
    if ks != [] {
      ReduceFalsy(acc, ks[1..]);
    }
  }

  /** The reduce finds a truthy value exactly when every segment is present and the value reached is truthy. */
  lemma {:induction false} ReduceIsLookup(o: Json, ks: seq<string>)
    ensures TruthyValue(Reduce(Defined(o), ks)) <==> Lookup(o, ks).Some? && Truthy(Lookup(o, ks).value)
    ensures TruthyValue(Reduce(Defined(o), ks)) ==> Reduce(Defined(o), ks).v == Lookup(o, ks).value
    decreases |ks|
  {
    if ks != [] {
      var next := Access(Defined(o), ks[0]);
      if o.Obj? && ks[0] in o.fields {
        ReduceIsLookup(o.fields[ks[0]], ks[1..]);
      } else if TruthyValue(Defined(o)) {
        ReduceFalsy(Undefined, ks[1..]);
      } else {
        ReduceFalsy(Defined(o), ks[1..]);
        assert !o.Obj?;
      }
    }
  }

  /**
   * `t` translates a dotted key of dot-free segments to the value at that path when it is present and truthy,
   * and to the key otherwise; where both find something, it agrees with the build scripts' `getNestedValue`.
   */
  lemma TranslateFindsPath(o: Json, ks: seq<string>)
    requires |ks| >= 1 && forall i :: 0 <= i < |ks| ==> '.' !in ks[i]
    ensures var key := Join(ks, '.');
      Translate(o, key) == (if Lookup(o, ks).Some? && Truthy(Lookup(o, ks).value) then Lookup(o, ks).value else Str(key))
    ensures var key := Join(ks, '.');
      Truthy(GetNestedValue(o, key)) ==> Translate(o, key) == GetNestedValue(o, key)
  {
    SplitJoin(ks, '.');
    ReduceIsLookup(o, ks);
    GetNestedPath(o, ks);
  }
}
