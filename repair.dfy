/**
 * `fixHeader` of scripts/auto/fix-duplicate-headers.js without the file system: a page that shows the
 * theme toggle more than once gets everything from its first header marker up to its main content
 * replaced by one clean header.
 */
module Repair {
  import opened Text
  import opened Components
  import opened Splice

  const ThemeToggle: string := "id=\"theme-toggle\""

  /** The header as the repair writes it: translated, then with `/en/` links on English pages. */
  function RepairedHeader(html: string, locale: Json, english: bool): string {
    var t := ApplyTranslations(html, locale);
    if english then ConvertLinksWithSlash(t) else t
  }

  /** `<div id="header">\n${header}</div>\n`. */
  function CleanHeader(header: string): string {
    Tag(Header) + ['\n'] + header + DivClose + ['\n']
  }

  /**
   * The page text `fixHeader` writes, or None where it returns false without writing: the page, its path
   * relative to the site root, the path separator, the header component and the two locales.
   */
  function FixHeader(content: string, rel: string, sep: string, headerHtml: string, ko: Json, en: Json): (r: Option<string>)
    ensures Count(content, ThemeToggle) <= 1 ==> r.None?
  {
    if Count(content, ThemeToggle) <= 1 then None
    else
      var english := IsEnglishPage(rel, sep);
      var header := RepairedHeader(headerHtml, if english then en else ko, english);
      match Search(content, StartMarker(Header))
      case None => None
      case Some(h) =>
        match Search(content, MainContent)
        case None => None
        case Some(m) => Some(content[..h.at] + CleanHeader(header) + content[m.at..])
  }

  /** The page is rewritten exactly when the toggle occurs twice or more and both the header marker and the main content are found. */
  lemma FixGates(content: string, rel: string, sep: string, headerHtml: string, ko: Json, en: Json)
    ensures FixHeader(content, rel, sep, headerHtml, ko, en).Some? <==>
      Count(content, ThemeToggle) >= 2 && Occurs(content, StartMarker(Header)) && Occurs(content, MainContent)
  {
    SearchFindsAny(content, StartMarker(Header));
    SearchFindsAny(content, MainContent);
  }

  /**
   * The new text: the page before the first header marker, the clean header, and the page from the start of the
   * first main-content match on, leading whitespace included. It is written even when it equals the old text.
   */
  lemma FixOutput(content: string, rel: string, sep: string, headerHtml: string, ko: Json, en: Json, h: nat, m: nat)
    requires Count(content, ThemeToggle) >= 2
    requires h <= |content| && MatchAt(content[h..], StartMarker(Header)).Some?
    requires forall k :: 0 <= k < h ==> MatchAt(content[k..], StartMarker(Header)).None?
    requires m <= |content| && MatchAt(content[m..], MainContent).Some?
    requires forall k :: 0 <= k < m ==> MatchAt(content[k..], MainContent).None?
    ensures var english := IsEnglishPage(rel, sep);
      FixHeader(content, rel, sep, headerHtml, ko, en) ==
        Some(content[..h] + CleanHeader(RepairedHeader(headerHtml, if english then en else ko, english)) + content[m..])
  {
    SearchUnique(content, StartMarker(Header), h);
    SearchUnique(content, MainContent, m);
  }

  /**
   * Nothing orders the main content after the header: when the first main-content match starts at or before
   * the first header marker, the old header, marker and all, is kept after the clean one.
   */
  lemma MainFirstKeepsOldHeader(content: string, header: string, h: nat, m: nat)
    requires m <= h <= |content|
    ensures var out := content[..h] + CleanHeader(header) + content[m..];
      h + |CleanHeader(header)| + (h - m) <= |out| && out[h + |CleanHeader(header)| + (h - m)..] == content[h..]
  {
    var c := CleanHeader(header);
    var out := content[..h] + c + content[m..];
    assert out[h + |c|..] == content[m..];
    assert content[m..][h - m..] == content[h..];
  }
}
