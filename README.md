# Toolneat page rewriters, modelled in Dafny

Toolneat is a static site of small online tools, with Korean pages at `/` and English pages under `/en/`. A set of
Node scripts rewrites its HTML pages in place. This project models the text-to-text core of those scripts and
proves what they do to a page:

- **Guide-heading relabel and reorder** (`scripts/auto/diversify-headings.js`, module `Headings`, file
  `headings.dfy`). Each tool page gets a variant A-D by round robin. The five standard `<h3>` guide headings get
  new labels from a per-variant, per-language table. An intro heading `…이란?` / `What is …?` is reworded. For
  B and D the five sections are cut into line spans and put back in a fixed permuted order. The end of the last
  span comes from a running `<div` / `</div>` balance, with a fallback scan. `reorderSections` and
  `parseSections` are methods with loops, proved equal to specification functions. The relabelling is a
  composition of matchers.
- **Class restyling** (`scripts/auto/diversify-structure.js`, module `Structure`, `structure.dfy`).
  `findGuideSection` is an `exec` loop method. `applyVariant` is a pure pipeline of first-occurrence and
  global literal replacements, applied from the guide section on.
- **Component splice and i18n text substitution** (`scripts/auto/inject-components.js`,
  `scripts/auto/fix-duplicate-headers.js`; modules `Components`, `Splice`, `Repair`). Covers the nested-key
  lookup, the `data-i18n` substitution, the `/en` link rewrite, the two-stage header/footer splice with its
  `modified` flag, and the gate-and-splice of `fixHeader`.
- **Language switching** (`assets/js/i18n.js`, module `I18n`). Covers language from the path, the locale-file
  path depth, the switch-language path rewrite, and the `t(key)` lookup.
- **SEO marker check** (`scripts/check-seo.js`, module `SeoCheck`). `checkSEO` builds its list by conditional
  pushes; the report loop files each page under its issues.
- **JSON-LD insertion** (`scripts/add-json-ld.js`, module `JsonLd`). Covers page-kind routing from the path,
  schema records, insertion before the first `</head>`, and the skip of pages that already have JSON-LD.

`Text` (`text.dfy`) holds the shared string operations: `indexOf`, literal first and global replacement, a
left-to-right replacement driven by a matcher for each fixed regular-expression shape the scripts use, `split`
and `join`, `\s*` runs, and `escapeRegex`.

Regular expressions are modelled only for the exact shapes the scripts use:
- `[^"]*` before a closing quote means "up to the first quote";
- a greedy `.+X` means "up to the last `X` on the line";
- `\s*` is the maximal whitespace run.

JavaScript values for the nested-key lookups are a `Json` datatype.

## Model

| member | source | states |
|---|---|---|
| Headings.VariantRoundRobin | scripts/auto/diversify-headings.js:446-470 | Pages four apart get the same variant; the page gets A exactly when its index is a multiple of 4 |
| Headings.NewLabels | scripts/auto/diversify-headings.js:351 | The new labels of a table, one per standard heading: label k is the replacement the table gives the k-th standard heading |
| Headings.H3OpenUnique | scripts/auto/diversify-headings.js:302-305 | Every tag of the shape `<h3 class="text-lg font-semibold…mt-6 mb-3">` is found by the tag matcher, at exactly its length |
| Headings.LabelAt | scripts/auto/diversify-headings.js:302-305 | A label match is a well-formed heading tag followed by exactly the label and `</h3>` |
| Headings.LabelMatchShape | scripts/auto/diversify-headings.js:301-308 | The label pattern fires exactly where a heading tag carries exactly the old label; the match consumes tag, label and `</h3>` and emits the same tag with the new label |
| Headings.RelabelRecognised | scripts/auto/diversify-headings.js:301-308 | A relabelled heading is still found by the same tag pattern, now under its new label |
| Headings.RelabelSameLabels | scripts/auto/diversify-headings.js:299-308 | A table that maps every label to itself leaves the page unchanged |
| Headings.RelabelNoTag | scripts/auto/diversify-headings.js:299-329 | A page without the heading tag prefix is unchanged by the relabel and intro steps |
| Headings.NoTagNoMatch | scripts/auto/diversify-headings.js:299-329 | A matcher that only fires on the tag prefix changes nothing in a page that lacks the prefix |
| Headings.VariantATableInert | scripts/auto/diversify-headings.js:294 | Running variant A's table would change nothing, so the early return for A loses nothing |
| Headings.KoIntroHit | scripts/auto/diversify-headings.js:313-319 | The Korean intro match runs to the last `이란?</h3>` on the heading's line and swaps only that suffix for the variant's word |
| Headings.EnIntroHit | scripts/auto/diversify-headings.js:320-327 | The English intro match runs from `What is ` to the last `?</h3>` on the line and maps the frame to the variant's `About X`-style frame |
| Headings.TableOrder | scripts/auto/diversify-headings.js:24-118 | The B and D orders are permutations of the five positions |
| Headings.ApplyVariant | scripts/auto/diversify-headings.js:289-337 | Variant A returns the page unchanged; a variant without an order only relabels |
| Headings.TablePlain | scripts/auto/diversify-headings.js:24-118 | In the B and D tables the k-th entry is the k-th standard heading; no label holds `<`, `?` or a newline or starts with `What is `; the standard labels are distinct and no new label is a later entry's standard label |
| Headings.LabelPassKeeps | scripts/auto/diversify-headings.js:302-308 | A label pass for another label leaves a heading carrying this label in the page |
| Headings.LabelPassRenames | scripts/auto/diversify-headings.js:302-308 | A label pass turns a heading carrying its label into the same tag carrying the new label |
| Headings.RelabelHeadingsKeeps | scripts/auto/diversify-headings.js:302-308 | A heading whose label no entry of the table names survives all label passes |
| Headings.RelabelHeadingsRenames | scripts/auto/diversify-headings.js:302-308 | A heading carrying the k-th standard label ends up carrying the k-th new label, when no earlier entry names the standard label and no later entry names the new one |
| Headings.IntroPassKeeps | scripts/auto/diversify-headings.js:311-329 | The intro pass leaves a plain guide heading in the page |
| Headings.HeadingOnLine | scripts/auto/diversify-headings.js:358-361 | A line holding a heading tag followed by the label and `</h3>` passes the per-label heading test |
| Headings.RelabelledHeadingFound | scripts/auto/diversify-headings.js:289-371 | For B and D, a page heading carrying the k-th standard label is, after relabelling and the intro pass, on a line the search finds under the k-th new label |
| Headings.RelabelledGuideLocated | scripts/auto/diversify-headings.js:289-373 | For B and D, a page with all five standard guide headings has all five sections located after relabelling, so the reorder is not skipped |
| Text.EscapeRegex | scripts/auto/diversify-headings.js:339-341 | The escaped string is one character longer per special character of the input, and every special character in it other than a backslash comes right after a backslash |
| Text.EscapeRegexConcat | scripts/auto/diversify-headings.js:339-341 | Escaping works character by character: the escape of a concatenation is the concatenation of the escapes |
| Text.UnescapeEscape | scripts/auto/diversify-headings.js:339-341 | The escaped pattern denotes exactly the literal it came from |
| Text.EscapeRegexPlain | scripts/auto/diversify-headings.js:339-341 | A label without special characters is its own pattern |
| Headings.FirstLineWith | scripts/auto/diversify-headings.js:360-370 | The first line carrying the heading; none before it does; none is found only when no line does |
| Headings.LocateStarts | scripts/auto/diversify-headings.js:356-371 | At most one start line per label, each a valid line index |
| Headings.LocateStartsComplete | scripts/auto/diversify-headings.js:356-373 | All five labels are located exactly when each label has a line that carries it |
| Headings.FindStarts | scripts/auto/diversify-headings.js:356-371 | The heading-search loop returns exactly the located start lines |
| Headings.ReorderFailsClosed | scripts/auto/diversify-headings.js:373 | A label with no heading line means the page comes back unchanged |
| Headings.SortAsc | scripts/auto/diversify-headings.js:376 | The sort keeps the start lines as a multiset |
| Headings.SortAscSorted | scripts/auto/diversify-headings.js:376 | The sort puts the start lines in ascending order |
| Headings.SortedUnique | scripts/auto/diversify-headings.js:376 | Two sorted arrangements of the same multiset are equal, so any correct sort gives the same bounds |
| Headings.SectionEnds | scripts/auto/diversify-headings.js:379-426 | Each section ends where the next starts; the last ends at `lastEnd` |
| Headings.LinkEnds | scripts/auto/diversify-headings.js:379-426 | The end-line loop sets exactly those ends |
| Headings.FirstDrop | scripts/auto/diversify-headings.js:389-403 | The first line after the heading where the running div balance goes negative; the balance is non-negative before it, and everywhere when none is found |
| Headings.FallbackCloseFirst | scripts/auto/diversify-headings.js:405-424 | The fallback picks the first closing line within 80 lines; it finds none only when the window has no closing line |
| Headings.IsClosingLine | scripts/auto/diversify-headings.js:407-417 | The closing-line test: a lone `</div>`, an end-of-guide next line, and a cumulative depth not above zero |
| Headings.DepthThrough | scripts/auto/diversify-headings.js:412-416 | The depth loop computes the div balance from the heading line through line `i` |
| Headings.FindFallbackClose | scripts/auto/diversify-headings.js:405-424 | The fallback loop returns the specified fallback line |
| Headings.LastSectionEnd | scripts/auto/diversify-headings.js:384-424 | The last section ends strictly after its heading line and within the page |
| Headings.FallbackBalanced | scripts/auto/diversify-headings.js:405-424 | When the fallback decides, the div balance up to the chosen end is exactly zero |
| Headings.FindLastEnd | scripts/auto/diversify-headings.js:383-424 | The balance scan followed by the fallback computes `LastSectionEnd` |
| Headings.SpansTile | scripts/auto/diversify-headings.js:379-431 | The five spans, in textual order, are exactly the lines from the first heading to `lastEnd` |
| Headings.PermutedSpansSameLines | scripts/auto/diversify-headings.js:429-434 | The spans in the variant's order hold the same lines, with multiplicity, as the guide block |
| Headings.ReassemblePermutes | scripts/auto/diversify-headings.js:428-440 | With distinct sorted starts, the output's lines are the prefix lines, the permuted spans and the suffix lines |
| Headings.ReorderPermutesSpans | scripts/auto/diversify-headings.js:347-441 | With five distinct heading lines, the reordered page's lines are the untouched prefix, the spans in the variant's order and the untouched suffix, and the spans are a permutation of the guide block's lines |
| Headings.ReorderSections | scripts/auto/diversify-headings.js:347-441 | The imperative `reorderSections` computes the specified reorder |
| Headings.GuideStartFirst | scripts/auto/diversify-headings.js:149-162 | The guide starts at the first line carrying a standard heading; none exists only when no line carries one |
| Headings.ParseNone | scripts/auto/diversify-headings.js:164 | `parseSections` returns null exactly when no line carries a standard heading |
| Headings.IntroWindow | scripts/auto/diversify-headings.js:166-181 | The intro is the nearest exact-base-class, non-standard heading line at most 15 lines above the guide; it runs up to the guide start; none is reported only when the window has none |
| Headings.FindIntro | scripts/auto/diversify-headings.js:166-181 | The backward intro loop finds that intro section |
| Headings.CopyLines | scripts/auto/diversify-headings.js:175-177 | The copy loop copies exactly the lines from the intro to the guide start |
| Headings.MatchStandard | scripts/auto/diversify-headings.js:192-197 | The inner label loop finds the first standard label the line carries |
| Headings.StandardFromFirst | scripts/auto/diversify-headings.js:192-197 | The label found is the first one carried; none is found only when the line carries none |
| Headings.HeadingLinesComplete | scripts/auto/diversify-headings.js:188-213 | No standard heading line after the guide start is skipped |
| Headings.HeadingLinesAscending | scripts/auto/diversify-headings.js:188-213 | The heading lines are standard heading lines in range, strictly increasing |
| Headings.CollectSections | scripts/auto/diversify-headings.js:183-213 | The section loop closes each section at the next heading line and leaves the last heading current |
| Headings.ClosedTile | scripts/auto/diversify-headings.js:201-208 | The closed sections, read in order, are exactly the lines from the first to the last heading |
| Headings.ParseLastEnd | scripts/auto/diversify-headings.js:243-267 | The last section's end lies after its heading and within the page |
| Headings.FindParseLastEnd | scripts/auto/diversify-headings.js:243-267 | The end scan of `parseSections` computes `ParseLastEnd` |
| Headings.Parse | scripts/auto/diversify-headings.js:139-282 | The result is null exactly when no guide start exists; otherwise it carries all lines and at least one section |
| Headings.ParseSectionsShape | scripts/auto/diversify-headings.js:183-275 | Each standard heading line from the guide start begins a section running to the next one, the last running to `ParseLastEnd`; together the sections tile the guide's lines |
| Headings.ParseSections | scripts/auto/diversify-headings.js:139-282 | The imperative `parseSections` computes `Parse` |
| Structure.GuideFirst | scripts/auto/diversify-structure.js:182-196 | The guide section is the first section tag whose 2000-character window holds `prose` and `<h3`; no tag qualifies when none is found |
| Structure.NextTagFirst | scripts/auto/diversify-structure.js:184-187 | `exec` finds the next tag; none starts before it; none is found only when none is left |
| Structure.TagsDisjoint | scripts/auto/diversify-structure.js:184-187 | No section tag starts strictly inside another, so resuming after a match skips nothing |
| Structure.ExecStep | scripts/auto/diversify-structure.js:187-193 | One loop turn either ends with the specified answer or resumes past a non-qualifying tag with the same answer ahead |
| Structure.ScanForGuide | scripts/auto/diversify-structure.js:182-196 | The `exec` loop returns the first qualifying tag's offset, or -1 |
| Structure.FindGuideSection | scripts/auto/diversify-structure.js:182-196 | `findGuideSection` returns the specified guide offset, or -1 when there is none |
| Structure.ApplyStructure | scripts/auto/diversify-structure.js:200-287 | Variant A, and a page without a guide section, come back unchanged; otherwise the text before the guide is byte-identical and the rest goes through the pipeline |
| Structure.SectionStepLiteral | scripts/auto/diversify-structure.js:214-221 | The section step is a first-occurrence literal rewrite; the `([^"]*)` run is copied back by `$1` |
| Structure.TagRewrittenTo | scripts/auto/diversify-structure.js:214-221 | On the guide's own tag, the base class string becomes `to` and extra classes and the rest are kept |
| Structure.GuideTagRewritten | scripts/auto/diversify-structure.js:214-221 | Each variant rewrites the guide's own tag to its section class |
| Structure.SectionToLacksBase | scripts/auto/diversify-structure.js:38-119 | No variant's new section class contains the base class string |
| Structure.RewrittenTagNotSelected | scripts/auto/diversify-structure.js:185-221 | After the section step the guide's tag no longer matches the tag pattern, so a later run cannot select it |
| Structure.StandardClassOutcome | scripts/auto/diversify-structure.js:224-236 | The standard h3 class is untouched by the alternate step and rewritten whole by the standard step |
| Structure.AltClassOutcomeD | scripts/auto/diversify-structure.js:122-127 | In D the alternate class ends up with the border suffix twice |
| Structure.HeadingClassOutcome | scripts/auto/diversify-structure.js:224-236 | In B and C both h3 classes become the variant's class; in D the standard class gets the suffix once and the alternate class twice |
| Structure.HeadingNeedsTail | scripts/auto/diversify-headings.js:302-304 | A quote-free class at least as long as the pattern's class prefix is matched only if it ends in `3` (the `…mt-6 mb-3">` tail) |
| Structure.HeadingDeparts | scripts/auto/diversify-headings.js:302-304 | A tag that departs from the pattern's prefix anywhere is not matched |
| Structure.RestyledClassIgnored | scripts/auto/diversify-structure.js:43-128 | No heading tag and no label is found on a heading carrying any class the restyling produces |
| Structure.RestyledHeadingIgnored | scripts/auto/diversify-structure.js:224-236 | After any of B, C and D restyles either standard h3 class, the headings pass no longer recognises the heading or any label on it |
| Structure.ListClassOutcome | scripts/auto/diversify-structure.js:93-94 | C has no list rules and keeps list classes; B and D rewrite them |
| Structure.FirstWrapperOnly | scripts/auto/diversify-structure.js:254-260 | Only the first Q&A wrapper is restyled; everything after it, further wrappers included, is kept |
| Structure.QuestionsAllRewritten | scripts/auto/diversify-structure.js:262-274 | After the global question steps neither original question tag is left anywhere |
| Structure.QuestionStepsOnEntry | scripts/auto/diversify-structure.js:262-274 | On a Q&A entry only the question tag changes |
| Structure.AnswerNeedsQuestion | scripts/auto/diversify-structure.js:276-284 | An answer rule fires only where a question heading starts |
| Structure.AnswerHitAt | scripts/auto/diversify-structure.js:276-284 | After the question part, the rule fires exactly when its paragraph tag follows, and replaces only that tag |
| Structure.AnswerOnEntry | scripts/auto/diversify-structure.js:71-78 | On an entry carrying the new question tag, the answer paragraph tag is replaced after the heading text, `</h4>` and whitespace, and everything before it is kept |
| Structure.OldQuestionIgnored | scripts/auto/diversify-structure.js:276-284 | No answer rule fires right after an original question tag |
| Structure.NoQuestionNoAnswer | scripts/auto/diversify-structure.js:276-284 | Without the variant's new question tag, both answer steps leave the text unchanged |
| Components.WalkIsLookup | scripts/auto/inject-components.js:24-26 | The reduce returns the value at the key path, and `null` as soon as a segment is missing |
| Components.WalkNull | scripts/auto/inject-components.js:25 | Once a step yields `null`, every later step keeps it |
| Components.GetNestedPath | scripts/auto/inject-components.js:24-26 | A dotted key made of dot-free segments is looked up segment by segment |
| Components.GetNestedNull | scripts/auto/inject-components.js:24-26 | Without a locale object nothing is found |
| Components.TaggedAtParses | scripts/auto/inject-components.js:32 | A match of `data-i18n="key"attrs>text<` is exactly the element rendered from its groups |
| Components.TaggedAtRender | scripts/auto/inject-components.js:32 | A rendered element parses back into its own groups |
| Components.TranslateHitShape | scripts/auto/inject-components.js:32-38 | Each match keeps key and attributes; only the text changes, to the string translation when there is one and to itself otherwise |
| Components.TranslatesElement | scripts/auto/inject-components.js:32-38 | An element with a translation gets the translated text, and the rest of the page follows |
| Components.UntranslatedUnchanged | scripts/auto/inject-components.js:32-38 | With no usable translation for any key, the text is unchanged |
| Components.NoLocaleUnchanged | scripts/auto/inject-components.js:29-39 | A missing locale changes nothing |
| Components.ConvertedLacksLinks | scripts/auto/inject-components.js:63-71 | After the rewrite no `/tools/`, `/pages/` or root link without the `/en` prefix is left; this holds for this copy (root to `href="/en"`) and for the copy in scripts/auto/fix-duplicate-headers.js:37-42 (root to `href="/en/"`) |
| Components.ConvertLinksIdempotent | scripts/auto/inject-components.js:63-71 | Converting twice equals converting once, for both copies of the rewrite |
| Splice.SearchFirst | scripts/auto/inject-components.js:107-112 | `match` finds the leftmost match; none is found only when the pattern matches nowhere |
| Splice.SearchFindsAny | scripts/auto/inject-components.js:105 | `test` succeeds exactly when `match` finds something |
| Splice.SearchUnique | scripts/auto/inject-components.js:107-112 | A match with no match before it is the one `match` finds |
| Splice.RegionOf | scripts/auto/inject-components.js:105-115 | A region runs from the first start marker to past the first closing match after it, within the page |
| Splice.StageFrame | scripts/auto/inject-components.js:105-123 | Without a region the stage leaves the page as is; otherwise it keeps the text before and after the region and writes the block between them |
| Splice.ChangesIff | scripts/auto/inject-components.js:114-121 | A stage reports a change exactly when the text changes |
| Splice.RegionAhead | scripts/auto/inject-components.js:103-128 | A region is followed by the lookahead text of its closing match |
| Splice.SpliceStage | scripts/auto/inject-components.js:100-146 | The imperative stage computes the specified text and change flag |
| Splice.StageSettles | scripts/auto/inject-components.js:114-121 | A second run of a stage with the same component finds its own block and reports no change |
| Splice.InjectComponents | scripts/auto/inject-components.js:74-154 | The header stage, then the footer stage on its output; the flag is true exactly when either stage changed the text |
| Splice.BlockRegion | scripts/auto/inject-components.js:116-119 | In spliced text whose first marker is the written tag, the region is exactly the written block |
| Repair.FixHeader | scripts/auto/fix-duplicate-headers.js:65-107 | One `id="theme-toggle"` or none: nothing is written |
| Repair.FixGates | scripts/auto/fix-duplicate-headers.js:69-98 | The page is rewritten exactly when the toggle occurs twice or more and both the header marker and the main content are found |
| Repair.FixOutput | scripts/auto/fix-duplicate-headers.js:99-106 | The output is the text before the first header marker, the clean header, and the text from the first main-content match on; it is written even when it equals the input |
| Repair.MainFirstKeepsOldHeader | scripts/auto/fix-duplicate-headers.js:93-103 | Main content at or before the header marker keeps the old header after the clean one |
| I18n.LanguageOf | assets/js/i18n.js:7-10 | English exactly when the path starts with `/en/` or is `/en` |
| I18n.LocalesPath | assets/js/i18n.js:18-25 | The path always ends in `locales` |
| I18n.LocalesPathClimbs | assets/js/i18n.js:18-25 | A page `n` segments deep climbs exactly `n` levels |
| I18n.LocalesPathAtRoot | assets/js/i18n.js:22-23 | The root and the empty path use `./locales` |
| I18n.SegmentsOfPath | assets/js/i18n.js:22 | The non-empty segments of `/s1/…/sn`, with or without a trailing slash, are `s1 … sn` |
| I18n.StripEn | assets/js/i18n.js:132 | One leading `/en` is removed, and nothing else |
| I18n.SwitchPath | assets/js/i18n.js:115-139 | Nothing happens exactly when the target is the current language; switching a path that starts with `/` to English gives a path recognised as English |
| I18n.KoreanRoundTrip | assets/js/i18n.js:120-134 | A Korean path starting with `/` goes to English and back to itself |
| I18n.EnglishRoundTrip | assets/js/i18n.js:120-134 | An English path goes to Korean and back to itself (`/en` returns as `/en/`) unless the Korean path is itself English |
| I18n.DoubledPrefixStaysEnglish | assets/js/i18n.js:132 | `/en/en/x` switches to `/en/x`, which is still English |
| I18n.ReduceIsLookup | assets/js/i18n.js:100-102 | The `acc && acc[part]` reduce finds a truthy value exactly when every segment is present and the value is truthy |
| I18n.ReduceFalsy | assets/js/i18n.js:101 | A falsy accumulator stays as it is |
| I18n.Translate | assets/js/i18n.js:142-144 | `t(key)` is the looked-up value when truthy, otherwise the key |
| I18n.TranslateFindsPath | assets/js/i18n.js:100-102 | `t` of a dotted key gives the value at that path when present and truthy, else the key; where both find a truthy value it agrees with the build scripts' lookup |
| SeoCheck.PushIf | scripts/check-seo.js:23-55 | A conditional push lists the issue exactly when it is lacking, changes nothing else, and keeps report order |
| SeoCheck.Classified | scripts/check-seo.js:19-57 | The list holds exactly the issues whose marker the page lacks, with hreflang only outside `pages` |
| SeoCheck.CheckSeo | scripts/check-seo.js:19-57 | `checkSEO` lists exactly the lacking issues, in the fixed report order |
| SeoCheck.ReportOrderDistinct | scripts/check-seo.js:19-57 | No issue is listed twice |
| SeoCheck.ForwardSlashes | scripts/check-seo.js:76 | Every backslash becomes a slash and every other character is kept |
| SeoCheck.FileUnder | scripts/check-seo.js:79-81 | The entry is appended once under each listed issue and nowhere else; every key stays present |
| SeoCheck.Report | scripts/check-seo.js:64-82 | Every issue has a list, holding the entries of the pages that show it, in page order |
| SeoCheck.FiledWhenShown | scripts/check-seo.js:74-82 | Every page showing an issue is filed under it |
| SeoCheck.FiledOnlyWhenShown | scripts/check-seo.js:74-82 | Every entry filed under an issue comes from a page that shows it |
| JsonLd.PageKind | scripts/add-json-ld.js:146-170 | A kind is found only for paths ending in `/index.html` or `\index.html` |
| JsonLd.MatchKey | scripts/add-json-ld.js:149-162 | A matching pattern fixes the character twelve from the end and the `index.html` ending |
| JsonLd.RouteOfMatch | scripts/add-json-ld.js:147-170 | At most one pattern matches, so whichever matches decides the kind regardless of order |
| JsonLd.NoRouteNoKind | scripts/add-json-ld.js:168-170 | A path no pattern matches is not handled |
| JsonLd.WebSiteSchema | scripts/add-json-ld.js:73-91 | The WebSite record carries the configured name, description and URL; its search target is the URL followed by `?q={search_term_string}` |
| JsonLd.CollectionPageSchema | scripts/add-json-ld.js:93-111 | The CollectionPage record carries the configured name, description and URL |
| JsonLd.SchemaForKind | scripts/add-json-ld.js:138-175 | The homepage gets WebSite and every other kind CollectionPage, with the URL and name configured for the kind and the language (`/en/` in the path) |
| JsonLd.ScriptHasMarker | scripts/add-json-ld.js:113-117 | The script carries `application/ld+json` |
| JsonLd.InsertAtFirstHead | scripts/add-json-ld.js:179 | The script and a newline go just before the first `</head>`; everything else is kept |
| JsonLd.NoHeadUnchanged | scripts/add-json-ld.js:179 | A page without `</head>` comes back unchanged |
| JsonLd.InsertedHasMarker | scripts/add-json-ld.js:134-179 | With a `</head>`, the new page carries the JSON-LD marker |
| JsonLd.RerunAddsNothing | scripts/add-json-ld.js:194-229 | A page that got its script is skipped on a second run; a page without `</head>` is rewritten unchanged again |
| JsonLd.AddedPassesSeoCheck | scripts/add-json-ld.js:179 | Once the script is in, the SEO check (scripts/check-seo.js:23) no longer reports JSON-LD for the page |
| Text.IndexOfFirst | scripts/add-json-ld.js:179 | `indexOf` finds the first occurrence; none means there is none |
| Text.ReplaceFirstAt | scripts/add-json-ld.js:179 | A string-pattern `replace` rewrites the first occurrence only and copies everything else |
| Text.ReplaceAllLeavesNo | scripts/auto/inject-components.js:68-70 | A global literal replacement creates no new occurrence of a pattern the replacements cannot form |
| Text.ReplaceMatchesKeepsText | scripts/auto/inject-components.js:37 | A matcher that re-emits every match as is changes nothing |
| Text.JoinSplit | scripts/auto/diversify-headings.js:348 | Splitting and joining on the same character gives the text back |
| Text.SplitJoin | scripts/auto/diversify-headings.js:437-440 | Lines without a separator, joined and split again, are the same lines |
| Text.SplitContains | scripts/auto/diversify-headings.js:348 | Text without the separator that occurs in the string occurs within one of its lines |
| Text.ReplaceMatchesKeeps | scripts/auto/diversify-headings.js:302-308 | A global replace keeps an occurrence that every earlier match either ends before or carries into its output |
| Text.SpaceRunAll | scripts/auto/inject-components.js:103 | `\s*` consumes a whitespace run and stops at the first non-whitespace character |

## Left out

- File enumeration, reading and writing files, `console` output, `--dry-run` and the counters of every `main`. The engines are text-to-text functions; the paths the scripts derive are parameters.
- The general regular-expression engine. Each pattern the scripts use is a hand-written matcher for its exact shape.
- Text.ReplaceFirst and Text.ReplaceAll: the replacement is copied as it is. `String.prototype.replace` expands `$&`, `` $` ``, `$'` and `$$` in a string replacement; the literal replacements the scripts pass contain no `$`, so only the JSON-LD insertion is affected.
- JsonLd.InsertBeforeHead: the rendered script is inserted as it is, and `InsertAtFirstHead` and `InsertedHasMarker` are stated for any rendering. In JavaScript a `$&`, `` $` ``, `$'` or `$$` inside the rendered JSON would be expanded by `replace`, so the model matches the script only for a rendering without those patterns.
- Lengths and offsets count Unicode scalar values, while JavaScript's `length` and `substring` count UTF-16 code units. On a page with a character outside the Basic Multilingual Plane (an emoji, say) before the guide section, the 2000-unit window of `findGuideSection` (Structure.Window, Structure.ScanForGuide, Structure.FindGuideSection) ends at a different place in JavaScript than in the model. The line-based scans of the headings pass are not affected.
- `JSON.stringify`. Schema records are datatypes, and the rendering is a function parameter.
- The browser parts of `assets/js/i18n.js`: `fetch`/`loadTranslations`, DOM translation, `updateLangButtons`, event dispatch and `getLanguage`. The `window.location.href` assignment is modelled by returning the new path, and `currentLang` by the language of the current path.
- JavaScript values are limited to null, booleans, integers, strings and objects. Arrays, floats, property access on primitives and prototype keys are not modelled.
- The library sort in `reorderSections` is modelled by `SortAsc` on the start lines, because the result depends only on them. `SortedUnique` shows any correct sort gives the same bounds.
- The `endLine` loop of `parseSections` (scripts/auto/diversify-headings.js:218-241) is not modelled, because its result is never used.
- `main` of scripts/auto/diversify-headings.js is modelled only through the variant choice.
- `main` of scripts/auto/diversify-structure.js and the tool-file listings are not modelled; they are file handling only.
- Headings.ApplyVariant: for B and D its own contract does not state the reorder. `Reorder` is specified by `ReorderPermutesSpans` and `ReorderSections` instead. `RelabelledHeadingFound` and `RelabelledGuideLocated` connect the two steps. They show that the relabelled headings are the ones the reorder searches for. They cover headings whose tag has no `<`, `?` or newline after its opening `<`.
- Splice.StageSettles: holds only when the component lacks the closing pattern's lookahead text (`Quiet`). It is stated stage by stage, not for the two stages together.
- JsonLd.RerunAddsNothing: `Process` takes the result of `isIndexPage` and the selected record as inputs. It does not re-derive them from the path.
- Structure.RestyledHeadingIgnored: stated for a heading tag written exactly as `<h3 class="CLASS">`, not for every page the structure pass outputs.
- scripts/inject-components.js, scripts/auto/force-update-headers.js, scripts/fix-seo-all.js, scripts/add-seo-tags.js, scripts/update-favicon.js and scripts/convert-to-flat-structure.js are not part of this model. They are single regex replacements or file operations around the modelled engines.
