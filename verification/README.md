# Ably diagnostic engine in Dafny

This project models the server side of the Ably accessibility checker for HTML.
On every validation run the language server does four things:

- It runs a battery of pattern checks over the document text. There is one pattern per WCAG success criterion: 1.3.1, 1.3.4, 1.3.5, 1.4.4, 2.1.1, 2.5.3 and 4.1.3.
- It maps the errors of the html-validate ("WHATWG") validator and the messages of the Nu HTML Checker ("W3C") onto WCAG rules through two static dictionaries.
- It sends the resulting diagnostics to the editor.
- It appends a weighted attribute count, the score, to the list it sends the client.

The helper modules hold the same pattern checks, the dictionary adapters and a colour-contrast analyser. They are modelled too.

Every diagnostic counts against one limit, `maxNumberOfProblems`. In JavaScript `problems` is passed by value. So each checker module's loop starts from the count its caller held. Only the server's inline battery shares a single count across its loops. The model keeps both behaviours apart:

- `Scan.Emit` is one loop on its own count.
- `Scan.Family` is a group of loops that all start from the same count.
- `SharedCount.Shared` is a run of loops on one count.

The modules follow the program's layout:

- `Lsp`: diagnostics, positions and `positionAt`.
- `Scan`: left-most global matching and the generic "loop until the limit" routine.
- `Wcag131` … `Wcag413` and `Wcag`: the pattern checks and their battery.
- `RuleTable`, `WhatwgDict`, `W3cDict` and `ServerDicts`: the dictionaries.
- `WhatwgValidator`, `W3cValidator` and `ContrastValidator`: the adapters.
- `ColorContrast`, `ContrastFindings` and `Numerals`: the contrast analyser.
- `CountAttributes`: the score.
- `ServerBattery`, `ServerValidators` and `Server`: `validateTextDocument` in the server.

The outside world enters only as parameters:

- the text of the document;
- the two validators' answers, as sequences of messages;
- the caption service, as a function that may fail;
- the computed colours and font size of each DOM element;
- the luminance transfer curve, as an oracle constrained by `GammaOk`.

## Model

| member | source | states |
|---|---|---|
| Lsp.PositionAt | server/out/regex/wcag144.js:15-18 | An offset becomes a line and column. Offsets outside the text are clamped to it. The line is the number of line breaks before the offset, and the column is the distance from the last line break. |
| Lsp.SameLine | server/out/regex/wcag144.js:15-18 | Between two offsets with no line break, the line stays the same and the column grows by exactly the distance. |
| Lsp.PositionAtMonotone | server/out/regex/wcag144.js:15-18 | A later offset never yields an earlier position, so a match's range never ends before it starts. |
| Lsp.RelatedAt | server/out/validators/whatwg.js:38-48 | Related information is attached exactly when the client has that capability. It is then one entry at the diagnostic's own range, carrying the suggestion. |
| Scan.Exec | server/out/regex/wcag144.js:11 | A global pattern's matches are what repeated `exec` calls find. They lie in the text, each one is a genuine match, and they do not overlap. |
| Scan.ExecIsLeftmost | server/out/regex/wcag144.js:11 | `Exec` finds the leftmost match after each previous one and skips no position where the pattern matches. |
| Scan.LeftmostIsExec | server/out/regex/wcag144.js:11 | Conversely, any list of leftmost non-overlapping matches is exactly `Exec`'s, so it is the only one. |
| Scan.MatchCovered | server/out/regex/wcag144.js:11 | Every position where the pattern matches is the start of a reported match or lies inside one. |
| Scan.ExecLeavesNoMatch | server/out/regex/wcag144.js:11 | A position that no reported match covers is not a match position. |
| Scan.AnchoredAtMostOnce | server/out/regex/wcag131.js:11 | A pattern that can match only at offset 0 (`^` without the multiline flag) is reported at most once, and only there. |
| Scan.EndAnchoredFrom | server/out/regex/wcag135.js:9 | A pattern whose matches all end at the end of the text (`$`) is reported at most once. |
| Scan.FirstLength | server/out/regex/wcag144.js:7 | The lazy `.*?\d+(px\|pt)` finds the first pixel or point length on the current line. When it finds none, the line holds none. |
| Scan.LengthEnd | server/out/regex/wcag144.js:7 | A match of `.*?\d+px` ends right after the unit of the first length on the line, and it does not cross the line break. |
| Scan.Diagnose | server/out/regex/wcag144.js:12-34 | A warning with the rule's message and citation, at the match's range, with one related entry per suggestion when the client supports them. |
| Scan.Budget | server/out/regex/wcag144.js:11 | How many more entries a loop may push before `problems` reaches the limit. It is zero once the limit is reached. |
| Scan.Emit | server/out/regex/wcag144.js:11-35 | One check's loop pushes one diagnostic per match, in match order, and stops at the limit. Its count starts from its caller's. |
| Scan.RunRule | server/out/regex/wcag144.js:10-36 | The imperative loop appends exactly `Emit`'s diagnostics and counts each one. |
| Scan.RunFamily | server/out/regex/wcag131.js:24-33 | The sub-checks of one criterion run in order. Each starts from the same count, because JavaScript passes `problems` by value. |
| Scan.FamilyBound | server/out/regex/wcag131.js:24-33 | A family of n loops pushes at most n times the remaining budget. |
| Scan.FamilyExhausted | server/out/regex/wcag131.js:37-40 | At or past the limit, no loop pushes anything. |
| Scan.FamilyPair | server/out/regex/wcag135.js:11-14 | A family of two loops yields the first loop's diagnostics followed by the second's, both from the caller's count. |
| Scan.FamilyQuad | server/out/regex/wcag253.js:16-21 | A family of four loops yields the four loops' diagnostics in order, each from the caller's count. |
| Scan.FamilySource | server/out/regex/wcag253.js:16-21 | When every sub-rule cites one criterion, every diagnostic of the family carries that citation. |
| Scan.TrimmedRangeOrdered | server/out/regex/wcag253.js:29-32 | A range trimmed by one character at each end still starts no later than it ends. |
| Wcag131.MatchNav | server/out/regex/wcag131.js:7 | A match starts at `<nav` and runs, greedily, to the last `</nav>` that comes before the first list tag after the opening tag's `>`. So `<nav>a</nav><nav>b</nav>` is one 24-character match. Inside the match no list tag follows the opening tag. |
| Wcag131.NavWithListNotReported | server/out/regex/wcag131.js:7 | A nav element with a list tag before its closing tag is not reported. |
| Wcag131.NavWithoutListReported | server/out/regex/wcag131.js:7 | A nav element whose body up to a `</nav>` has no list tag is reported at least up to that `</nav>`. |
| Wcag131.Landmark | server/out/regex/wcag131.js:11-19 | The non-multiline `^…` patterns look only at the first line. They match there when the landmark tag is present without its role, up to the line's last `>`. |
| Wcag131.LaterLinesIgnored | server/out/regex/wcag131.js:11-19 | A landmark tag that appears only after the first line is never reported. |
| Wcag131.RoledLandmarkNotReported | server/out/regex/wcag131.js:11-19 | A landmark carrying its role before the first line's last `>` is not reported. |
| Wcag131.LandmarkAtMostOnce | server/out/regex/wcag131.js:98-251 | Each landmark check reports at most one diagnostic per document, at offset 0. |
| Wcag131.MatchSpanFont | server/out/regex/wcag131.js:21 | `span {` followed later by `font-` matches up to the first `}` after that property. |
| Wcag131.FontlessSpanNotReported | server/out/regex/wcag131.js:21 | A span rule with no `font-` after it is not reported. |
| Wcag131.SpanFontEnd | server/out/regex/wcag131.js:21 | The match ends at the first `}` after the first `font-`. |
| Wcag131.TrimmedRangesOrdered | server/out/regex/wcag131.js:98-281 | The trimmed ranges of the landmark and span checks are well ordered. |
| Wcag131.Check | server/out/regex/wcag131.js:24-281 | The eight sub-checks push at most eight budgets of diagnostics, all cited "WCAG 2.1 \| 1.3.1". |
| Wcag134.Attempt | server/out/regex/wcag134.js:10 | One alternative of the property list matches exactly when the property name, a colon and a pixel length appear later on the same line. |
| Wcag134.MatchIff | server/out/regex/wcag134.js:10 | The pattern matches at a position if and only if one of the listed properties is declared there with a pixel length on its line. |
| Wcag134.MatchOnOneLine | server/out/regex/wcag134.js:10 | A match never crosses a line break, so its diagnostic starts and ends on one line. |
| Wcag134.PixelDeclarationReported | server/out/regex/wcag134.js:13-39 | Every pixel declaration of a listed property is reported or lies inside a reported match. |
| Wcag134.UndeclaredNotMatched | server/out/regex/wcag134.js:10 | Where no listed property is declared, nothing matches. |
| Wcag134.FontSizeNotMatched | server/out/regex/wcag134.js:10 | `font-size:` is not among the alternatives, so it never starts a match. |
| Wcag134.MaxWidthNotMatched | server/out/regex/wcag134.js:10 | The `(?<!max-)` look-behind keeps `max-width:` from matching, both at its start and at its inner `width`. |
| Wcag134.Check | server/out/regex/wcag134.js:13-39 | Exactly min(matches, budget) diagnostics. The k-th is the 1.3.4 rule's diagnostic for the k-th match, at that match's raw range, cited "WCAG 2.1 \| 1.3.4". |
| Wcag135.MatchA | server/out/regex/wcag135.js:7 | An `<input` with no quoted `name=` later on its line matches up to its first `>`. |
| Wcag135.NamedInputNotReported | server/out/regex/wcag135.js:7 | An input with `name="…"` or `name='…'` on the same line is not reported, even after the tag closes. |
| Wcag135.UnnamedInputMatched | server/out/regex/wcag135.js:7 | An unnamed input is reported up to and including its first `>`. |
| Wcag135.MatchB | server/out/regex/wcag135.js:9 | A field element with no `type=` word in its tag matches only when it is closed at the very end of the text. |
| Wcag135.TypedFieldNotReported | server/out/regex/wcag135.js:9 | A field with a `type=` attribute is never reported. |
| Wcag135.ClosingFieldAtMostOnce | server/out/regex/wcag135.js:9 | Because of `$`, the second sub-check reports at most once, at the end of the text. |
| Wcag135.Check | server/out/regex/wcag135.js:12-75 | The output is the missing-`name` loop's diagnostics followed by the missing-`type` loop's. Each loop starts from the caller's count. Together they push at most two budgets. |
| Wcag144.Match | server/out/regex/wcag144.js:7 | `font-size:` matches exactly when a pixel or point length follows on its line. The match ends after that unit. |
| Wcag144.FixedFontSizeReported | server/out/regex/wcag144.js:10-36 | Every such declaration is reported or lies inside a reported match. |
| Wcag144.RelativeFontSizeNotMatched | server/out/regex/wcag144.js:7 | A declaration with no pixel or point length on its line is not matched. |
| Wcag144.DisjointFrom134 | server/out/regex/wcag134.js:10 | The 1.3.4 pattern never starts where the 1.4.4 pattern does, so the two criteria do not report the same declaration from the same position. |
| Wcag144.MatchOnOneLine | server/out/regex/wcag144.js:7 | A match stays on one line. |
| Wcag144.Check | server/out/regex/wcag144.js:10-36 | Exactly min(matches, budget) diagnostics. The k-th is the 1.4.4 rule's diagnostic for the k-th match, at that match's raw range, cited "WCAG 2.1 \| 1.4.4". |
| Wcag211.ClassedDiv | server/out/regex/wcag211.js:7-9 | A `<div` matches up to its first `>` when the class literal occurs later on the same line. That may be past the tag. |
| Wcag211.ClassLaterOnLineSuffices | server/out/regex/wcag211.js:7-9 | A class literal after the tag has closed still makes the div match, because the look-ahead spans the line. |
| Wcag211.UnclassedDivNotReported | server/out/regex/wcag211.js:7-9 | A div with no class literal on its line is not reported. |
| Wcag211.Check | server/out/regex/wcag211.js:12-82 | The first sub-check pushes its matches up to the budget. The second throws a ReferenceError, through its undefined `node_1`, exactly when the form pattern matches within the budget. |
| Wcag211.FormDivThrows | server/out/regex/wcag211.js:54-61 | A document with a `class="form"` div, checked below the limit, always aborts the battery. |
| Wcag253.LabelFreeTag | server/out/regex/wcag253.js:7-13 | A button, input, textarea or select tag with no `aria-label` inside it matches up to its first `>`. |
| Wcag253.LabelledTagNotReported | server/out/regex/wcag253.js:7-13 | A tag with `aria-label` or `aria-labelledby` before its `>` is not reported. |
| Wcag253.UnlabelledTagReported | server/out/regex/wcag253.js:7-13 | An unlabelled tag is reported up to and including its `>`. |
| Wcag253.TrimmedRangesOrdered | server/out/regex/wcag253.js:24-143 | The diagnostic range, one character in from each end of the match, is well ordered. |
| Wcag253.Check | server/out/regex/wcag253.js:16-143 | The output is the button, input, textarea and select loops' diagnostics, in that order, each loop starting from the caller's count. All are cited "WCAG 2.1 \| 2.5.3". |
| Wcag413.Match | server/out/regex/wcag413.js:7 | A `<div` followed by white space, holding `role="status"` and no `aria-live` in the tag, matches only when its attributes form one unbroken run up to `>`. |
| Wcag413.MatchHasStatusRole | server/out/regex/wcag413.js:7 | Every match holds a `role=` status attribute at a word boundary. |
| Wcag413.LiveRegionNotReported | server/out/regex/wcag413.js:7 | A div with an `aria-live` attribute is not reported. |
| Wcag413.SpacedAttributesNotReported | server/out/regex/wcag413.js:7 | Because `[^\s>]*` cannot skip white space, a status div with a second attribute after a space is not reported. |
| Wcag413.Check | server/out/regex/wcag413.js:10-35 | Exactly min(matches, budget) diagnostics. The k-th is the 4.1.3 rule's diagnostic for the k-th match, at its raw range, cited "WCAG 2.1 \| 4.1.3". |
| Wcag.Ranks | server/out/regex/wcag.js:15-21 | The criteria run in the order 1.3.1, 1.3.4, 1.3.5, 1.4.4, 2.1.1, 2.5.3, 4.1.3. |
| Wcag.Battery | server/out/regex/wcag.js:13-22 | The battery aborts exactly when the 2.1.1 form pattern matches and the count is below the limit. It appends the diagnostics of 1.3.1, 1.3.4, 1.3.5, 1.4.4 and 2.1.1, each check from the caller's count, then, unless it aborted, those of 2.5.3 and 4.1.3, to the diagnostics already there. |
| Wcag.BatteryGrouped | server/out/regex/wcag.js:13-22 | Diagnostics come out grouped by criterion, in battery order. An aborted battery holds nothing after 2.1.1. |
| Wcag.BatteryBound | server/out/regex/wcag.js:13-22 | One battery pushes at most 18 budgets. That is one per loop on the same starting count; the 2.1.1 form loop throws before it pushes. |
| Wcag.BatteryExhausted | server/out/regex/wcag.js:13-22 | At or past the limit the battery pushes nothing and does not abort. |
| Wcag.CountNotShared | server/out/regex/wcag.js:13-22 | The limit is not global across the battery: with one slot left, two criteria can each still push one diagnostic. |
| RuleTable.FindById | server/out/validators/whatwg.js:19 | `find` by equal rule id gives the first row with that id, or none when no row has it. |
| RuleTable.FindInMessage | server/out/validators/w3c.js:13 | `find` by `includes` gives the first row whose key occurs in the message, or none when no key does. |
| RuleTable.FindByIdUnique | server/out/dicts/whatwg-wcag.js:8-131 | When ids are distinct, each row is found by its own id. |
| RuleTable.RuleByIdOrderFree | server/out/dicts/whatwg-wcag.js:8-131 | With distinct ids, the order of the rows does not change what a lookup returns. |
| RuleTable.ShadowedUnreachable | server/out/dicts/w3c-wcag.js:48-54 | A row whose key contains an earlier row's key is never selected, whatever the message. |
| RuleTable.DuplicateUnreachable | server/out/dicts/w3c-wcag.js:108-138 | A row repeating an earlier key is never selected. |
| RuleTable.CiteSplits | server/out/dicts/whatwg-wcag.js:8-131 | A citation `version \| c1, c2` splits back into its version and its criteria list. |
| RuleTable.CriteriaSplit | server/out/dicts/whatwg-wcag.js:8-131 | Joining criterion ids with ", " and splitting again gives the same ids. |
| RuleTable.WellCitedSplits | server/out/dicts/whatwg-wcag.js:8-131 | A well-formed citation holds one `" \| "` separator, and every part after it is a criterion id. |
| WhatwgDict.WhatwgIdsDistinct | server/out/dicts/whatwg-wcag.js:8-131 | No two WHATWG rows share a rule id. |
| WhatwgDict.WhatwgLookupUnique | server/out/dicts/whatwg-wcag.js:8-131 | Every WHATWG row is the one its id selects. |
| WhatwgDict.WhatwgCitationsWellFormed | server/out/dicts/whatwg-wcag.js:8-131 | Every WHATWG citation is a version, a separator and a list of criterion ids. |
| WhatwgDict.CitedRowsA | server/out/dicts/whatwg-wcag.js:18-46 | Rows area-alt to empty-title cite the listed criteria of WCAG 2.2. |
| WhatwgDict.CitedRowsB | server/out/dicts/whatwg-wcag.js:48-76 | Rows hidden-focusable to no-autoplay cite their criteria. meta-refresh cites the version as written, "WCAG2 2.2". |
| WhatwgDict.CitedRowsC | server/out/dicts/whatwg-wcag.js:78-106 | The h30 to h63 technique rows cite their criteria. |
| WhatwgDict.CitedRowsD | server/out/dicts/whatwg-wcag.js:108-131 | The h67, h71, long-title and heading-level rows cite their criteria. |
| WhatwgDict.H37SameAsH67 | server/out/dicts/whatwg-wcag.js:96-112 | The h37 and h67 rows carry the same messages. |
| WhatwgDict.MetaRefreshCitation | server/out/dicts/whatwg-wcag.js:61 | The meta-refresh row is cited "WCAG2 2.2 \| 2.2.1, 2.2.4, 3.2.5", character for character. |
| WhatwgDict.HeadingLevelCitation | server/out/dicts/whatwg-wcag.js:127 | The heading-level row is cited "WCAG 2.2 \| 2.4.10". |
| WhatwgDict.MetaRefreshVersion | server/out/dicts/whatwg-wcag.js:60-61 | The meta-refresh citation starts with "WCAG2 2.2 \| ", not "WCAG 2.2 \| ". |
| W3cDict.Versioned | server/out/dicts/w3c-wcag.js:8-149 | The W3C table has one rule per dictionary row. Each rule keeps the row's key and messages and cites the given version with the row's criteria. |
| W3cDict.IsMissingChildUnreachable | server/out/dicts/w3c-wcag.js:48-58 | The "is missing a required instance…" row is never selected, because the earlier shorter key occurs in every message that holds it. |
| W3cDict.RepeatedKeysUnreachable | server/out/dicts/w3c-wcag.js:108-142 | The rows repeating the area and label keys are never selected, including the 3.3.2 citation at line 138. |
| W3cDict.W3cCitationsPrefix | server/out/dicts/w3c-wcag.js:8-149 | Every W3C citation starts with "WCAG 2.2 \| ". |
| W3cDict.ImgAltCitation | server/out/dicts/w3c-wcag.js:19 | The image row is cited "WCAG 2.2 \| 1.1.1", character for character. |
| W3cDict.RowNotEnrichable | server/out/dicts/w3c-wcag.js:23-146 | No row after the image row holds the enrichment phrase in its suggestion. |
| W3cDict.ImgAltEnrichable | server/out/dicts/w3c-wcag.js:17-22 | The image row's suggestion holds the phrase that triggers enrichment, and no other row's suggestion does. So only the image row is ever enriched. |
| W3cDict.TypographicQuotesMatter | server/out/dicts/w3c-wcag.js:18 | The image key is written with typographic quotes, so a message using ASCII quotes does not select it. |
| WhatwgValidator.WhatwgDiagnostic | server/out/validators/whatwg.js:23-48 | The diagnostic spans `size` characters from column-1 on line-1, with the row's message, citation and suggestion. |
| WhatwgValidator.ProcessWhatwg | server/out/validators/whatwg.js:15-50 | One error appends exactly one diagnostic if and only if the count is below the limit, the id is in the table and no diagnostic with the same start and message exists. Otherwise nothing changes. |
| WhatwgValidator.ProcessWhatwgIdempotent | server/out/validators/whatwg.js:8-12 | Processing the same error twice adds nothing the second time. |
| WhatwgValidator.DuplicateDropped | server/out/validators/whatwg.js:8-21 | An error whose start and message are already reported is dropped. |
| W3cValidator.FirstImgTag | server/out/validators/w3c.js:20 | The first `<img…>` in the extract is found, or none exists. |
| W3cValidator.FirstSrc | server/out/validators/w3c.js:21 | The first case-insensitive quoted `src` value in the tag is found, or none exists. |
| W3cValidator.Enrich | server/out/validators/w3c.js:17-29 | Only the selected row's suggestion may change, and only when it holds the alt-text phrase and the extract is truthy. The step fails exactly when that row holds the phrase and a truthy extract lacks an image tag or a quoted source. Otherwise the service is asked about the first image tag's `src`: its caption `a` makes the suggestion the alt prefix followed by `a`, and its failure leaves the table as it was. |
| W3cValidator.W3cDiagnostic | server/out/validators/w3c.js:31-50 | The range runs on line lastLine-1 from column firstColumn (not minus one) to lastColumn-1. |
| W3cValidator.ProcessW3c | server/out/validators/w3c.js:9-52 | Below the limit with a matching row, a successful call appends exactly one diagnostic, built from the row after enrichment. Otherwise nothing changes. Failure happens only in the unparseable-extract case. |
| W3cValidator.ProcessW3cNoDedup | server/out/validators/w3c.js:9-52 | The W3C adapter has no duplicate check: the same message twice yields two diagnostics. |
| W3cValidator.EnrichmentPersists | server/out/validators/w3c.js:24 | The suggestion written into the shared dictionary row is what later messages for that row carry. |
| ContrastValidator.ContrastDiagnostic | server/out/validators/contrast.js:10-29 | A contrast finding becomes a warning over its offsets, with the issue text and the fixed contrast citation. |
| ContrastValidator.ProcessContrast | server/out/validators/contrast.js:7-31 | Below the limit the finding is appended. At or past it, nothing changes. |
| ContrastValidator.ContrastUnderlinesText | server/out/helpers/color-contrast.js:190-209 | A reported element is underlined at the first occurrence of its text. The range spans exactly that text on one line. |
| ContrastValidator.FindingUnderlined | server/out/validators/contrast.js:13-14 | A finding at the first occurrence of a line-free text spans that text on one line. |
| ColorContrast.RgbToHex | server/out/helpers/color-contrast.js:46-63 | The first integer triple becomes `#rrggbb`. Without a triple, the default black or white is used for text or background, and any other kind fails. |
| ColorContrast.ParseColor | server/out/helpers/color-contrast.js:27-44 | Hex, `rgb(…)` and `rgba(…)` forms parse. Anything else fails with "Invalid color format: " and the input. |
| ColorContrast.HexRoundTrip | server/out/helpers/color-contrast.js:27-63 | Parsing the hex form of a colour with byte channels gives the colour back. |
| ColorContrast.WideChannelRejected | server/out/helpers/color-contrast.js:59-61 | A channel above 255 renders with three hex digits, so parsing it fails. |
| ColorContrast.RgbToHexThenParse | server/out/helpers/color-contrast.js:46-63 | The computed colour survives the hex conversion exactly when its channels are bytes. Otherwise `parseColor` rejects it. |
| ColorContrast.Luminance | server/out/helpers/color-contrast.js:14-25 | Relative luminance of byte channels lies in [0, 1]. Black is 0 and white is 1. |
| ColorContrast.Ratio | server/out/helpers/color-contrast.js:5-12 | `(L1+0.05)/(L2+0.05)` with the lighter colour on top lies in [1, 21] and is 1 for equal luminances. |
| ColorContrast.RatioSymmetric | server/out/helpers/color-contrast.js:8-10 | The ratio does not depend on argument order. |
| ColorContrast.Hundredths | server/out/helpers/color-contrast.js:11 | `toFixed(2)` rounds to the nearest hundredth. |
| ColorContrast.ContrastHundredths | server/out/helpers/color-contrast.js:5-12 | The rounded ratio exists exactly when both colours parse. It lies between 1.00 and 21.00. |
| ColorContrast.ContrastSymmetric | server/out/helpers/color-contrast.js:5-12 | The rounded ratio of two colours is the same either way round. |
| ColorContrast.DefaultContrast | server/out/helpers/color-contrast.js:2-3 | Default black on default white is 21.00. |
| ColorContrast.SameColorRatio | server/out/helpers/color-contrast.js:5-12 | A colour against itself is 1.00. |
| ColorContrast.AppendElement | server/out/helpers/color-contrast.js:98-137 | The message names the element's text. For the "Process selected images" element the function returns `undefined`. |
| ColorContrast.Report | server/out/helpers/color-contrast.js:161-185 | The issue is empty exactly when the ratio meets every threshold of the size class. |
| ColorContrast.Issue | server/out/helpers/color-contrast.js:161-185 | Normal text fails below 7 (and also below 4.5), large text below 4.5 (and also below 3). The issue is empty exactly when the higher threshold is met. |
| ColorContrast.IssueShape | server/out/helpers/color-contrast.js:161-185 | A failing issue is the lower-threshold line, when that threshold also fails, followed by the higher-threshold line. |
| ColorContrast.SkippedTextReportsUndefined | server/out/helpers/color-contrast.js:98-185 | For the skipped element the issue consists of "undefined" lines. |
| ColorContrast.Locate | server/out/helpers/color-contrast.js:190-209 | The finding spans the first occurrence of the element's text. It is blanked when that occurrence starts at offset 0 or is missing. |
| ColorContrast.LocatedIssue | server/out/helpers/color-contrast.js:160-201 | A located report is empty exactly when the text is not found from offset 1, or the ratio reaches 7.00 for normal text or 4.50 for large text. |
| ColorContrast.CheckContrast | server/out/helpers/color-contrast.js:140-210 | The check succeeds exactly when both colours convert and parse. Text under 24px is normal, otherwise large. The issue is that size class's report for the rounded ratio, so it is empty exactly when the text is not found from offset 1 or the ratio reaches 7.00 (normal) or 4.50 (large). A reported finding lies at the first occurrence of the text, starting at offset 1 or later. A text not found from offset 1 gives the blank finding at -1. |
| ColorContrast.DefaultColorsPass | server/out/helpers/color-contrast.js:140-210 | An element with default colours has no issue. |
| ColorContrast.SameColorFails | server/out/helpers/color-contrast.js:140-210 | Text in the background's own colour is always reported, with ratio 1.00. |
| ColorContrast.CheckDocumentContrast | server/out/helpers/color-contrast.js:213-244 | The document check fails if any element's check fails. On success the result is exactly the per-element findings, in element order, with those lacking an issue dropped. Every finding it returns has an issue and lies inside the text from offset 1. |
| ContrastFindings.RemoveEmpty | server/out/helpers/color-contrast.js:236-240 | The backward splice loop keeps exactly the findings with an issue, in order. |
| ContrastFindings.KeepIssuesMembers | server/out/helpers/color-contrast.js:236-240 | A finding survives if and only if it was present and has a non-empty issue. |
| Numerals.RenderValue | server/out/helpers/color-contrast.js:59-61 | `toString(radix)` renders digits whose value is the number. |
| Numerals.ValueRender | server/out/helpers/color-contrast.js:59-61 | Canonical digits render back from their value, so the two are inverse. |
| Numerals.PadStart2Value | server/out/helpers/color-contrast.js:59-61 | `padStart(2, "0")` does not change a numeral's value. |
| Numerals.ByteHexWidthIff | server/out/helpers/color-contrast.js:59-61 | A padded hex channel is two digits wide if and only if the channel is below 256. |
| Numerals.Fixed2Value | server/out/helpers/color-contrast.js:11 | The fixed-point text of a count of hundredths reads back as its whole part and its two decimals. |
| CountAttributes.MatchEnd | server/out/helpers/count-attributes.js:44-55 | `<name[^>]*>` matches a case-insensitive tag opening up to its first `>`. `name:` matches the case-insensitive declaration. |
| CountAttributes.Count | server/out/helpers/count-attributes.js:40-60 | The loop's total is the weighted sum of both passes' match counts over every rule. |
| CountAttributes.PassesAreEntrySum | server/out/helpers/count-attributes.js:43-57 | Tag pass plus declaration pass is the whole score. |
| CountAttributes.RulesWeights | server/out/helpers/count-attributes.js:6-37 | Thirty rules. input weighs 5, select 3, every other rule 1. |
| CountAttributes.EmptyScoresZero | server/out/helpers/count-attributes.js:40-60 | The empty document scores zero. |
| CountAttributes.ScoreIgnoresCase | server/out/helpers/count-attributes.js:44-52 | Because of the `i` flag, lower-casing the document does not change its score. |
| CountAttributes.MaxHeightAlsoHeight | server/out/helpers/count-attributes.js:52 | `max-height:` also counts as a `height:` declaration, since the pattern is unanchored. |
| CountAttributes.DeclarationSuffixMatches | server/out/helpers/count-attributes.js:52 | Any suffix of a matched declaration name also matches at the corresponding position. |
| ServerDicts.Bare | server/out/server.js:22-133 | The server's WHATWG copy differs from the module's only in the citations of the listed ids. |
| ServerDicts.BareKeepsLookups | server/out/server.js:22-133 | Every id selects the same row, with the same messages, in both copies. The citation differs exactly for the listed ids. |
| ServerDicts.VersionsSelectAlike | server/out/server.js:136-269 | The server's "WCAG 2.1" copy of the W3C table selects the same row as the module's "WCAG 2.2" copy for every message. |
| ServerDicts.ServerCitationsAsWritten | server/out/server.js:30-31 | The server's `aria-hidden-body` row is cited by the bare "WCAG 2.2", and its W3C image row (server.js line 139) by "WCAG 2.1 \| 1.1.1". |
| ServerDicts.BareVersionHasNoCriteria | server/out/server.js:31 | A bare "WCAG 2.2" citation holds no separator, so it names no criteria. |
| ServerBattery.LoopPushesPrefix | server/out/server.js:437-463 | An inline loop entered with `used` entries already counted pushes the leading part of its diagnostics that fits what is left. |
| ServerBattery.RunShared | server/out/server.js:434-1004 | The inline loops, run on one count, push the unlimited diagnostics in loop order cut at the limit. The count ends at the number pushed. |
| ServerBattery.SharedLength | server/out/server.js:434-1004 | The shared run keeps the first entries of the unlimited list and nothing after them. |
| ServerBattery.SharedAgreesWithFamily | server/out/server.js:434-1004 | When everything fits under the limit, sharing one count and passing it by value give the same diagnostics. |
| ServerBattery.FamilyPushesAll | server/out/regex/wcag.js:13-22 | When every loop fits its budget, the modular battery pushes every match. |
| ServerBattery.Inline | server/out/server.js:434-1004 | The nineteen inline loops push as many diagnostics as their matches, up to what the limit leaves. |
| SharedCount.SharedIsPrefix | server/out/server.js:437-441 | Loops on one count keep the unlimited list cut at the limit. |
| SharedCount.SharedStep | server/out/server.js:437-441 | Each loop advances the run and the count together. |
| ServerValidators.WhatwgStep | server/out/server.js:1015-1063 | An error below the limit is counted before the lookup. It adds a diagnostic only when its id is found, without a duplicate check. |
| ServerValidators.WhatwgLoop | server/out/server.js:1015-1063 | The error loop counts every error it sees until the limit, found or not. |
| ServerValidators.WhatwgLoopReportsFound | server/out/server.js:1015-1063 | The loop's diagnostics are those of the known ids among the errors it reaches before the limit, in order. |
| ServerValidators.RunWhatwg | server/out/server.js:1015-1063 | The `forEach` with its early returns computes the same tally as `WhatwgLoop`. |
| ServerValidators.RepeatedErrorReportedTwice | server/out/server.js:1015-1063 | Unlike the module adapter, the server reports a repeated error twice. |
| ServerValidators.UnknownErrorsUseTheLimit | server/out/server.js:1016-1024 | Errors with unknown ids push nothing but still use up the count. |
| ServerValidators.Fallback | server/out/server.js:1230-1238 | After a failed caption, an imgur source gets a fixed notice. Any other source gets its text before the first dot. |
| ServerValidators.ServerEnrich | server/out/server.js:1148-1162 | Only the selected row's suggestion may change, and only when it holds the alt-text phrase. Enrichment fails exactly when that row holds the phrase and a truthy extract has no image tag or no quoted source. |
| ServerValidators.ServerAlwaysEnriches | server/out/server.js:1148-1162 | Because `query` never throws, a parseable image always rewrites the suggestion with its source and caption. |
| ServerValidators.ServerW3cDiagnostic | server/out/server.js:1137-1177 | The server's range starts at firstColumn-1 on line lastLine-1. It carries the row's message, citation and suggestion. |
| ServerValidators.ServerStartsOneEarlier | server/out/server.js:1140 | The server's W3C range starts one column before the module adapter's. All else is equal. |
| ServerValidators.ProcessDiagnostics | server/out/server.js:1125-1180 | At or past the limit nothing changes. Failure means the extract could not be parsed. A selected row appends one diagnostic using the enriched row. |
| ServerValidators.W3cMap | server/out/server.js:1072-1073 | Every message sees the same count. The run only appends, and at most one diagnostic per message. |
| ServerValidators.W3cMapTrace | server/out/server.js:1072-1073 | Below the limit the map fails exactly when some message fails, and it adds one diagnostic per reportable message. |
| ServerValidators.AnyFailsSome | server/out/server.js:1072-1073 | A map fails if and only if some message's processing fails. |
| ServerValidators.ProcessKeepsAlike | server/out/server.js:1148-1162 | Enrichment never changes a row's key, so later messages select the same rows. |
| ServerValidators.RunW3c | server/out/server.js:1072-1073 | The sequential loop over the messages computes `W3cMap`. |
| Server.Pipeline | server/out/server.js:1006-1087 | The error loop continues the battery's count. The run fails exactly when a checker message cannot be parsed below the limit. Otherwise it sends the diagnostics: the battery, then the found errors, then, when the error loop left room, exactly one diagnostic per reportable checker message, and nothing more when it did not. The notification's list is those diagnostics followed by the score. |
| Wrappers.MapAllFirstFailure | server/out/helpers/color-contrast.js:233 | Mapping over the elements fails with the first failing element's error. |
| Strings.IndexOf | server/out/helpers/color-contrast.js:190 | `indexOf` returns the first occurrence at or after the start, or -1 when there is none. |
| Strings.SplitJoin | server/out/server.js:1236 | Splitting a join gives the parts back when the separator is non-empty and its first character occurs in no part. |

## Left out

- DOM parsing with JSDOM, `querySelectorAll`, `getComputedStyle` and `getFontSize` are not modelled. Each element arrives as its text, computed colour and font size.
- Floating point is not modelled. `Math.pow` in the luminance transfer is an oracle constrained only at 0 and 255. Ratios are reals, and `toFixed(2)` is rounding half up to hundredths.
- ColorContrast.Luminance: states bounds and the black and white values only. The exact bits of the IEEE computation are not modelled.
- I/O and LSP wiring are not modelled: settings lookup, `sendDiagnostics`, `sendNotification` and the validator calls themselves. The validators' answers are inputs.
- The caption service (`query`'s fetch and file read) is a function that may fail. Its caption post-processing, the `replace` calls and capitalisation at server.js lines 1213-1227, is folded into that function.
- img-caption.js (the module adapter's caption helper) is not part of this model. Its result is the oracle's.
- ServerValidators.W3cMap: `Promise.all` over the checker messages is modelled as a sequential map in message order. In the code, a message that needs no await (a falsy extract, or a row that is not enriched) pushes at once, with the suggestion as it stood before any enrichment in that run. Awaited messages push in the order their captions resolve. The model does not promise that interleaving, nor which suggestion text a non-awaited image message sees.
- Server.Validate: the server's module-level `W3CtoRule` table keeps its enriched suggestion from one validation to the next. The model starts every run from ServerW3cTable, so it does not model a suggestion carried over from an earlier run.
- The lastIndex state shared by a global regex across calls is not modelled. Each check starts matching at offset 0, as it does on a fresh document.
- The 1.3.1 footer-order pattern (wcag131.js line 9), with its nested lazy quantifiers, is not modelled as a matcher. Its match list is an unconstrained input to Wcag131.Spans, Wcag.Before, Wcag.Battery, ServerBattery.InlineSpans, ServerBattery.Inline and Server.Validate. Nothing is promised about where those ranges lie.
- The look-behind groups of the 2.5.3 patterns, `(?<=\sname=)` and `(?<=\svalue=)`, are optional and never change where a match ends before `[^>]*>`. They are not modelled separately.
- Text is a sequence of code points, not UTF-16 units. `positionAt` counts only `\n` as a line break.
- Server.Pipeline: `sent` and `files` are separate values in the model. In the code they are one array, and the score is pushed onto it after `sendDiagnostics` returns. Whether the editor's payload includes the score depends on when the language-server library serialises the message, which is not modelled. `sent` is the array as it stands when `sendDiagnostics` is called.
- Server.Validate has no contract of its own. What it publishes is stated by Server.Pipeline, which it instantiates with the inline battery and the server dictionaries.
- ServerBattery.Inline: states only the number of diagnostics. Their contents and order are stated by ServerBattery.SharedLength, whose instance is in its body.
- Wcag131.Check: states the bound and the citation. The per-loop contents are stated by Scan.Emit.
- The client, the webview and the settings cache are outside the engine.

## Notable behaviour

- The limit is per loop in the module battery. Each checker function receives `problems` by value. Only the inline battery in server.js shares one count.
- The diagnostics are published in emission order. Nothing sorts them.
- Only the module WHATWG adapter (validators/whatwg.js) drops duplicates. The server's loop does not. The W3C adapters never do.
- A colour that fails to parse throws out of `checkDocumentContrast`. Nothing catches it per element.
- Contrast offsets come from `html.indexOf(textContent)`, so a repeated text always maps to its first occurrence. Findings starting at offset 0 are dropped.
- Findings carry no suggestion field, and there is no colour-scheme suggestion.
- The server does not run the contrast analyser.
- The score is pushed onto the same diagnostics array right after `sendDiagnostics` is called (`files` is an alias of `diagnostics`). The notification's list is that array, ending with the score.
