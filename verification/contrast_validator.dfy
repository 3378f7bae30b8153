/** The contrast adapter: turns one finding of the colour-contrast checker
    into a diagnostic whose range is the finding's character offsets mapped
    to line and character positions of the document. */
module ContrastValidator {
  import opened Wrappers
  import opened Strings
  import opened Lsp
  import opened ContrastFindings
  import opened ColorContrast

  /** The one citation every contrast diagnostic carries. */
  const ContrastSource := "WCAG 2.1 | Color Contrast (1.4.3, 1.4.6)"

  /** The diagnostic for finding `f` in the document `text`. The finding has
      no suggestion, so the related item's message is left undefined. */
  function ContrastDiagnostic(ctx: Context, text: string, f: ContrastFinding): (d: Diagnostic)
    ensures d.range == Range(PositionAt(text, f.start), PositionAt(text, f.end))
    ensures d.message == f.contrastIssue && d.source == ContrastSource
    ensures d.related == RelatedAt(ctx, d.range, None)
  {
    var range := Range(PositionAt(text, f.start), PositionAt(text, f.end));
    Diagnostic(Warning, range, f.contrastIssue, ContrastSource, RelatedAt(ctx, range, None))
  }

  /** `processContrast`: the list unchanged once the caller's count has reached
      the limit, otherwise the list with the finding's diagnostic appended.
      No duplicate test and no dictionary lookup. */
  function ProcessContrast(ctx: Context, text: string, f: ContrastFinding, ds: seq<Diagnostic>, problems: int): (r: seq<Diagnostic>)
    ensures problems >= ctx.maxProblems ==> r == ds
    ensures problems < ctx.maxProblems ==> |r| == |ds| + 1 && r[..|ds|] == ds
    ensures problems < ctx.maxProblems ==> r[|ds|] == ContrastDiagnostic(ctx, text, f)
  {
    if problems >= ctx.maxProblems then ds
    else ds + [ContrastDiagnostic(ctx, text, f)]
  }

  /** A finding's range never runs backwards. */
  lemma ContrastRangeOrdered(ctx: Context, text: string, f: ContrastFinding)
    requires f.start <= f.end
    ensures PosLe(ContrastDiagnostic(ctx, text, f).range.start, ContrastDiagnostic(ctx, text, f).range.end)
  {
    PositionAtMonotone(text, f.start, f.end);
  }

  /** A reported element whose text has no line feed is underlined on one
      line, over exactly as many characters as its text has, starting at the
      text's first occurrence in the document. */
  lemma ContrastUnderlinesText(ctx: Context, el: Element, bodyBackground: string, text: string, gamma: real -> real)
    requires GammaOk(gamma)
    requires CheckContrast(el, bodyBackground, text, gamma).Success?
    requires CheckContrast(el, bodyBackground, text, gamma).value.contrastIssue != ""
    requires forall k :: 0 <= k < |el.textContent| ==> el.textContent[k] != '\n'
    ensures var f := CheckContrast(el, bodyBackground, text, gamma).value;
      var d := ContrastDiagnostic(ctx, text, f);
      f.start == IndexOf(text, el.textContent, 0)
      && d.range.start.line == d.range.end.line
      && d.range.end.character - d.range.start.character == |el.textContent|
  {
    var f := CheckContrast(el, bodyBackground, text, gamma).value;
    FindingUnderlined(ctx, text, el.textContent, f);
  }

  /** A finding that covers one occurrence of a text without line feeds maps
      to a single-line range as wide as the text. */
  lemma FindingUnderlined(ctx: Context, text: string, t: string, f: ContrastFinding)
    requires StartsAt(text, f.start, t) && f.end == f.start + |t|
    requires forall j :: 0 <= j < f.start ==> !StartsAt(text, j, t)
    requires forall k :: 0 <= k < |t| ==> t[k] != '\n'
    ensures var d := ContrastDiagnostic(ctx, text, f);
      f.start == IndexOf(text, t, 0)
      && d.range.start.line == d.range.end.line
      && d.range.end.character - d.range.start.character == |t|
  {
    IndexOfIs(text, t, 0, f.start);
    forall j | f.start <= j < f.end
      ensures text[j] != '\n'
    {
      assert text[j] == t[j - f.start];
    }
    SameLine(text, f.start, f.end);
  }
}
