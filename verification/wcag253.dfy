/** Success criterion 2.5.3 (Label in Name): a `button`, `input`, `textarea`
    or `select` tag with no `aria-label` inside it. */
module Wcag253 {
  import opened Wrappers
  import opened Strings
  import opened Lsp
  import opened Scan

  /** `(?![^>]*(?:aria-label|aria-labelledby)[^>]*)` fails at `p` when this
      holds; `aria-labelledby` begins with `aria-label`, so one test covers both. */
  predicate LabelAhead(s: string, p: nat)
    requires p <= |s|
  {
    exists q :: p <= q < TagEnd(s, p) && StartsAt(s, q, "aria-label")
  }

  /** The pattern for `tag` tried at `i`: `<tag`, no `aria-label` before the
      tag closes, then everything up to and including the first `>`. The
      look-behind groups for `name=` and `value=` cannot hold right after the
      tag name, and the optional empty `aria-label` cannot appear once the
      look-ahead has passed, so none of them changes the match. */
  function LabelFreeTag(s: string, i: nat, tag: string): (r: Option<nat>)
    ensures r.Some? ==> i + |tag| + 2 <= r.value <= |s|
    ensures r.Some? ==> StartsAt(s, i, "<" + tag) && s[r.value - 1] == '>'
    ensures r.Some? ==> forall j :: i + 1 + |tag| <= j < r.value - 1 ==> s[j] != '>'
    ensures r.Some? ==> forall q :: i + 1 + |tag| <= q < r.value - 1 ==> !StartsAt(s, q, "aria-label")
  {
    if !StartsAt(s, i, "<" + tag) then None
    else
      var p := i + 1 + |tag|;
      if LabelAhead(s, p) then None
      else
        var g := FindChar(s, p, '>');
        if g < 0 then None else Some(g + 1)
  }

  /** A tag that carries an `aria-label` (or `aria-labelledby`) is not reported. */
  lemma LabelledTagNotReported(s: string, i: nat, tag: string, q: nat)
    requires StartsAt(s, i, "<" + tag)
    requires i + 1 + |tag| <= q < TagEnd(s, i + 1 + |tag|) && StartsAt(s, q, "aria-label")
    ensures LabelFreeTag(s, i, tag).None?
  {
  }

  /** A closed tag with no `aria-label` in it is reported over its whole opening tag. */
  lemma UnlabelledTagReported(s: string, i: nat, tag: string)
    requires StartsAt(s, i, "<" + tag) && FindChar(s, i + 1 + |tag|, '>') >= 0
    requires forall q :: i + 1 + |tag| <= q < FindChar(s, i + 1 + |tag|, '>') ==> !StartsAt(s, q, "aria-label")
    ensures LabelFreeTag(s, i, tag) == Some(FindChar(s, i + 1 + |tag|, '>') + 1)
  {
  }

  function MatchButton(s: string, i: nat): (r: Option<nat>)
    ensures r.Some? ==> i + 2 <= r.value <= |s|
  {
    LabelFreeTag(s, i, "button")
  }

  function MatchInput(s: string, i: nat): (r: Option<nat>)
    ensures r.Some? ==> i + 2 <= r.value <= |s|
  {
    LabelFreeTag(s, i, "input")
  }

  function MatchTextarea(s: string, i: nat): (r: Option<nat>)
    ensures r.Some? ==> i + 2 <= r.value <= |s|
  {
    LabelFreeTag(s, i, "textarea")
  }

  function MatchSelect(s: string, i: nat): (r: Option<nat>)
    ensures r.Some? ==> i + 2 <= r.value <= |s|
  {
    LabelFreeTag(s, i, "select")
  }

  /** The four matchers, in the order `checkWCAG253` runs them. */
  lemma MatchersAdvance(s: string)
    ensures Advances(MatchButton, s) && Advances(MatchInput, s)
    ensures Advances(MatchTextarea, s) && Advances(MatchSelect, s)
  {
  }

  function Matches(m: Matcher, text: string): seq<Span>
    requires m == MatchButton || m == MatchInput || m == MatchTextarea || m == MatchSelect
  {
    MatchersAdvance(text);
    Exec(m, text, 0)
  }

  /** Every reported span is at least two characters long, so its range,
      which drops the first and the last character, never runs backwards. */
  lemma TrimmedRangesOrdered(m: Matcher, text: string, k: nat)
    requires m == MatchButton || m == MatchInput || m == MatchTextarea || m == MatchSelect
    requires k < |Matches(m, text)|
    ensures PosLe(SpanRange(text, Trimmed, Matches(m, text)[k]).start, SpanRange(text, Trimmed, Matches(m, text)[k]).end)
  {
    MatchersAdvance(text);
    var sp := Matches(m, text)[k];
    assert m(text, sp.index) == Some(sp.end);
    TrimmedRangeOrdered(text, sp);
  }

  /** The citation every diagnostic of this check carries. */
  const Source := "WCAG 2.1 | 2.5.3"

  const RuleButton := ScanRule(Trimmed,
    "The button element needs more context.", Source,
    ["Add the appropriate aria-label to the input element."])

  const RuleInput := ScanRule(Trimmed,
    "The input element needs more context.", Source,
    ["Add the appropriate aria-label to the input element."])

  const RuleTextarea := ScanRule(Trimmed,
    "The textarea element needs more context.", Source,
    ["Add the appropriate aria-label to the textarea element."])

  const RuleSelect := ScanRule(Trimmed,
    "The select element needs more context.", Source,
    ["Add the appropriate aria-label to the select element."])

  /** The four rules, in the order `checkWCAG253` runs their loops. */
  const Rules: seq<ScanRule> := [RuleButton, RuleInput, RuleTextarea, RuleSelect]

  /** Every one of the four rules cites this check's criterion. */
  lemma RulesCite()
    ensures forall k :: 0 <= k < |Rules| ==> Rules[k].source == Source
  {
  }

  /** The matches of the four patterns, in the same order. */
  function Spans(text: string): (r: seq<seq<Span>>)
    ensures |r| == 4
  {
    [Matches(MatchButton, text), Matches(MatchInput, text), Matches(MatchTextarea, text), Matches(MatchSelect, text)]
  }

  /** `checkWCAG253`: the four loops in order, each handed the caller's count. */
  function Check(ctx: Context, text: string, problems: int): (r: seq<Diagnostic>)
    ensures |r| <= 4 * Budget(ctx, problems)
    ensures forall k :: 0 <= k < |r| ==> r[k].source == Source
    ensures r == Emit(ctx, text, RuleButton, Matches(MatchButton, text), problems)
               + Emit(ctx, text, RuleInput, Matches(MatchInput, text), problems)
               + Emit(ctx, text, RuleTextarea, Matches(MatchTextarea, text), problems)
               + Emit(ctx, text, RuleSelect, Matches(MatchSelect, text), problems)
  {
    FamilyBound(ctx, text, Rules, Spans(text), problems);
    RulesCite();
    FamilySource(ctx, text, Rules, Spans(text), problems, Source);
    FamilyQuad(ctx, text, Rules, Spans(text), problems);
    Family(ctx, text, Rules, Spans(text), problems)
  }
}
