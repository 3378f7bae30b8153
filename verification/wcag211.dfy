/** Success criterion 2.1.1 (Keyboard): a `div` standing in for a button (a)
    or for a form (b). */
module Wcag211 {
  import opened Wrappers
  import opened Strings
  import opened Lsp
  import opened Scan

  /** `(<div(?=.*?cls)[^>]*)(>)` tried at `i`: `<div`, the attribute text
      `cls` somewhere on the rest of the line (inside this tag or not), then
      everything up to and including the first `>`. */
  function ClassedDiv(s: string, i: nat, cls: string): (r: Option<nat>)
    ensures r.Some? ==> i + 5 <= r.value <= |s|
    ensures r.Some? ==> StartsAt(s, i, "<div") && s[r.value - 1] == '>'
    ensures r.Some? ==> forall j :: i + 4 <= j < r.value - 1 ==> s[j] != '>'
    ensures r.Some? ==> exists q :: i + 4 <= q < LineEnd(s, i + 4) && StartsAt(s, q, cls)
  {
    if !StartsAt(s, i, "<div") then None
    else if !(exists q :: i + 4 <= q < LineEnd(s, i + 4) && StartsAt(s, q, cls)) then None
    else
      var g := FindChar(s, i + 4, '>');
      if g < 0 then None else Some(g + 1)
  }

  /** The lookahead is not confined to the tag: a `div` is reported when the
      class text sits in a later tag on the same line. */
  lemma ClassLaterOnLineSuffices(s: string, i: nat, q: nat, cls: string)
    requires StartsAt(s, i, "<div") && FindChar(s, i + 4, '>') >= 0
    requires FindChar(s, i + 4, '>') < q < LineEnd(s, i + 4) && StartsAt(s, q, cls)
    ensures ClassedDiv(s, i, cls) == Some(FindChar(s, i + 4, '>') + 1)
  {
  }

  /** A `div` with no class text on its line is not reported. */
  lemma UnclassedDivNotReported(s: string, i: nat, cls: string)
    requires forall q :: i + 4 <= q < LineEnd(s, i + 4) ==> !StartsAt(s, q, cls)
    ensures ClassedDiv(s, i, cls).None?
  {
  }

  const ButtonClass := "class=\"button\""
  const FormClass := "class=\"form\""

  /** Pattern (a). */
  function MatchA(s: string, i: nat): (r: Option<nat>)
    ensures r.Some? ==> i < r.value <= |s|
  {
    ClassedDiv(s, i, ButtonClass)
  }

  /** Pattern (b). */
  function MatchB(s: string, i: nat): (r: Option<nat>)
    ensures r.Some? ==> i < r.value <= |s|
  {
    ClassedDiv(s, i, FormClass)
  }

  lemma MatchAAdvances(s: string)
    ensures Advances(MatchA, s)
  {
  }

  lemma MatchBAdvances(s: string)
    ensures Advances(MatchB, s)
  {
  }

  function MatchesA(text: string): seq<Span> {
    MatchAAdvances(text);
    Exec(MatchA, text, 0)
  }

  function MatchesB(text: string): seq<Span> {
    MatchBAdvances(text);
    Exec(MatchB, text, 0)
  }

  /** The citation every diagnostic of this check carries. */
  const Source := "WCAG 2.1 | 2.1.1"

  const Rule211a := ScanRule(Raw,
    "All functionality should be operable with a keyboard. Choose between the two options.",
    Source,
    ["Please change this to <button></button>",
     "Please change the `class` attribute to `role` and add `tabindex=\"0\"` (ex: <div role=\"button\" tabindex=\"0\"></div>)"])

  /** What (b) would push; in this module its loop never gets that far. */
  const Rule211b := ScanRule(Raw,
    "All functionality should be operable with a keyboard. Choose between the two options.",
    Source,
    ["Please change this to &lt;form&gt;"])

  /** `checkWCAG211`: loop (a), then loop (b). The body of loop (b) reads
      `node_1`, which this module never defines: its first iteration throws a
      `ReferenceError` after counting, before pushing anything. */
  function Check(ctx: Context, text: string, problems: int): (r: Outcome)
    ensures r.diagnostics == Emit(ctx, text, Rule211a, MatchesA(text), problems)
    ensures |r.diagnostics| <= Budget(ctx, problems)
    ensures forall k :: 0 <= k < |r.diagnostics| ==> r.diagnostics[k].source == Source
    ensures r.aborted <==> |MatchesB(text)| > 0 && problems < ctx.maxProblems
  {
    Outcome(Emit(ctx, text, Rule211a, MatchesA(text), problems),
            |MatchesB(text)| > 0 && problems < ctx.maxProblems)
  }

  /** A document with a `div` of class `form` whose tag closes makes the check
      throw whenever the count has not reached the limit. */
  lemma FormDivThrows(ctx: Context, text: string, problems: int, i: nat)
    requires i < |text| && MatchB(text, i).Some? && problems < ctx.maxProblems
    ensures Check(ctx, text, problems).aborted
  {
    MatchBAdvances(text);
    MatchCovered(MatchB, text, i);
    assert MatchesB(text) == Exec(MatchB, text, 0);
  }
}
