/** Success criterion 1.3.5 (Identify Input Purpose): an `input` without a
    quoted `name` on its line (a), and a form field without a `type` that
    closes the document (b). */
module Wcag135 {
  import opened Wrappers
  import opened Strings
  import opened Lsp
  import opened Scan

  /** `name=` and a quote at `q`, the same quote closing again before `stop`. */
  predicate QuotedNameAt(s: string, q: nat, stop: nat) {
    StartsAt(s, q, "name=") && q + 5 < |s| && IsQuoteMark(s[q + 5])
    && exists r :: q + 6 <= r < stop && r < |s| && s[r] == s[q + 5]
  }

  /** `.*?name=(['"]).*?\\2` from `from`: a quoted name on the rest of the line. */
  predicate QuotedNameOnLine(s: string, from: nat) {
    exists q :: from <= q < LineEnd(s, from) && QuotedNameAt(s, q, LineEnd(s, from))
  }

  /** Pattern (a) tried at `i`: `<input`, no quoted name on the rest of its
      line, then everything up to and including the first `>`. */
  function MatchA(s: string, i: nat): (r: Option<nat>)
    ensures r.Some? ==> i + 7 <= r.value <= |s|
    ensures r.Some? ==> StartsAt(s, i, "<input") && !QuotedNameOnLine(s, i + 6)
    ensures r.Some? ==> s[r.value - 1] == '>' && forall j :: i + 6 <= j < r.value - 1 ==> s[j] != '>'
  {
    if !StartsAt(s, i, "<input") || QuotedNameOnLine(s, i + 6) then None
    else
      var g := FindChar(s, i + 6, '>');
      if g < 0 then None else Some(g + 1)
  }

  lemma MatchAAdvances(s: string)
    ensures Advances(MatchA, s)
  {
  }

  /** An `input` with a quoted name later on its line is not reported. */
  lemma NamedInputNotReported(s: string, i: nat, q: nat, r: nat)
    requires StartsAt(s, i, "<input")
    requires i + 6 <= q && StartsAt(s, q, "name=") && q + 6 <= r < LineEnd(s, i + 6)
    requires IsQuoteMark(s[q + 5]) && s[r] == s[q + 5]
    ensures MatchA(s, i).None?
  {
    assert QuotedNameAt(s, q, LineEnd(s, i + 6));
  }

  /** An `input` with no quoted name on its line and a closing `>` is reported
      from `<` to that `>`. */
  lemma UnnamedInputMatched(s: string, i: nat)
    requires StartsAt(s, i, "<input") && !QuotedNameOnLine(s, i + 6)
    requires FindChar(s, i + 6, '>') >= 0
    ensures MatchA(s, i) == Some(FindChar(s, i + 6, '>') + 1)
  {
  }

  /** The alternative of `<(input|textarea|select)` that matches at `i`. */
  function FieldTagAt(s: string, i: nat): (r: Option<string>)
    ensures r.Some? ==> (r.value == "input" || r.value == "textarea" || r.value == "select") && StartsAt(s, i, "<" + r.value)
    ensures r.None? ==> !StartsAt(s, i, "<input") && !StartsAt(s, i, "<textarea") && !StartsAt(s, i, "<select")
  {
    if StartsAt(s, i, "<input") then Some("input")
    else if StartsAt(s, i, "<textarea") then Some("textarea")
    else if StartsAt(s, i, "<select") then Some("select")
    else None
  }

  /** `(?![^>]*\\btype=)` fails at `p` when this holds. */
  predicate TypeAhead(s: string, p: nat)
    requires p <= |s|
  {
    exists q :: p <= q < TagEnd(s, p) && WordStart(s, q) && StartsAt(s, q, "type=")
  }

  /** How far `[ \\n]*` reaches from `from`. */
  function SkipBlanks(s: string, from: nat): (r: nat)
    requires from <= |s|
    ensures from <= r <= |s|
    ensures forall j :: from <= j < r ==> s[j] == ' ' || s[j] == '\n'
    ensures r < |s| ==> s[r] != ' ' && s[r] != '\n'
    decreases |s| - from
  {
    if from == |s| || (s[from] != ' ' && s[from] != '\n') then from else SkipBlanks(s, from + 1)
  }

  /** Pattern (b) tried at `i`: an opening field tag with no `type=`, then
      only blanks, then its closing tag, which must close the text (`$`
      without the `m` flag is the end of the input). */
  function MatchB(s: string, i: nat): (r: Option<nat>)
    ensures r.Some? ==> r.value == |s| && i < r.value && s[|s| - 1] == '>'
    ensures r.Some? ==> FieldTagAt(s, i).Some? && !TypeAhead(s, i + 1 + |FieldTagAt(s, i).value|)
  {
    match FieldTagAt(s, i)
    case None => None
    case Some(tag) =>
      var p := i + 1 + |tag|;
      if TypeAhead(s, p) then None
      else
        var g := FindChar(s, p, '>');
        if g < 0 then None
        else
          var k := SkipBlanks(s, g + 1);
          if !StartsAt(s, k, "</" + tag) then None
          else
            var k2 := SkipSpaces(s, k + 2 + |tag|);
            if k2 < |s| && s[k2] == '>' && k2 + 1 == |s| then Some(|s|) else None
  }

  lemma MatchBAdvances(s: string)
    ensures Advances(MatchB, s)
  {
  }

  /** A field that names its type is not reported. */
  lemma TypedFieldNotReported(s: string, i: nat, q: nat)
    requires FieldTagAt(s, i).Some?
    requires i + 1 + |FieldTagAt(s, i).value| <= q < TagEnd(s, i + 1 + |FieldTagAt(s, i).value|)
    requires WordStart(s, q) && StartsAt(s, q, "type=")
    ensures MatchB(s, i).None?
  {
  }

  /** The citation every diagnostic of this check carries. */
  const Source := "WCAG 2.1 | 1.3.5"

  const Rule135a := ScanRule(Raw,
    "Headings and labels should be descriptive.",
    Source,
    ["Please add a 'name' attribute (ex: <input name='/>)"])

  const Rule135b := ScanRule(Raw,
    "Input elements must have a type attributed to identify their purpose.",
    Source,
    ["Use an appropriate type for input."])

  function MatchesA(text: string): seq<Span> {
    MatchAAdvances(text);
    Exec(MatchA, text, 0)
  }

  function MatchesB(text: string): seq<Span> {
    MatchBAdvances(text);
    Exec(MatchB, text, 0)
  }

  /** Pattern (b) is anchored at the end of the text: it is reported at most
      once, over a span that reaches the end. */
  lemma ClosingFieldAtMostOnce(text: string)
    ensures |MatchesB(text)| <= 1
    ensures |MatchesB(text)| == 1 ==> MatchesB(text)[0].end == |text|
  {
    MatchBAdvances(text);
    EndAnchoredAtMostOnce(MatchB, text);
  }

  /** The two rules, in the order `checkWCAG135` runs their loops. */
  const Rules: seq<ScanRule> := [Rule135a, Rule135b]

  /** Every one of the two rules cites this check's criterion. */
  lemma RulesCite()
    ensures forall k :: 0 <= k < |Rules| ==> Rules[k].source == Source
  {
  }

  /** The matches of the two patterns, in the same order. */
  function Spans(text: string): (r: seq<seq<Span>>)
    ensures |r| == 2
  {
    [MatchesA(text), MatchesB(text)]
  }

  /** `checkWCAG135`: both loops, each handed the caller's count, so each is
      capped on its own; (b) adds at most one entry. */
  function Check(ctx: Context, text: string, problems: int): (r: seq<Diagnostic>)
    ensures |r| <= 2 * Budget(ctx, problems)
    ensures |r| <= |MatchesA(text)| + 1
    ensures forall k :: 0 <= k < |r| ==> r[k].source == Source
    ensures r == Emit(ctx, text, Rule135a, MatchesA(text), problems) + Emit(ctx, text, Rule135b, MatchesB(text), problems)
  {
    FamilyBound(ctx, text, Rules, Spans(text), problems);
    RulesCite();
    FamilySource(ctx, text, Rules, Spans(text), problems, Source);
    ClosingFieldAtMostOnce(text);
    FamilyPair(ctx, text, Rules, Spans(text), problems);
    Family(ctx, text, Rules, Spans(text), problems)
  }
}
