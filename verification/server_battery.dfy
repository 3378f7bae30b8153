/** The pattern battery as the language server runs it inline: the same
    patterns as the check modules, one loop after another on one diagnostics
    array, every loop counting on the one `problems` variable of the
    validation run. */
module ServerBattery {
  import opened Lsp
  import opened Scan
  import opened SharedCount
  import Wcag131
  import Wcag134
  import Wcag135
  import Wcag144
  import Wcag211
  import Wcag253
  import Wcag413

  /** One diagnostic per match, with no limit. */
  function Diagnoses(ctx: Context, text: string, rule: ScanRule, spans: seq<Span>): (r: seq<Diagnostic>)
    ensures |r| == |spans|
    ensures forall k :: 0 <= k < |r| ==> r[k] == Diagnose(ctx, text, rule, spans[k])
  {
    seq(|spans|, k requires 0 <= k < |spans| => Diagnose(ctx, text, rule, spans[k]))
  }

  /** What each loop would push with no limit, loop by loop. */
  function Blocks(ctx: Context, text: string, rules: seq<ScanRule>, spans: seq<seq<Span>>): (r: seq<seq<Diagnostic>>)
    requires |rules| == |spans|
    ensures |r| == |rules|
    ensures forall k :: 0 <= k < |r| ==> r[k] == Diagnoses(ctx, text, rules[k], spans[k])
  {
    seq(|rules|, k requires 0 <= k < |rules| => Diagnoses(ctx, text, rules[k], spans[k]))
  }

  /** A loop that starts after `used` of the `Budget` entries are counted
      pushes the diagnostics of its first matches, as many as remain. */
  lemma LoopPushesPrefix(ctx: Context, text: string, rule: ScanRule, spans: seq<Span>, problems: int, used: nat)
    requires used <= Budget(ctx, problems)
    ensures Emit(ctx, text, rule, spans, problems + used)
      == Diagnoses(ctx, text, rule, spans)[..Min(|spans|, Budget(ctx, problems) - used)]
  {
    assert Budget(ctx, problems + used) == Budget(ctx, problems) - used;
  }

  /** The loops themselves, run in order on one diagnostics array and one
      count: they push the blocks cut, in loop order, at the limit, and count
      every entry they push. */
  method RunShared(ctx: Context, text: string, rules: seq<ScanRule>, spans: seq<seq<Span>>, diagnostics: seq<Diagnostic>, problems: int)
    returns (ds: seq<Diagnostic>, count: int)
    requires |rules| == |spans|
    ensures ds == diagnostics + Shared(Blocks(ctx, text, rules, spans), Budget(ctx, problems))
    ensures count == problems + Min(|Concat(spans)|, Budget(ctx, problems))
  {
    ghost var blocks := Blocks(ctx, text, rules, spans);
    ghost var b := Budget(ctx, problems);
    ds, count := diagnostics, problems;
    for k := 0 to |rules|
      invariant ds == diagnostics + Shared(blocks[..k], b)
      invariant count == problems + |Shared(blocks[..k], b)|
    {
      ghost var ds0, count0 := ds, count;
      ghost var front := Shared(blocks[..k], b);
      LoopPushesPrefix(ctx, text, rules[k], spans[k], problems, |front|);
      ds, count := RunRule(ctx, text, rules[k], spans[k], ds, count);
      SharedStep(blocks, b, k, diagnostics, problems, ds0, count0, Emit(ctx, text, rules[k], spans[k], count0), ds, count);
    }
    assert blocks[..|rules|] == blocks;
    ConcatLengths(blocks, spans);
  }

  /** Blocks as long as the match lists hold as many entries in all. */
  lemma {:induction false} ConcatLengths<T, U>(xs: seq<seq<T>>, ys: seq<seq<U>>)
    requires |xs| == |ys| && forall k :: 0 <= k < |xs| ==> |xs[k]| == |ys[k]|
    ensures |Concat(xs)| == |Concat(ys)|
    decreases |xs|
  {
    if |xs| > 0 {
      var n := |xs| - 1;
      ConcatLengths(xs[..n], ys[..n]);
    }
  }

  /** With every loop pushing its whole block, the family of loops pushes
      the blocks one after the other. */
  lemma {:induction false} FamilyPushesAll(ctx: Context, text: string, rules: seq<ScanRule>, spans: seq<seq<Span>>, problems: int)
    requires |rules| == |spans|
    requires forall k :: 0 <= k < |spans| ==> |spans[k]| <= Budget(ctx, problems)
    ensures Family(ctx, text, rules, spans, problems) == Concat(Blocks(ctx, text, rules, spans))
    decreases |rules|
  {
    if |rules| > 0 {
      var n := |rules| - 1;
      var blocks := Blocks(ctx, text, rules, spans);
      FamilyPushesAll(ctx, text, rules[..n], spans[..n], problems);
      BlocksPrefix(ctx, text, rules, spans, n);
      LoopPushesAll(ctx, text, rules[n], spans[n], problems);
      ConcatLast(blocks, Family(ctx, text, rules[..n], spans[..n], problems), Emit(ctx, text, rules[n], spans[n], problems));
    }
  }

  /** A loop with room for all its matches pushes a diagnostic for each. */
  lemma LoopPushesAll(ctx: Context, text: string, rule: ScanRule, spans: seq<Span>, problems: int)
    requires |spans| <= Budget(ctx, problems)
    ensures Emit(ctx, text, rule, spans, problems) == Diagnoses(ctx, text, rule, spans)
  {
    LoopPushesPrefix(ctx, text, rule, spans, problems, 0);
    TakeAll(Diagnoses(ctx, text, rule, spans), |spans|);
  }

  /** The blocks of the first `n` loops are the first `n` blocks. */
  lemma BlocksPrefix(ctx: Context, text: string, rules: seq<ScanRule>, spans: seq<seq<Span>>, n: nat)
    requires |rules| == |spans| && n <= |rules|
    ensures Blocks(ctx, text, rules[..n], spans[..n]) == Blocks(ctx, text, rules, spans)[..n]
  {
  }

  /** A loop's matches are among all the matches. */
  lemma {:induction false} BlockWithin<T>(xs: seq<seq<T>>, k: nat)
    requires k < |xs|
    ensures |xs[k]| <= |Concat(xs)|
    decreases |xs|
  {
    var n := |xs| - 1;
    if k < n {
      BlockWithin(xs[..n], k);
    }
  }

  /** The loops on one count push as many entries as there are matches, up
      to the limit, and those entries are the first ones the loops would push
      with no limit. */
  lemma SharedLength(ctx: Context, text: string, rules: seq<ScanRule>, spans: seq<seq<Span>>, b: nat)
    requires |rules| == |spans|
    ensures |Shared(Blocks(ctx, text, rules, spans), b)| == Min(|Concat(spans)|, b)
    ensures Shared(Blocks(ctx, text, rules, spans), b)
      == Concat(Blocks(ctx, text, rules, spans))[..Min(|Concat(spans)|, b)]
  {
    ConcatLengths(Blocks(ctx, text, rules, spans), spans);
    SharedIsPrefix(Blocks(ctx, text, rules, spans), b);
  }

  /** When the matches fit in what is left of the limit, sharing the count
      makes no difference: the loops push what they would push each handed
      the caller's count. */
  lemma SharedAgreesWithFamily(ctx: Context, text: string, rules: seq<ScanRule>, spans: seq<seq<Span>>, problems: int)
    requires |rules| == |spans|
    requires problems + |Concat(spans)| <= ctx.maxProblems
    ensures Shared(Blocks(ctx, text, rules, spans), Budget(ctx, problems)) == Family(ctx, text, rules, spans, problems)
  {
    var blocks := Blocks(ctx, text, rules, spans);
    ConcatLengths(blocks, spans);
    SharedKeepsAll(blocks, Budget(ctx, problems));
    forall k | 0 <= k < |spans|
      ensures |spans[k]| <= Budget(ctx, problems)
    {
      BlockWithin(spans, k);
    }
    FamilyPushesAll(ctx, text, rules, spans, problems);
  }

  /** The inline 1.3.1 loops report the whole match, not the match without
      its first and last character as the check module does. */
  function Untrimmed(rule: ScanRule): (r: ScanRule)
    ensures r.style == Raw && r.message == rule.message && r.source == rule.source && r.related == rule.related
  {
    rule.(style := Raw)
  }

  /** The inline rules, in the order the loops run: 1.3.1 (eight), 1.3.4,
      1.3.5 (two), 1.4.4, 2.1.1 (two), 2.5.3 (four), 4.1.3. Where the inline
      text differs from the module's, the inline text is written out: the
      suggestions escape their angle brackets, and three of the 2.5.3 loops
      cite criterion 1.3.1. */
  const InlineRules: seq<ScanRule> := [
    Untrimmed(Wcag131.RuleNav), Untrimmed(Wcag131.RuleFooter), Untrimmed(Wcag131.RuleMain),
    Untrimmed(Wcag131.RuleHeader), Untrimmed(Wcag131.RuleNavRole), Untrimmed(Wcag131.RuleAside),
    Untrimmed(Wcag131.RuleFooterRole),
    Untrimmed(Wcag131.RuleSpanFont).(related :=
      ["Remove this from its style. Use the appropriate HTML tag instead of &lt;span&gt;&lt;/span&gt;."]),
    Wcag134.Rule134,
    Wcag135.Rule135a.(related := ["Please add a `name` attribute (ex: &lt;input name=\"\"/&gt;)"]),
    Wcag135.Rule135b,
    Wcag144.Rule144,
    Wcag211.Rule211a.(related := ["Please change this to &lt;button&gt;&lt;/button&gt;",
      "Please change the `class` attribute to `role` and add `tabindex=\"0\"` (ex: &lt;div role=\"button\" tabindex=\"0\"&gt;&lt;/div&gt;)"]),
    Wcag211.Rule211b,
    Untrimmed(Wcag253.RuleButton),
    Untrimmed(Wcag253.RuleInput).(source := Wcag131.Source),
    Untrimmed(Wcag253.RuleTextarea).(source := Wcag131.Source),
    Untrimmed(Wcag253.RuleSelect).(source := Wcag131.Source),
    Wcag413.Rule413
  ]

  /** The matches of the inline patterns, loop by loop; they are the check
      modules' patterns. */
  function InlineSpans(text: string, footer: seq<Span>): (r: seq<seq<Span>>)
    ensures |r| == 19
  {
    Wcag131.Spans(text, footer) + [Wcag134.Matches(text)] + Wcag135.Spans(text)
      + [Wcag144.Matches(text), Wcag211.MatchesA(text), Wcag211.MatchesB(text)]
      + Wcag253.Spans(text) + [Wcag413.Matches(text)]
  }

  /** The inline battery from the count `problems`: all nineteen loops
      together push no more than the limit leaves, and exactly that many
      when there are enough matches; what they push is the start of what
      they would push with no limit. */
  function Inline(ctx: Context, text: string, footer: seq<Span>, problems: int): (r: seq<Diagnostic>)
    ensures |r| == Min(|Concat(InlineSpans(text, footer))|, Budget(ctx, problems))
  {
    SharedLength(ctx, text, InlineRules, InlineSpans(text, footer), Budget(ctx, problems));
    Shared(Blocks(ctx, text, InlineRules, InlineSpans(text, footer)), Budget(ctx, problems))
  }
}
