/** What every scanner rule shares: how a global (`g`-flagged) regular
    expression walks the document with `exec`, and how the `while` loop around
    it turns matches into diagnostics until the caller's problem count reaches
    the limit. The pattern itself is a matcher: the end of the match the
    pattern finds when tried at one offset, if any. */
module Scan {
  import opened Wrappers
  import opened Strings
  import opened Lsp

  /** One match: `m.index` and `m.index + m[0].length`. */
  datatype Span = Span(index: nat, end: nat)

  /** A pattern tried at one offset of a text: where its match ends, if it
      matches there. */
  type Matcher = (string, nat) -> Option<nat>

  /** Every match the matcher reports is non-empty and inside the text. */
  ghost predicate Advances(m: Matcher, s: string) {
    forall i: nat :: m(s, i).Some? ==> i < m(s, i).value <= |s|
  }

  /** `'` or `"`, the quotes the patterns accept around attribute values. */
  predicate IsQuoteMark(c: char) {
    c == '\'' || c == '"'
  }

  /** The successive results of `re.exec(text)` from `lastIndex = from` until it
      returns null: each search takes the leftmost offset where the pattern
      matches, and the next one resumes where that match ended. */
  function Exec(m: Matcher, s: string, from: nat): (r: seq<Span>)
    requires Advances(m, s)
    ensures forall k :: 0 <= k < |r| ==> from <= r[k].index < r[k].end <= |s|
    ensures forall k :: 0 <= k < |r| ==> m(s, r[k].index) == Some(r[k].end)
    ensures forall k :: 0 < k < |r| ==> r[k - 1].end <= r[k].index
    decreases |s| - from
  {
    if from >= |s| then []
    else match m(s, from)
      case Some(e) => [Span(from, e)] + Exec(m, s, e)
      case None => Exec(m, s, from + 1)
  }

  /** Offset `i` lies inside none of the spans. */
  predicate Uncovered(spans: seq<Span>, i: nat) {
    forall k :: 0 <= k < |spans| ==> !(spans[k].index <= i < spans[k].end)
  }

  /** An independent description of what a global search from `from` finds:
      the spans are matches, in order and disjoint, and the pattern matches at
      no offset that they leave uncovered. */
  ghost predicate Leftmost(m: Matcher, s: string, from: nat, spans: seq<Span>) {
    (forall k :: 0 <= k < |spans| ==> from <= spans[k].index < spans[k].end && m(s, spans[k].index) == Some(spans[k].end))
    && (forall k :: 0 < k < |spans| ==> spans[k - 1].end <= spans[k].index)
    && (forall i: nat :: from <= i < |s| && Uncovered(spans, i) ==> m(s, i).None?)
  }

  /** Every offset where the pattern matches lies inside a span the search
      reports: a match is found or overlapped by an earlier one, never missed. */
  lemma MatchCovered(m: Matcher, s: string, i: nat)
    requires Advances(m, s)
    requires i < |s| && m(s, i).Some?
    ensures exists k :: 0 <= k < |Exec(m, s, 0)| && Exec(m, s, 0)[k].index <= i < Exec(m, s, 0)[k].end
  {
    if Uncovered(Exec(m, s, 0), i) {
      ExecLeavesNoMatch(m, s, 0, i);
    }
  }

  /** How far `[^>]*` reaches from `p`: the first `>`, or the end of the text. */
  function TagEnd(s: string, p: nat): (r: nat)
    ensures p <= |s| ==> p <= r <= |s|
    ensures forall j :: p <= j < r && j < |s| ==> s[j] != '>'
    ensures r < |s| ==> s[r] == '>'
  {
    var g := FindChar(s, p, '>');
    if g < 0 then (if p <= |s| then |s| else p) else g
  }

  /** Offsets where nothing matches are skipped. */
  lemma {:induction false} ExecSkips(m: Matcher, s: string, from: nat, stop: nat)
    requires Advances(m, s)
    requires from <= stop
    requires forall i: nat :: from <= i < stop && i < |s| ==> m(s, i).None?
    ensures Exec(m, s, from) == Exec(m, s, stop)
    decreases stop - from
  {
    if from < stop && from < |s| {
      ExecSkips(m, s, from + 1, stop);
    }
  }

  /** The global search finds exactly the leftmost matches. */
  lemma ExecIsLeftmost(m: Matcher, s: string, from: nat)
    requires Advances(m, s)
    ensures Leftmost(m, s, from, Exec(m, s, from))
  {
    forall i: nat | from <= i < |s| && Uncovered(Exec(m, s, from), i)
      ensures m(s, i).None?
    {
      ExecLeavesNoMatch(m, s, from, i);
    }
  }

  /** An offset the global search passes over without covering it is one where nothing matches. */
  lemma {:induction false} ExecLeavesNoMatch(m: Matcher, s: string, from: nat, i: nat)
    requires Advances(m, s)
    requires from <= i < |s| && Uncovered(Exec(m, s, from), i)
    ensures m(s, i).None?
    decreases |s| - from
  {
    var r := Exec(m, s, from);
    match m(s, from)
    case None =>
      if i > from {
        ExecLeavesNoMatch(m, s, from + 1, i);
      }
    case Some(e) =>
      var rest := Exec(m, s, e);
      assert r == [Span(from, e)] + rest;
      assert !(r[0].index <= i < r[0].end);
      forall k | 0 <= k < |rest|
        ensures !(rest[k].index <= i < rest[k].end)
      {
        assert rest[k] == r[k + 1];
      }
      assert Uncovered(rest, i);
      ExecLeavesNoMatch(m, s, e, i);
  }

  /** And nothing else is: the leftmost matches determine the search's result. */
  lemma {:induction false} LeftmostIsExec(m: Matcher, s: string, from: nat, spans: seq<Span>)
    requires Advances(m, s)
    requires Leftmost(m, s, from, spans)
    ensures spans == Exec(m, s, from)
    decreases |s| - from
  {
    if |spans| == 0 {
      if from < |s| {
        assert forall i: nat :: Uncovered(spans, i);
        ExecSkips(m, s, from, |s|);
      }
    } else {
      var sp := spans[0];
      LeftmostHead(m, s, from, spans);
      ExecSkips(m, s, from, sp.index);
      assert Exec(m, s, sp.index) == [sp] + Exec(m, s, sp.end);
      LeftmostTail(m, s, from, spans);
      LeftmostIsExec(m, s, sp.end, spans[1..]);
      assert spans == [sp] + spans[1..];
    }
  }

  /** Before the first leftmost span nothing matches. */
  lemma LeftmostHead(m: Matcher, s: string, from: nat, spans: seq<Span>)
    requires Advances(m, s)
    requires Leftmost(m, s, from, spans) && |spans| > 0
    ensures spans[0].end <= |s|
    ensures forall i: nat :: from <= i < spans[0].index && i < |s| ==> m(s, i).None?
  {
    assert m(s, spans[0].index) == Some(spans[0].end);
    forall i: nat | from <= i < spans[0].index && i < |s|
      ensures m(s, i).None?
    {
      forall k | 0 <= k < |spans|
        ensures !(spans[k].index <= i < spans[k].end)
      {
        if k > 0 {
          LaterSpansStartLater(spans, k);
        }
      }
      assert Uncovered(spans, i);
    }
  }

  /** The spans after the first are the leftmost matches from where the first ends. */
  lemma LeftmostTail(m: Matcher, s: string, from: nat, spans: seq<Span>)
    requires Leftmost(m, s, from, spans) && |spans| > 0
    ensures Leftmost(m, s, spans[0].end, spans[1..])
  {
    var rest := spans[1..];
    forall i: nat | spans[0].end <= i < |s| && Uncovered(rest, i)
      ensures m(s, i).None?
    {
      forall k | 0 <= k < |spans|
        ensures !(spans[k].index <= i < spans[k].end)
      {
        if k > 0 {
          assert spans[k] == rest[k - 1];
        }
      }
      assert Uncovered(spans, i);
    }
    forall k | 0 <= k < |rest|
      ensures spans[0].end <= rest[k].index
    {
      assert rest[k] == spans[k + 1];
      if k > 0 {
        LaterSpansStartLater(spans, k + 1);
      }
    }
  }

  /** In an ordered list of disjoint spans every later span starts after the first ends. */
  lemma {:induction false} LaterSpansStartLater(spans: seq<Span>, k: nat)
    requires 0 < k < |spans|
    requires forall j :: 0 <= j < |spans| ==> spans[j].index < spans[j].end
    requires forall j :: 0 < j < |spans| ==> spans[j - 1].end <= spans[j].index
    ensures spans[0].end <= spans[k].index
    decreases k
  {
    if k > 1 {
      LaterSpansStartLater(spans, k - 1);
    }
  }

  /** A pattern that can only match at offset 0 is found at most once. */
  lemma AnchoredAtMostOnce(m: Matcher, s: string)
    requires Advances(m, s)
    requires forall i: nat :: i > 0 ==> m(s, i).None?
    ensures |Exec(m, s, 0)| <= 1
    ensures |Exec(m, s, 0)| == 1 ==> Exec(m, s, 0)[0].index == 0
  {
    if |s| > 0 {
      match m(s, 0)
      case Some(e) =>
        ExecSkips(m, s, e, |s|);
      case None =>
        ExecSkips(m, s, 1, |s|);
    }
  }

  /** A pattern whose every match runs to the end of the text is found at most once. */
  lemma EndAnchoredAtMostOnce(m: Matcher, s: string)
    requires Advances(m, s)
    requires forall i: nat :: m(s, i).Some? ==> m(s, i).value == |s|
    ensures |Exec(m, s, 0)| <= 1
    ensures |Exec(m, s, 0)| == 1 ==> Exec(m, s, 0)[0].end == |s|
  {
    EndAnchoredFrom(m, s, 0);
  }

  lemma {:induction false} EndAnchoredFrom(m: Matcher, s: string, from: nat)
    requires Advances(m, s)
    requires forall i: nat :: m(s, i).Some? ==> m(s, i).value == |s|
    ensures |Exec(m, s, from)| <= 1
    ensures |Exec(m, s, from)| == 1 ==> Exec(m, s, from)[0].end == |s|
    decreases |s| - from
  {
    if from < |s| {
      match m(s, from)
      case Some(e) =>
        assert Exec(m, s, e) == [];
      case None =>
        EndAnchoredFrom(m, s, from + 1);
    }
  }

  /** The units a length pattern accepts after its digits: `px`, or `px|pt`. */
  datatype Units = Px | PxOrPt

  predicate UnitAt(s: string, d: nat, units: Units) {
    StartsAt(s, d, "px") || (units == PxOrPt && StartsAt(s, d, "pt"))
  }

  /** `\d+` followed by a unit, tried at `j`: greedy digits leave no room to
      backtrack, since a shorter run is followed by a digit. */
  predicate LengthAt(s: string, j: nat, units: Units)
    requires j <= |s|
  {
    j < |s| && IsDigit(s[j]) && UnitAt(s, SkipDigits(s, j), units)
  }

  /** The lazy `.*?` in front of `\d+px`: the first offset from `from`, on the
      same line, where a length begins. */
  function FirstLength(s: string, from: nat, units: Units): (r: Option<nat>)
    requires from <= |s|
    ensures r.Some? ==> from <= r.value < LineEnd(s, from) && LengthAt(s, r.value, units)
    ensures r.None? ==> forall j :: from <= j < LineEnd(s, from) ==> !LengthAt(s, j, units)
    ensures r.Some? ==> forall j :: from <= j < r.value ==> !LengthAt(s, j, units)
    decreases |s| - from
  {
    if from == |s| || IsLineTerminator(s[from]) then None
    else if LengthAt(s, from, units) then Some(from)
    else FirstLength(s, from + 1, units)
  }

  /** Where the match of `.*?\d+px` started at `from` ends: just after the unit. */
  function LengthEnd(s: string, from: nat, units: Units): (r: Option<nat>)
    requires from <= |s|
    ensures r.Some? <==> FirstLength(s, from, units).Some?
    ensures r.Some? ==> r.value == SkipDigits(s, FirstLength(s, from, units).value) + 2
    ensures r.Some? ==> from + 3 <= r.value <= LineEnd(s, from) && r.value <= |s|
    ensures r.Some? ==> IsDigit(s[r.value - 3]) && (StartsAt(s, r.value - 2, "px") || (units == PxOrPt && StartsAt(s, r.value - 2, "pt")))
  {
    match FirstLength(s, from, units)
    case None => None
    case Some(j) =>
      var d := SkipDigits(s, j);
      assert s[d] == 'p' && s[d + 1] in "xt" by {
        assert s[d..d + 2][0] == s[d] && s[d..d + 2][1] == s[d + 1];
      }
      LineEndSkips(s, from, d + 2);
      Some(d + 2)
  }

  /** The end of the line does not come before a stretch of characters that are no line terminators. */
  lemma {:induction false} LineEndSkips(s: string, from: nat, stop: nat)
    requires from <= stop <= |s|
    requires forall j :: from <= j < stop ==> !IsLineTerminator(s[j])
    ensures stop <= LineEnd(s, from)
    decreases stop - from
  {
    if from < stop {
      LineEndSkips(s, from + 1, stop);
    }
  }

  /** Where a rule's diagnostics are placed: the raw match bounds, or the
      match minus its first and last character. */
  datatype RangeStyle = Raw | Trimmed

  /** What one `while` loop writes for each match: its range style, message,
      source, and the messages of its related items. */
  datatype ScanRule = ScanRule(style: RangeStyle, message: string, source: string, related: seq<string>)

  /** What a check leaves behind: the diagnostics it pushed, and whether it
      ended by throwing. */
  datatype Outcome = Outcome(diagnostics: seq<Diagnostic>, aborted: bool)

  /** The range of the diagnostic for `sp`. */
  function SpanRange(text: string, style: RangeStyle, sp: Span): (r: Range)
    ensures style == Raw ==> r == Range(PositionAt(text, sp.index), PositionAt(text, sp.end))
    ensures style == Trimmed ==> r == Range(PositionAt(text, sp.index + 1), PositionAt(text, sp.end - 1))
  {
    match style
    case Raw => Range(PositionAt(text, sp.index), PositionAt(text, sp.end))
    case Trimmed => Range(PositionAt(text, sp.index + 1), PositionAt(text, sp.end - 1))
  }

  /** The related items: one per message, each pointing at the diagnostic's
      own range; nothing without the capability. */
  function RelatedAll(ctx: Context, range: Range, messages: seq<string>): (r: Option<seq<Related>>)
    ensures r.Some? <==> ctx.relatedCapability
    ensures r.Some? ==> |r.value| == |messages|
    ensures r.Some? ==> forall k :: 0 <= k < |messages| ==> r.value[k] == Related(Location(ctx.uri, range), Some(messages[k]))
  {
    if ctx.relatedCapability then Some(seq(|messages|, k requires 0 <= k < |messages| => Related(Location(ctx.uri, range), Some(messages[k]))))
    else None
  }

  /** The diagnostic one loop iteration pushes for `sp`. */
  function Diagnose(ctx: Context, text: string, rule: ScanRule, sp: Span): (d: Diagnostic)
    ensures d.severity == Warning && d.message == rule.message && d.source == rule.source
    ensures d.range == SpanRange(text, rule.style, sp)
    ensures d.related == RelatedAll(ctx, d.range, rule.related)
  {
    var range := SpanRange(text, rule.style, sp);
    Diagnostic(Warning, range, rule.message, rule.source, RelatedAll(ctx, range, rule.related))
  }

  /** How many more diagnostics a loop may push when the count stands at `problems`. */
  function Budget(ctx: Context, problems: int): (b: nat)
    ensures problems >= ctx.maxProblems ==> b == 0
    ensures problems < ctx.maxProblems ==> problems + b == ctx.maxProblems
  {
    if problems >= ctx.maxProblems then 0 else ctx.maxProblems - problems
  }

  function Min(a: nat, b: nat): nat {
    if a <= b then a else b
  }

  /** What one `while ((m = re.exec(text)) && problems < max)` loop pushes: the
      diagnostics of the first matches, one per match, as many as the budget
      allows. */
  function Emit(ctx: Context, text: string, rule: ScanRule, spans: seq<Span>, problems: int): (r: seq<Diagnostic>)
    ensures |r| == Min(|spans|, Budget(ctx, problems))
    ensures forall k :: 0 <= k < |r| ==> r[k] == Diagnose(ctx, text, rule, spans[k])
    decreases |spans|
  {
    if |spans| == 0 || problems >= ctx.maxProblems then []
    else [Diagnose(ctx, text, rule, spans[0])] + Emit(ctx, text, rule, spans[1..], problems + 1)
  }

  /** The loop itself, with the caller's `diagnostics` array and the local
      `problems` count: it appends `Emit`'s entries and counts each of them. */
  method RunRule(ctx: Context, text: string, rule: ScanRule, spans: seq<Span>, diagnostics: seq<Diagnostic>, problems: int)
    returns (ds: seq<Diagnostic>, count: int)
    ensures ds == diagnostics + Emit(ctx, text, rule, spans, problems)
    ensures count == problems + |Emit(ctx, text, rule, spans, problems)|
  {
    ds, count := diagnostics, problems;
    var k := 0;
    ghost var all := Emit(ctx, text, rule, spans, problems);
    while k < |spans| && count < ctx.maxProblems
      invariant 0 <= k <= |spans|
      invariant count == problems + k
      invariant k <= |all|
      invariant ds == diagnostics + all[..k]
    {
      ds := ds + [Diagnose(ctx, text, rule, spans[k])];
      PrefixSnoc(diagnostics, all, k);
      count := count + 1;
      k := k + 1;
    }
    assert all[..k] == all;
  }

  /** Growing a prefix by one element. */
  lemma PrefixSnoc<T>(front: seq<T>, xs: seq<T>, k: nat)
    requires k < |xs|
    ensures front + xs[..k + 1] == (front + xs[..k]) + [xs[k]]
  {
    assert xs[..k + 1] == xs[..k] + [xs[k]];
  }

  /** What a check made of several loops pushes: each rule's loop in turn,
      all of them handed the same count, since JavaScript passes `problems`
      by value and no loop sees what an earlier one counted. */
  function Family(ctx: Context, text: string, rules: seq<ScanRule>, spans: seq<seq<Span>>, problems: int): (r: seq<Diagnostic>)
    requires |rules| == |spans|
    decreases |rules|
  {
    if |rules| == 0 then []
    else
      var n := |rules| - 1;
      Family(ctx, text, rules[..n], spans[..n], problems) + Emit(ctx, text, rules[n], spans[n], problems)
  }

  /** Each loop is capped on its own: a check of `n` loops may push up to `n`
      times what the count had left. */
  lemma {:induction false} FamilyBound(ctx: Context, text: string, rules: seq<ScanRule>, spans: seq<seq<Span>>, problems: int)
    requires |rules| == |spans|
    ensures |Family(ctx, text, rules, spans, problems)| <= |rules| * Budget(ctx, problems)
    decreases |rules|
  {
    if |rules| > 0 {
      var n := |rules| - 1;
      var b := Budget(ctx, problems);
      FamilyBound(ctx, text, rules[..n], spans[..n], problems);
      assert |Emit(ctx, text, rules[n], spans[n], problems)| <= b;
      MulStep(n, b);
    }
  }

  /** When the count has reached the limit, no loop pushes anything. */
  lemma {:induction false} FamilyExhausted(ctx: Context, text: string, rules: seq<ScanRule>, spans: seq<seq<Span>>, problems: int)
    requires |rules| == |spans| && problems >= ctx.maxProblems
    ensures Family(ctx, text, rules, spans, problems) == []
    decreases |rules|
  {
    if |rules| > 0 {
      FamilyExhausted(ctx, text, rules[..|rules| - 1], spans[..|spans| - 1], problems);
    }
  }

  /** A check of two loops pushes what the first loop pushes, then what the second does. */
  lemma FamilyPair(ctx: Context, text: string, rules: seq<ScanRule>, spans: seq<seq<Span>>, problems: int)
    requires |rules| == |spans| == 2
    ensures Family(ctx, text, rules, spans, problems)
      == Emit(ctx, text, rules[0], spans[0], problems) + Emit(ctx, text, rules[1], spans[1], problems)
  {
    var front, spans1 := rules[..1], spans[..1];
    assert front[..0] == [] && spans1[..0] == [];
    assert Family(ctx, text, front, spans1, problems) == Emit(ctx, text, rules[0], spans[0], problems);
  }

  /** A check of four loops pushes what each loop pushes, in order. */
  lemma FamilyQuad(ctx: Context, text: string, rules: seq<ScanRule>, spans: seq<seq<Span>>, problems: int)
    requires |rules| == |spans| == 4
    ensures Family(ctx, text, rules, spans, problems)
      == Emit(ctx, text, rules[0], spans[0], problems) + Emit(ctx, text, rules[1], spans[1], problems)
         + Emit(ctx, text, rules[2], spans[2], problems) + Emit(ctx, text, rules[3], spans[3], problems)
  {
    var rules3, spans3 := rules[..3], spans[..3];
    assert rules3[..2] == rules[..2] && spans3[..2] == spans[..2];
    FamilyPair(ctx, text, rules[..2], spans[..2], problems);
    assert Family(ctx, text, rules3, spans3, problems)
        == Family(ctx, text, rules[..2], spans[..2], problems) + Emit(ctx, text, rules[2], spans[2], problems);
  }

  /** A check whose rules all cite `src` pushes only diagnostics citing `src`. */
  lemma {:induction false} FamilySource(ctx: Context, text: string, rules: seq<ScanRule>, spans: seq<seq<Span>>, problems: int, src: string)
    requires |rules| == |spans|
    requires forall k :: 0 <= k < |rules| ==> rules[k].source == src
    ensures forall k :: 0 <= k < |Family(ctx, text, rules, spans, problems)| ==> Family(ctx, text, rules, spans, problems)[k].source == src
    decreases |rules|
  {
    if |rules| > 0 {
      var n := |rules| - 1;
      FamilySource(ctx, text, rules[..n], spans[..n], problems, src);
    }
  }

  /** The loops themselves, run in order on one diagnostics array, each
      starting from the caller's count. */
  method RunFamily(ctx: Context, text: string, rules: seq<ScanRule>, spans: seq<seq<Span>>, diagnostics: seq<Diagnostic>, problems: int)
    returns (ds: seq<Diagnostic>)
    requires |rules| == |spans|
    ensures ds == diagnostics + Family(ctx, text, rules, spans, problems)
  {
    ds := diagnostics;
    for k := 0 to |rules|
      invariant ds == diagnostics + Family(ctx, text, rules[..k], spans[..k], problems)
    {
      var count;
      ghost var before := ds;
      ds, count := RunRule(ctx, text, rules[k], spans[k], ds, problems);
      assert rules[..k + 1][..k] == rules[..k] && spans[..k + 1][..k] == spans[..k];
      AppendAssoc(diagnostics, Family(ctx, text, rules[..k], spans[..k], problems), Emit(ctx, text, rules[k], spans[k], problems));
    }
    assert rules[..|rules|] == rules && spans[..|spans|] == spans;
  }

  lemma MulStep(n: nat, b: nat)
    ensures (n + 1) * b == n * b + b
  {
  }

  lemma AppendAssoc<T>(a: seq<T>, b: seq<T>, c: seq<T>)
    ensures (a + b) + c == a + (b + c)
  {
  }

  /** A trimmed range of a match of at least two characters never runs backwards. */
  lemma TrimmedRangeOrdered(text: string, sp: Span)
    requires sp.end >= sp.index + 2
    ensures PosLe(SpanRange(text, Trimmed, sp).start, SpanRange(text, Trimmed, sp).end)
  {
    PositionAtMonotone(text, sp.index + 1, sp.end - 1);
  }

  /** Nor does a raw range. */
  lemma RawRangeOrdered(text: string, sp: Span)
    requires sp.index <= sp.end
    ensures PosLe(SpanRange(text, Raw, sp).start, SpanRange(text, Raw, sp).end)
  {
    PositionAtMonotone(text, sp.index, sp.end);
  }
}
