/** The regular-expression battery: every criterion's check, in a fixed
    order, on one diagnostics array. */
module Wcag {
  import opened Lsp
  import opened Scan
  import Wcag131
  import Wcag134
  import Wcag135
  import Wcag144
  import Wcag211
  import Wcag253
  import Wcag413

  /** Where a citation's check stands in the battery; 7 for any other citation. */
  function Rank(src: string): (n: nat)
    ensures n <= 7
  {
    if src == Wcag131.Source then 0
    else if src == Wcag134.Source then 1
    else if src == Wcag135.Source then 2
    else if src == Wcag144.Source then 3
    else if src == Wcag211.Source then 4
    else if src == Wcag253.Source then 5
    else if src == Wcag413.Source then 6
    else 7
  }

  /** Where each check's citation stands. */
  lemma Ranks()
    ensures Rank(Wcag131.Source) == 0 && Rank(Wcag134.Source) == 1 && Rank(Wcag135.Source) == 2
    ensures Rank(Wcag144.Source) == 3 && Rank(Wcag211.Source) == 4 && Rank(Wcag253.Source) == 5
    ensures Rank(Wcag413.Source) == 6
  {
  }

  /** The diagnostics come grouped by criterion, in battery order. */
  predicate Grouped(ds: seq<Diagnostic>) {
    forall k, l :: 0 <= k < l < |ds| ==> Rank(ds[k].source) <= Rank(ds[l].source)
  }

  /** Every diagnostic ranks at most `n`. */
  predicate RankedBelow(ds: seq<Diagnostic>, n: nat) {
    forall k :: 0 <= k < |ds| ==> Rank(ds[k].source) <= n
  }

  /** Every diagnostic ranks at least `n`. */
  predicate RankedAbove(ds: seq<Diagnostic>, n: nat) {
    forall k :: 0 <= k < |ds| ==> n <= Rank(ds[k].source)
  }

  /** Every diagnostic ranks exactly `n`. */
  predicate RankedAt(ds: seq<Diagnostic>, n: nat) {
    forall k :: 0 <= k < |ds| ==> Rank(ds[k].source) == n
  }

  /** A block whose entries all cite `src` ranks as `src` does. */
  lemma CiteRanks(ds: seq<Diagnostic>, src: string)
    requires forall k :: 0 <= k < |ds| ==> ds[k].source == src
    ensures RankedAt(ds, Rank(src))
  {
  }

  /** Appending a block that ranks `n`, no earlier than anything before it,
      keeps the list grouped. */
  lemma GroupedAppend(a: seq<Diagnostic>, b: seq<Diagnostic>, n: nat)
    requires Grouped(a) && RankedBelow(a, n) && RankedAt(b, n)
    ensures Grouped(a + b) && RankedBelow(a + b, n)
  {
    var c := a + b;
    forall k, l | 0 <= k < l < |c|
      ensures Rank(c[k].source) <= Rank(c[l].source)
    {
      if l < |a| {
        assert c[k] == a[k] && c[l] == a[l];
      } else if k < |a| {
        assert c[k] == a[k] && c[l] == b[l - |a|];
      } else {
        assert c[k] == b[k - |a|] && c[l] == b[l - |a|];
      }
    }
  }

  /** Two grouped lists, every entry of the first ranked no later than every
      entry of the second, make a grouped list. */
  lemma GroupedJoin(a: seq<Diagnostic>, b: seq<Diagnostic>, n: nat)
    requires Grouped(a) && RankedBelow(a, n) && Grouped(b) && RankedAbove(b, n)
    ensures Grouped(a + b)
  {
    var c := a + b;
    forall k, l | 0 <= k < l < |c|
      ensures Rank(c[k].source) <= Rank(c[l].source)
    {
      if l < |a| {
        assert c[k] == a[k] && c[l] == a[l];
      } else if k < |a| {
        assert c[k] == a[k] && c[l] == b[l - |a|];
      } else {
        assert c[k] == b[k - |a|] && c[l] == b[l - |a|];
      }
    }
  }

  /** Four blocks ranked 0, 1, 2 and 3 make a grouped list, in that order. */
  lemma RankedRun(a: seq<Diagnostic>, b: seq<Diagnostic>, c: seq<Diagnostic>, d: seq<Diagnostic>)
    requires RankedAt(a, 0) && RankedAt(b, 1) && RankedAt(c, 2) && RankedAt(d, 3)
    ensures Grouped(a + b + c + d) && RankedBelow(a + b + c + d, 3)
  {
    assert [] + a == a;
    GroupedAppend([], a, 0);
    GroupedAppend(a, b, 1);
    GroupedAppend(a + b, c, 2);
    GroupedAppend(a + b + c, d, 3);
  }

  /** What the checks before 2.1.1 push: 1.3.1, 1.3.4, 1.3.5, then 1.4.4,
      grouped in that order, each of their twelve loops capped on its own. */
  function Before(ctx: Context, text: string, footer: seq<Span>, problems: int): (r: seq<Diagnostic>)
    ensures Grouped(r) && RankedBelow(r, 3)
    ensures |r| <= 12 * Budget(ctx, problems)
    ensures r == Wcag131.Check(ctx, text, footer, problems) + Wcag134.Check(ctx, text, problems)
                 + Wcag135.Check(ctx, text, problems) + Wcag144.Check(ctx, text, problems)
  {
    var c131 := Wcag131.Check(ctx, text, footer, problems);
    var c134 := Wcag134.Check(ctx, text, problems);
    var c135 := Wcag135.Check(ctx, text, problems);
    var c144 := Wcag144.Check(ctx, text, problems);
    Ranks();
    CiteRanks(c131, Wcag131.Source);
    CiteRanks(c134, Wcag134.Source);
    CiteRanks(c135, Wcag135.Source);
    CiteRanks(c144, Wcag144.Source);
    RankedRun(c131, c134, c135, c144);
    c131 + c134 + c135 + c144
  }

  /** What the checks after 2.1.1 push: 2.5.3, then 4.1.3, grouped in that
      order, each of their five loops capped on its own. */
  function After(ctx: Context, text: string, problems: int): (r: seq<Diagnostic>)
    ensures Grouped(r) && RankedAbove(r, 5)
    ensures |r| <= 5 * Budget(ctx, problems)
    ensures r == Wcag253.Check(ctx, text, problems) + Wcag413.Check(ctx, text, problems)
  {
    var c253 := Wcag253.Check(ctx, text, problems);
    var c413 := Wcag413.Check(ctx, text, problems);
    Ranks();
    CiteRanks(c253, Wcag253.Source);
    CiteRanks(c413, Wcag413.Source);
    GroupedAppend(c253, c413, 6);
    c253 + c413
  }

  /** The array after the battery: the caller's entries, then what the checks
      before 2.1.1 push, then what 2.1.1 pushes, then, unless 2.1.1 threw,
      what the checks after it push. */
  function Assemble(diagnostics: seq<Diagnostic>, before: seq<Diagnostic>, o: Outcome, after: seq<Diagnostic>): (r: Outcome)
    ensures r.aborted == o.aborted
    ensures |diagnostics| + |before| + |o.diagnostics| <= |r.diagnostics|
    ensures |r.diagnostics| <= |diagnostics| + |before| + |o.diagnostics| + |after|
    ensures r.diagnostics[..|diagnostics|] == diagnostics
  {
    if o.aborted then Outcome(diagnostics + before + o.diagnostics, true)
    else Outcome(diagnostics + before + o.diagnostics + after, false)
  }

  /** `checkWCAG` on an array that already holds `diagnostics`: the seven
      checks in order, each handed the caller's count. When (b) of 2.1.1
      throws, the exception leaves the battery, so 2.5.3 and 4.1.3 never run,
      while what was pushed before stays in the array. */
  function Battery(ctx: Context, text: string, footer: seq<Span>, diagnostics: seq<Diagnostic>, problems: int): (r: Outcome)
    ensures r.aborted <==> |Wcag211.MatchesB(text)| > 0 && problems < ctx.maxProblems
    ensures |diagnostics| <= |r.diagnostics| && r.diagnostics[..|diagnostics|] == diagnostics
    ensures r.diagnostics
      == diagnostics + Before(ctx, text, footer, problems) + Wcag211.Check(ctx, text, problems).diagnostics
         + (if r.aborted then [] else After(ctx, text, problems))
  {
    Assemble(diagnostics, Before(ctx, text, footer, problems), Wcag211.Check(ctx, text, problems), After(ctx, text, problems))
  }

  /** Assembling grouped blocks in rank order gives a grouped block; a
      battery stopped by 2.1.1 ends at rank 4. */
  lemma AssembleGrouped(diagnostics: seq<Diagnostic>, before: seq<Diagnostic>, o: Outcome, after: seq<Diagnostic>)
    requires Grouped(before) && RankedBelow(before, 3) && RankedAt(o.diagnostics, 4)
    requires Grouped(after) && RankedAbove(after, 5)
    ensures Grouped(Assemble(diagnostics, before, o, after).diagnostics[|diagnostics|..])
    ensures o.aborted ==> RankedBelow(Assemble(diagnostics, before, o, after).diagnostics[|diagnostics|..], 4)
  {
    var r := Assemble(diagnostics, before, o, after);
    GroupedAppend(before, o.diagnostics, 4);
    if o.aborted {
      assert r.diagnostics[|diagnostics|..] == before + o.diagnostics;
    } else {
      assert r.diagnostics[|diagnostics|..] == before + o.diagnostics + after;
      GroupedJoin(before + o.diagnostics, after, 4);
    }
  }

  /** The battery's entries come grouped by criterion in battery order, and a
      battery stopped by 2.1.1 pushed nothing for 2.5.3 or 4.1.3. */
  lemma BatteryGrouped(ctx: Context, text: string, footer: seq<Span>, diagnostics: seq<Diagnostic>, problems: int)
    ensures Grouped(Battery(ctx, text, footer, diagnostics, problems).diagnostics[|diagnostics|..])
    ensures Battery(ctx, text, footer, diagnostics, problems).aborted
      ==> RankedBelow(Battery(ctx, text, footer, diagnostics, problems).diagnostics[|diagnostics|..], 4)
  {
    var o := Wcag211.Check(ctx, text, problems);
    Ranks();
    CiteRanks(o.diagnostics, Wcag211.Source);
    AssembleGrouped(diagnostics, Before(ctx, text, footer, problems), o, After(ctx, text, problems));
  }

  /** Each of the eighteen loops is capped on its own, so together they may
      push eighteen times what the count had left. */
  lemma BatteryBound(ctx: Context, text: string, footer: seq<Span>, diagnostics: seq<Diagnostic>, problems: int)
    ensures |Battery(ctx, text, footer, diagnostics, problems).diagnostics| <= |diagnostics| + 18 * Budget(ctx, problems)
  {
    var b := Budget(ctx, problems);
    assert |Before(ctx, text, footer, problems)| <= 12 * b;
    assert |Wcag211.Check(ctx, text, problems).diagnostics| <= b;
    assert |After(ctx, text, problems)| <= 5 * b;
  }

  /** When the count has reached the limit, the battery pushes nothing and
      does not throw. */
  lemma BatteryExhausted(ctx: Context, text: string, footer: seq<Span>, diagnostics: seq<Diagnostic>, problems: int)
    requires problems >= ctx.maxProblems
    ensures Battery(ctx, text, footer, diagnostics, problems) == Outcome(diagnostics, false)
  {
    assert Before(ctx, text, footer, problems) == [];
    assert Wcag211.Check(ctx, text, problems).diagnostics == [];
    assert diagnostics + [] + [] + After(ctx, text, problems) == diagnostics;
  }

  /** The count is not shared between checks: with room for one more entry,
      a `div` of class `button` and a status `div` without `aria-live` are
      both reported, two entries past the count's one. */
  lemma CountNotShared(ctx: Context, text: string, footer: seq<Span>, diagnostics: seq<Diagnostic>, problems: int)
    requires problems + 1 == ctx.maxProblems
    requires |Wcag211.MatchesA(text)| > 0 && |Wcag211.MatchesB(text)| == 0 && |Wcag413.Matches(text)| > 0
    ensures |Battery(ctx, text, footer, diagnostics, problems).diagnostics| >= |diagnostics| + 2 > |diagnostics| + Budget(ctx, problems)
  {
    var o := Wcag211.Check(ctx, text, problems);
    assert |o.diagnostics| == 1;
    assert |Wcag413.Check(ctx, text, problems)| == 1;
    assert |After(ctx, text, problems)| >= 1;
  }
}
