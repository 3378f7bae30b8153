/** Success criterion 1.3.1 (Info and Relationships): navigation without a
    list (a), a misplaced footer (b), landmarks without their role (c to g),
    and font declarations on `span` (h). */
module Wcag131 {
  import opened Wrappers
  import opened Strings
  import opened Lsp
  import opened Scan

  /** `<ul` or `</ul` at `j`: what `(?!<\\/?ul)` refuses to step over. */
  predicate ListTagAt(s: string, j: nat) {
    StartsAt(s, j, "<ul") || StartsAt(s, j, "</ul")
  }

  lemma ListTagOpens(s: string, j: nat)
    requires ListTagAt(s, j)
    ensures j < |s| && s[j] == '<'
  {
    if StartsAt(s, j, "<ul") {
      assert s[j..j + 3][0] == s[j];
    } else {
      assert s[j..j + 4][0] == s[j];
    }
  }

  /** Where `(?:(?!<\\/?ul)[\\s\\S])*` from `from` must stop: the first list tag, or the end. */
  function ListStop(s: string, from: nat): (r: nat)
    requires from <= |s|
    ensures from <= r <= |s|
    ensures forall j :: from <= j < r ==> !ListTagAt(s, j)
    ensures r < |s| ==> ListTagAt(s, r)
    decreases |s| - from
  {
    if from == |s| || ListTagAt(s, from) then from else ListStop(s, from + 1)
  }

  /** Pattern (a) tried at `i`: `<nav` and its first `>`, then the greedy
      run of characters that starts no list tag, backed off to the last
      `</nav>` inside it. */
  function MatchNav(s: string, i: nat): (r: Option<nat>)
    ensures r.Some? ==> i + 11 <= r.value <= |s|
    ensures r.Some? ==> StartsAt(s, i, "<nav") && StartsAt(s, r.value - 6, "</nav>")
    ensures r.Some? ==> forall j :: FindChar(s, i + 4, '>') < j < r.value ==> !ListTagAt(s, j)
  {
    if !StartsAt(s, i, "<nav") then None
    else
      var g := FindChar(s, i + 4, '>');
      if g < 0 then None
      else
        var u := ListStop(s, g + 1);
        var p := LastIndexIn(s, "</nav>", g + 1, u);
        if p < 0 then None
        else
          CloseNavHoldsNoList(s, p);
          Some(p + 6)
  }

  /** Past its `<`, a `</nav>` holds no list tag. */
  lemma CloseNavHoldsNoList(s: string, p: nat)
    requires StartsAt(s, p, "</nav>")
    ensures forall j :: p < j < p + 6 ==> !ListTagAt(s, j)
  {
    forall j | p < j < p + 6
      ensures !ListTagAt(s, j)
    {
      assert s[p..p + 6][j - p] == s[j];
      if ListTagAt(s, j) {
        ListTagOpens(s, j);
      }
    }
  }

  /** A `nav` whose content holds a list before any `</nav>` is not reported. */
  lemma NavWithListNotReported(s: string, i: nat, u: nat)
    requires StartsAt(s, i, "<nav") && FindChar(s, i + 4, '>') >= 0
    requires FindChar(s, i + 4, '>') < u && ListTagAt(s, u)
    requires forall p :: FindChar(s, i + 4, '>') < p < u ==> !StartsAt(s, p, "</nav>")
    ensures MatchNav(s, i).None?
  {
    var g := FindChar(s, i + 4, '>');
    assert u <= |s|;
    ListStopBefore(s, g + 1, u);
  }

  /** The run that refuses list tags stops at or before any list tag. */
  lemma {:induction false} ListStopBefore(s: string, from: nat, u: nat)
    requires from <= u <= |s| && ListTagAt(s, u)
    ensures ListStop(s, from) <= u
    decreases u - from
  {
    if from < u && !ListTagAt(s, from) {
      ListStopBefore(s, from + 1, u);
    }
  }

  /** A `nav` closed by `</nav>` with no list tag before it is reported, at
      least up to that `</nav>`. */
  lemma NavWithoutListReported(s: string, i: nat, p: nat)
    requires StartsAt(s, i, "<nav") && FindChar(s, i + 4, '>') >= 0
    requires FindChar(s, i + 4, '>') < p && StartsAt(s, p, "</nav>")
    requires forall j :: FindChar(s, i + 4, '>') < j <= p ==> !ListTagAt(s, j)
    ensures MatchNav(s, i).Some? && p + 6 <= MatchNav(s, i).value
  {
    var g := FindChar(s, i + 4, '>');
    ListStopAfter(s, g + 1, p);
  }

  /** The run that refuses list tags reaches past a stretch free of them. */
  lemma {:induction false} ListStopAfter(s: string, from: nat, p: nat)
    requires from <= p < |s|
    requires forall j :: from <= j <= p ==> !ListTagAt(s, j)
    ensures p < ListStop(s, from)
    decreases p - from
  {
    if from < p {
      ListStopAfter(s, from + 1, p);
    }
  }

  /** `role=` followed by `role` in quotes, either kind on either side, at `q`. */
  predicate RoleAt(s: string, q: nat, role: string) {
    StartsAt(s, q, "role=") && q + |role| + 6 < |s| && IsQuoteMark(s[q + 5])
    && StartsAt(s, q + 6, role) && IsQuoteMark(s[q + 6 + |role|])
  }

  /** The last `>` on the first line, or -1. */
  function FirstLineClose(s: string): (r: int)
    ensures r == -1 || (0 <= r < LineEnd(s, 0) && s[r] == '>')
    ensures r == -1 ==> forall j :: 0 <= j < LineEnd(s, 0) ==> s[j] != '>'
    ensures r >= 0 ==> forall j :: r < j < LineEnd(s, 0) ==> s[j] != '>'
  {
    LastCharIn(s, '>', 0, LineEnd(s, 0))
  }

  /** `(?!.*<tag.*role=["']role["'].*>)` at offset 0 fails when this holds:
      on the first line, `<tag`, later the role in quotes, and a `>` after it. */
  predicate RoleOnFirstLine(s: string, tag: string, role: string) {
    exists q, q2 :: 0 <= q && q + 1 + |tag| <= q2 && q2 + |role| + 7 <= FirstLineClose(s)
      && StartsAt(s, q, "<" + tag) && RoleAt(s, q2, role)
  }

  /** `<tag` on the first line with a `>` after it. */
  predicate TagOnFirstLine(s: string, tag: string) {
    exists q :: 0 <= q && q + 1 + |tag| <= FirstLineClose(s) && StartsAt(s, q, "<" + tag)
  }

  /** Patterns (c) to (g) tried at `i`. Without the `m` flag `^` holds at
      offset 0 only and `.` stops at the first line terminator, so the
      pattern sees the first line alone; the greedy `.*>` runs to its last `>`. */
  function Landmark(s: string, i: nat, tag: string, role: string): (r: Option<nat>)
    ensures r.Some? ==> i == 0 && 2 <= r.value <= |s| && s[r.value - 1] == '>'
    ensures r.Some? ==> TagOnFirstLine(s, tag) && !RoleOnFirstLine(s, tag, role)
    ensures r.Some? ==> r.value <= LineEnd(s, 0)
    ensures r.Some? ==> forall j :: r.value <= j < LineEnd(s, 0) ==> s[j] != '>'
  {
    if i != 0 || !TagOnFirstLine(s, tag) || RoleOnFirstLine(s, tag, role) then None
    else Some(FirstLineClose(s) + 1)
  }

  /** A landmark tag that appears only after the first line is never reported. */
  lemma LaterLinesIgnored(s: string, i: nat, tag: string, role: string)
    requires forall q :: 0 <= q < LineEnd(s, 0) ==> !StartsAt(s, q, "<" + tag)
    ensures Landmark(s, i, tag, role).None?
  {
  }

  /** A landmark tag on the first line that carries its role is not reported. */
  lemma RoledLandmarkNotReported(s: string, i: nat, tag: string, role: string, q: nat, q2: nat)
    requires StartsAt(s, q, "<" + tag) && RoleAt(s, q2, role)
    requires q + 1 + |tag| <= q2 && q2 + |role| + 7 <= FirstLineClose(s)
    ensures Landmark(s, i, tag, role).None?
  {
  }

  function MatchMain(s: string, i: nat): (r: Option<nat>)
    ensures r.Some? ==> i + 2 <= r.value <= |s|
  {
    Landmark(s, i, "main", "main")
  }

  function MatchHeader(s: string, i: nat): (r: Option<nat>)
    ensures r.Some? ==> i + 2 <= r.value <= |s|
  {
    Landmark(s, i, "header", "banner")
  }

  function MatchNavRole(s: string, i: nat): (r: Option<nat>)
    ensures r.Some? ==> i + 2 <= r.value <= |s|
  {
    Landmark(s, i, "nav", "navigation")
  }

  function MatchAside(s: string, i: nat): (r: Option<nat>)
    ensures r.Some? ==> i + 2 <= r.value <= |s|
  {
    Landmark(s, i, "aside", "complementary")
  }

  function MatchFooterRole(s: string, i: nat): (r: Option<nat>)
    ensures r.Some? ==> i + 2 <= r.value <= |s|
  {
    Landmark(s, i, "footer", "contentinfo")
  }

  /** Pattern (h) tried at `i`: `span {`, the first `font-` at least one
      character further on, then the first `}` at least one character after
      that. Every lazy part takes as little as it can, and a later `font-`
      has fewer `}` after it, so no other choice succeeds when this one fails. */
  function MatchSpanFont(s: string, i: nat): (r: Option<nat>)
    ensures r.Some? ==> i + 13 <= r.value <= |s| && s[r.value - 1] == '}'
    ensures r.Some? ==> StartsAt(s, i, "span {")
    ensures r.Some? ==> exists f :: i + 7 <= f && f + 6 < r.value && StartsAt(s, f, "font-")
  {
    if !StartsAt(s, i, "span {") then None
    else
      var f := IndexOf(s, "font-", i + 7);
      if f < 0 then None
      else
        var b := FindChar(s, f + 6, '}');
        if b < 0 then None else Some(b + 1)
  }

  /** A `span` rule with no `font-` in the rest of the text is not reported. */
  lemma FontlessSpanNotReported(s: string, i: nat)
    requires forall f :: i + 7 <= f ==> !StartsAt(s, f, "font-")
    ensures MatchSpanFont(s, i).None?
  {
  }

  /** The match runs to the first `}` after the first `font-`. */
  lemma SpanFontEnd(s: string, i: nat, f: nat, b: nat)
    requires StartsAt(s, i, "span {") && i + 7 <= f && StartsAt(s, f, "font-")
    requires forall g :: i + 7 <= g < f ==> !StartsAt(s, g, "font-")
    requires f + 6 <= b < |s| && s[b] == '}' && forall j :: f + 6 <= j < b ==> s[j] != '}'
    ensures MatchSpanFont(s, i) == Some(b + 1)
  {
    IndexOfIs(s, "font-", i + 7, f);
  }

  /** What pattern (b) must look like: it starts at `<footer` and its match
      closes with `</html>`. The pattern itself, with its nested lazy
      alternatives, is not modelled. */
  ghost predicate FooterMatcher(m: Matcher, s: string) {
    Advances(m, s)
    && forall i: nat :: m(s, i).Some? ==>
         StartsAt(s, i, "<footer") && i + 14 <= m(s, i).value && StartsAt(s, m(s, i).value - 7, "</html>")
  }

  lemma MatchersAdvance(s: string)
    ensures Advances(MatchNav, s) && Advances(MatchMain, s) && Advances(MatchHeader, s)
    ensures Advances(MatchNavRole, s) && Advances(MatchAside, s) && Advances(MatchFooterRole, s)
    ensures Advances(MatchSpanFont, s)
  {
  }

  /** The landmark patterns are anchored: each is reported at most once, at offset 0. */
  lemma LandmarkAtMostOnce(m: Matcher, s: string)
    requires m == MatchMain || m == MatchHeader || m == MatchNavRole || m == MatchAside || m == MatchFooterRole
    ensures |Exec(m, s, 0)| <= 1
    ensures |Exec(m, s, 0)| == 1 ==> Exec(m, s, 0)[0].index == 0
  {
    MatchersAdvance(s);
    AnchoredAtMostOnce(m, s);
  }

  /** The citation every diagnostic of this check carries. */
  const Source := "WCAG 2.1 | 1.3.1"

  const RuleNav := ScanRule(Trimmed,
    "Navbars should be more accessible. Provide structure and semantic meaning to the navigation links.",
    Source, ["Please use lists."])

  const RuleFooter := ScanRule(Trimmed,
    "The footer element must be in its proper place. There should also be only one footer element per page.",
    Source,
    ["Place the footer element after all other landmark elements and remove duplicates of the footer element, if any."])

  const RuleMain := ScanRule(Trimmed,
    "The main landmark element must have additional context.",
    Source, ["Add the appropriate role, main, to the landmark element."])

  const RuleHeader := ScanRule(Trimmed,
    "The header landmark element must have additional context.",
    Source, ["Add the appropriate role, banner, to the landmark element."])

  const RuleNavRole := ScanRule(Trimmed,
    "The nav landmark element must have additional context.",
    Source, ["Add the appropriate role, navigation, to the landmark element."])

  const RuleAside := ScanRule(Trimmed,
    "The aside landmark element must have additional context.",
    Source, ["Add the appropriate role, complementary, to the landmark element."])

  const RuleFooterRole := ScanRule(Trimmed,
    "The footer landmark element must have additional context.",
    Source, ["Add the appropriate role, contentinfo, to the landmark element."])

  const RuleSpanFont := ScanRule(Trimmed,
    "Span has a 'font' attribute. Try making it simpler and more intuitive.",
    Source,
    ["Remove this from its style. Use the appropriate HTML tag instead of <span></span>."])

  /** The eight rules, in the order `checkWCAG131` runs their loops. */
  const Rules: seq<ScanRule> :=
    [RuleNav, RuleFooter, RuleMain, RuleHeader, RuleNavRole, RuleAside, RuleFooterRole, RuleSpanFont]

  /** Every one of the eight rules cites this check's criterion. */
  lemma RulesCite()
    ensures forall k :: 0 <= k < |Rules| ==> Rules[k].source == Source
  {
  }

  /** The matches of the eight patterns, in the same order; those of (b),
      which is not written out here, are `footer`. */
  function Spans(text: string, footer: seq<Span>): (r: seq<seq<Span>>)
    ensures |r| == 8
  {
    MatchersAdvance(text);
    [Exec(MatchNav, text, 0), footer, Exec(MatchMain, text, 0), Exec(MatchHeader, text, 0),
     Exec(MatchNavRole, text, 0), Exec(MatchAside, text, 0), Exec(MatchFooterRole, text, 0), Exec(MatchSpanFont, text, 0)]
  }

  /** Every match of (b) is long enough that its trimmed range runs forwards. */
  lemma FooterRangesOrdered(m: Matcher, text: string, k: nat)
    requires FooterMatcher(m, text) && k < |Exec(m, text, 0)|
    ensures PosLe(SpanRange(text, Trimmed, Exec(m, text, 0)[k]).start, SpanRange(text, Trimmed, Exec(m, text, 0)[k]).end)
  {
    var sp := Exec(m, text, 0)[k];
    assert m(text, sp.index) == Some(sp.end);
    TrimmedRangeOrdered(text, sp);
  }

  /** So is every match of the other seven patterns: each holds at least
      two characters, and dropping the first and the last leaves a range
      that runs forwards. */
  lemma TrimmedRangesOrdered(text: string, footer: seq<Span>, n: nat, k: nat)
    requires n < 8 && n != 1 && k < |Spans(text, footer)[n]|
    ensures Spans(text, footer)[n][k].index + 2 <= Spans(text, footer)[n][k].end
    ensures PosLe(SpanRange(text, Trimmed, Spans(text, footer)[n][k]).start,
                  SpanRange(text, Trimmed, Spans(text, footer)[n][k]).end)
  {
    MatchersAdvance(text);
    var sp := Spans(text, footer)[n][k];
    var m: Matcher := [MatchNav, MatchNav, MatchMain, MatchHeader, MatchNavRole, MatchAside, MatchFooterRole, MatchSpanFont][n];
    assert Spans(text, footer)[n] == Exec(m, text, 0);
    assert m(text, sp.index) == Some(sp.end);
    TrimmedRangeOrdered(text, sp);
  }

  /** `checkWCAG131`: the eight loops in order, each handed the caller's count. */
  function Check(ctx: Context, text: string, footer: seq<Span>, problems: int): (r: seq<Diagnostic>)
    ensures |r| <= 8 * Budget(ctx, problems)
    ensures forall k :: 0 <= k < |r| ==> r[k].source == Source
  {
    FamilyBound(ctx, text, Rules, Spans(text, footer), problems);
    RulesCite();
    FamilySource(ctx, text, Rules, Spans(text, footer), problems, Source);
    Family(ctx, text, Rules, Spans(text, footer), problems)
  }
}
