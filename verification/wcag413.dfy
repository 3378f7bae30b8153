/** Success criterion 4.1.3 (Status Messages): a `div` whose role is
    `status` but which has no `aria-live` attribute. */
module Wcag413 {
  import opened Wrappers
  import opened Strings
  import opened Lsp
  import opened Scan

  /** `role=` followed by `status` in quotes, either kind on either side, at `q`. */
  predicate StatusRoleAt(s: string, q: nat) {
    StartsAt(s, q, "role=") && q + 12 < |s| && IsQuoteMark(s[q + 5])
    && StartsAt(s, q + 6, "status") && IsQuoteMark(s[q + 12])
  }

  /** `aria-live=` followed by a quote, at `q`. */
  predicate LiveAttributeAt(s: string, q: nat) {
    StartsAt(s, q, "aria-live=") && q + 10 < |s| && IsQuoteMark(s[q + 10])
  }

  /** `(?=[^>]*\\brole=["']status["'])` at `p`. */
  predicate StatusRoleAhead(s: string, p: nat)
    requires p <= |s|
  {
    exists q :: p <= q < TagEnd(s, p) && WordStart(s, q) && StatusRoleAt(s, q)
  }

  /** `(?![^>]*\\baria-live=["'])` fails at `p` when this holds. */
  predicate LiveAttributeAhead(s: string, p: nat)
    requires p <= |s|
  {
    exists q :: p <= q < TagEnd(s, p) && WordStart(s, q) && LiveAttributeAt(s, q)
  }

  /** How far `[^\\s>]*` reaches from `p`: the first white space or `>`, or the end. */
  function RunEnd(s: string, p: nat): (r: nat)
    requires p <= |s|
    ensures p <= r <= |s|
    ensures forall j :: p <= j < r ==> !IsJsSpace(s[j]) && s[j] != '>'
    ensures r < |s| ==> IsJsSpace(s[r]) || s[r] == '>'
    decreases |s| - p
  {
    if p == |s| || IsJsSpace(s[p]) || s[p] == '>' then p else RunEnd(s, p + 1)
  }

  /** The pattern tried at `i`. `\\s+` takes every white space after `<div`:
      giving one back cannot help, since `[^\\s>]*>` cannot start on white
      space. The final `[^\\s>]*>` then needs the tag to close before any
      further white space. */
  function Match(s: string, i: nat): (r: Option<nat>)
    ensures r.Some? ==> i + 6 <= r.value <= |s|
    ensures r.Some? ==> StartsAt(s, i, "<div") && IsJsSpace(s[i + 4]) && s[r.value - 1] == '>'
    ensures r.Some? ==> forall j :: i + 4 <= j < r.value - 1 ==> s[j] != '>'
    ensures r.Some? ==> forall j :: SkipSpaces(s, i + 4) <= j < r.value ==> !IsJsSpace(s[j])
  {
    if !StartsAt(s, i, "<div") then None
    else
      var p := SkipSpaces(s, i + 4);
      if p == i + 4 || !StatusRoleAhead(s, p) || LiveAttributeAhead(s, p) then None
      else
        var e := RunEnd(s, p);
        if e < |s| && s[e] == '>' then Some(e + 1) else None
  }

  lemma MatchAdvances(s: string)
    ensures Advances(Match, s)
  {
  }

  /** A match is a `div` tag that carries the status role. */
  lemma MatchHasStatusRole(s: string, i: nat)
    requires Match(s, i).Some?
    ensures exists q :: i + 4 < q < Match(s, i).value && WordStart(s, q) && StatusRoleAt(s, q)
  {
    var p := SkipSpaces(s, i + 4);
    var e := RunEnd(s, p);
    assert TagEnd(s, p) == e;
    var q :| p <= q < TagEnd(s, p) && WordStart(s, q) && StatusRoleAt(s, q);
  }

  /** A `div` whose opening tag carries an `aria-live` attribute is never reported. */
  lemma LiveRegionNotReported(s: string, i: nat, q: nat)
    requires StartsAt(s, i, "<div")
    requires i + 4 <= q < TagEnd(s, i + 4) && WordStart(s, q) && LiveAttributeAt(s, q)
    ensures Match(s, i).None?
  {
    var p := SkipSpaces(s, i + 4);
    assert s[q] == 'a' by {
      assert s[q..q + 10][0] == s[q];
    }
    assert p <= q;
    assert TagEnd(s, p) == TagEnd(s, i + 4) by {
      assert FindChar(s, i + 4, '>') == FindChar(s, p, '>') by {
        FindCharSkips(s, i + 4, p);
      }
    }
    assert LiveAttributeAhead(s, p);
  }

  /** Nothing but `>` between `from` and `stop`: the search for `>` may start at either. */
  lemma {:induction false} FindCharSkips(s: string, from: nat, stop: nat)
    requires from <= stop <= |s|
    requires forall j :: from <= j < stop ==> s[j] != '>'
    ensures FindChar(s, from, '>') == FindChar(s, stop, '>')
    decreases stop - from
  {
    if from < stop {
      FindCharSkips(s, from + 1, stop);
    }
  }

  /** A `div` whose attributes are separated by white space is not reported,
      whatever its role: the tag must close in the first run after `<div`. */
  lemma SpacedAttributesNotReported(s: string, i: nat, j: nat)
    requires StartsAt(s, i, "<div")
    requires SkipSpaces(s, i + 4) < j < TagEnd(s, i + 4) && IsJsSpace(s[j])
    ensures Match(s, i).None?
  {
  }

  /** The citation every diagnostic of this check carries. */
  const Source := "WCAG 2.1 | 4.1.3"

  const Rule413 := ScanRule(Raw,
    "Status messages should both have an aria-live attribute and \"status\" as its role attribute.",
    Source,
    ["Please add an `aria-live` attribute."])

  /** The matches of the pattern in `text`, leftmost first. */
  function Matches(text: string): seq<Span> {
    MatchAdvances(text);
    Exec(Match, text, 0)
  }

  /** `checkWCAG413`: what its loop appends for a caller whose count stands at `problems`. */
  function Check(ctx: Context, text: string, problems: int): (r: seq<Diagnostic>)
    ensures |r| == Min(|Matches(text)|, Budget(ctx, problems))
    ensures forall k :: 0 <= k < |r| ==> r[k] == Diagnose(ctx, text, Rule413, Matches(text)[k])
    ensures forall k :: 0 <= k < |r| ==> r[k].source == Source
    ensures forall k :: 0 <= k < |r| ==> r[k].range == SpanRange(text, Raw, Matches(text)[k])
  {
    Emit(ctx, text, Rule413, Matches(text), problems)
  }
}
