/** Success criterion 1.4.4 (Resize Text): a font size written in pixels or points. */
module Wcag144 {
  import opened Wrappers
  import opened Strings
  import opened Lsp
  import opened Scan
  import Wcag134

  /** The pattern tried at `i`: `font-size:`, then the first length in
      pixels or points on the same line; the trailing lazy `.*?` takes nothing. */
  function Match(s: string, i: nat): (r: Option<nat>)
    ensures r.Some? <==> StartsAt(s, i, "font-size:") && FirstLength(s, i + 10, PxOrPt).Some?
    ensures r.Some? ==> i + 13 <= r.value <= |s|
    ensures r.Some? ==> IsDigit(s[r.value - 3]) && (StartsAt(s, r.value - 2, "px") || StartsAt(s, r.value - 2, "pt"))
    ensures r.Some? ==> forall j :: i + 10 <= j < r.value ==> !IsLineTerminator(s[j])
  {
    if StartsAt(s, i, "font-size:") then LengthEnd(s, i + 10, PxOrPt) else None
  }

  lemma MatchAdvances(s: string)
    ensures Advances(Match, s)
  {
  }

  /** A match never crosses a line break, so its diagnostic starts and ends
      on one line. */
  lemma MatchOnOneLine(s: string, i: nat)
    requires Match(s, i).Some?
    ensures forall j :: i <= j < Match(s, i).value ==> !IsLineTerminator(s[j])
    ensures PositionAt(s, i).line == PositionAt(s, Match(s, i).value).line
  {
    var e := Match(s, i).value;
    forall j | i <= j < i + 10
      ensures !IsLineTerminator(s[j])
    {
      assert s[j] == s[i..i + 10][j - i];
    }
    SameLine(s, i, e);
  }

  /** The citation every diagnostic of this check carries. */
  const Source := "WCAG 2.1 | 1.4.4"

  const Rule144 := ScanRule(Raw,
    "Text content should be scalable to 200% without any loss of information or functionality.",
    Source,
    ["Please change your font size unit from px to other much more flexible units such as rem or em to scale the content effectively."])

  /** The matches of the pattern in `text`, leftmost first. */
  function Matches(text: string): seq<Span> {
    MatchAdvances(text);
    Exec(Match, text, 0)
  }

  /** `checkWCAG144`: what its loop appends for a caller whose count stands at `problems`. */
  function Check(ctx: Context, text: string, problems: int): (r: seq<Diagnostic>)
    ensures |r| == Min(|Matches(text)|, Budget(ctx, problems))
    ensures forall k :: 0 <= k < |r| ==> r[k] == Diagnose(ctx, text, Rule144, Matches(text)[k])
    ensures forall k :: 0 <= k < |r| ==> r[k].source == Source
    ensures forall k :: 0 <= k < |r| ==> r[k].range == SpanRange(text, Raw, Matches(text)[k])
  {
    Emit(ctx, text, Rule144, Matches(text), problems)
  }

  /** Every `font-size:` with a pixel or point length later on its line is
      reported: it starts a match or lies inside an earlier one. */
  lemma FixedFontSizeReported(s: string, i: nat)
    requires StartsAt(s, i, "font-size:") && FirstLength(s, i + 10, PxOrPt).Some?
    ensures exists n :: 0 <= n < |Matches(s)| && Matches(s)[n].index <= i < Matches(s)[n].end
  {
    assert Match(s, i).Some?;
    MatchAdvances(s);
    MatchCovered(Match, s, i);
    assert Matches(s) == Exec(Match, s, 0);
  }

  /** A size in relative units only is not reported. */
  lemma RelativeFontSizeNotMatched(s: string, i: nat)
    requires forall j :: i + 10 <= j < LineEnd(s, i + 10) ==> !LengthAt(s, j, PxOrPt)
    ensures Match(s, i).None?
  {
  }

  /** The 1.3.4 pattern has no `font-size` alternative: it never starts a
      match where this pattern does. */
  lemma DisjointFrom134(s: string, i: nat)
    requires Match(s, i).Some?
    ensures Wcag134.Match(s, i).None?
  {
    Wcag134.FontSizeNotMatched(s, i);
  }
}
