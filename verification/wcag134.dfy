/** Success criterion 1.3.4 (Orientation): a listed size property whose value
    is written in pixels. */
module Wcag134 {
  import opened Wrappers
  import opened Strings
  import opened Lsp
  import opened Scan

  /** The alternatives of the pattern, in order. `font-size` and `max-width`,
      named in the comment above it, are not among them. */
  const Properties: seq<string> := [
    "background-position-x", "background-position-y", "background-size", "border-radius",
    "height", "left", "letter-spacing", "line-height", "margin", "max-height", "min-height",
    "min-width", "opacity", "outline-offset", "padding", "right", "text-indent", "top",
    "transform-origin", "width", "z-index"
  ]

  /** `(?<!max-)`, which guards the `width` alternative. */
  predicate AfterMax(s: string, i: nat) {
    i >= 4 && StartsAt(s, i - 4, "max-")
  }

  /** Alternative `p` followed by the `:` of the pattern, at `i`. */
  predicate Declares(s: string, i: nat, p: string) {
    StartsAt(s, i, p + ":") && !(p == "width" && AfterMax(s, i))
  }

  /** What the pattern looks for: a declaration of `p` at `i` with a pixel
      length later on the same line. */
  predicate PixelDeclaration(s: string, i: nat, p: string) {
    Declares(s, i, p) && FirstLength(s, i + |p| + 1, Px).Some?
  }

  /** Alternative `p` tried at `i`: where the match ends if the pattern
      goes through with it, just after the unit of the first pixel length on
      the line of the colon; the trailing lazy `.*?` takes nothing. */
  function Attempt(s: string, i: nat, p: string): (r: Option<nat>)
    ensures r.Some? <==> PixelDeclaration(s, i, p)
    ensures r.Some? ==> i + |p| + 4 <= r.value <= |s|
    ensures r.Some? ==> IsDigit(s[r.value - 3]) && StartsAt(s, r.value - 2, "px")
    ensures r.Some? ==> forall j :: i + |p| + 1 <= j < r.value ==> !IsLineTerminator(s[j])
  {
    if !Declares(s, i, p) then None else LengthEnd(s, i + |p| + 1, Px)
  }

  /** The alternative the regex engine settles on at `i`: the first of
      `alts`, from the `k`-th on, with which the pattern goes through; an
      alternative that declares but finds no length is backtracked over. */
  function Alternative(s: string, i: nat, alts: seq<string>, k: nat): (r: Option<nat>)
    ensures r.Some? ==> k <= r.value < |alts| && Attempt(s, i, alts[r.value]).Some?
    ensures r.Some? ==> forall j :: k <= j < r.value ==> Attempt(s, i, alts[j]).None?
    ensures r.None? ==> forall j :: k <= j < |alts| ==> Attempt(s, i, alts[j]).None?
    decreases |alts| - k
  {
    if k >= |alts| then None
    else if Attempt(s, i, alts[k]).Some? then Some(k)
    else Alternative(s, i, alts, k + 1)
  }

  /** The pattern with alternatives `alts`, tried at `i`. */
  function MatchAmong(s: string, i: nat, alts: seq<string>): (r: Option<nat>)
    ensures r.Some? ==> i + 4 <= r.value <= |s|
    ensures r.Some? ==> IsDigit(s[r.value - 3]) && StartsAt(s, r.value - 2, "px")
    ensures r.Some? ==> exists k :: 0 <= k < |alts| && Declares(s, i, alts[k]) && Attempt(s, i, alts[k]) == r
  {
    match Alternative(s, i, alts, 0)
    case None => None
    case Some(k) => Attempt(s, i, alts[k])
  }

  /** The pattern tried at `i`. */
  function Match(s: string, i: nat): (r: Option<nat>)
    ensures r.Some? ==> i + 4 <= r.value <= |s|
    ensures r.Some? ==> IsDigit(s[r.value - 3]) && StartsAt(s, r.value - 2, "px")
  {
    MatchAmong(s, i, Properties)
  }

  /** The pattern matches at `i` exactly when one of its alternatives is
      declared there with a pixel length later on the line. */
  lemma MatchAmongIff(s: string, i: nat, alts: seq<string>)
    ensures MatchAmong(s, i, alts).Some? <==> exists k :: 0 <= k < |alts| && PixelDeclaration(s, i, alts[k])
  {
    var r := Alternative(s, i, alts, 0);
    if r.Some? {
      assert PixelDeclaration(s, i, alts[r.value]);
    } else {
      forall k | 0 <= k < |alts|
        ensures !PixelDeclaration(s, i, alts[k])
      {
        assert Attempt(s, i, alts[k]).None?;
      }
    }
  }

  lemma MatchIff(s: string, i: nat)
    ensures Match(s, i).Some? <==> exists k :: 0 <= k < |Properties| && PixelDeclaration(s, i, Properties[k])
  {
    MatchAmongIff(s, i, Properties);
  }

  lemma MatchAdvances(s: string)
    ensures Advances(Match, s)
  {
  }

  /** Lower-case letters and hyphens only. */
  predicate Hyphenated(p: string) {
    forall c :: 0 <= c < |p| ==> p[c] == '-' || 'a' <= p[c] <= 'z'
  }

  /** Every alternative is written in lower-case letters and hyphens, so
      none holds a line terminator. */
  lemma PropertiesHyphenated(k: nat)
    requires k < |Properties|
    ensures Hyphenated(Properties[k])
  {
    if k < 7 {
      HyphenatedA();
    } else if k < 14 {
      HyphenatedB();
    } else {
      HyphenatedC();
    }
  }

  lemma HyphenatedA()
    ensures forall k :: 0 <= k < 7 ==> Hyphenated(Properties[k])
  {
  }

  lemma HyphenatedB()
    ensures forall k :: 7 <= k < 14 ==> Hyphenated(Properties[k])
  {
  }

  lemma HyphenatedC()
    ensures forall k :: 14 <= k < |Properties| ==> Hyphenated(Properties[k])
  {
  }

  /** A declaration written in letters and hyphens, with its pixel length
      on the line of its colon, holds no line terminator. */
  lemma DeclarationOnOneLine(s: string, i: nat, p: string)
    requires Hyphenated(p) && Attempt(s, i, p).Some?
    ensures forall j :: i <= j < Attempt(s, i, p).value ==> !IsLineTerminator(s[j])
    ensures PositionAt(s, i).line == PositionAt(s, Attempt(s, i, p).value).line
  {
    forall j | i <= j < i + |p| + 1
      ensures !IsLineTerminator(s[j])
    {
      assert s[j] == s[i..i + |p| + 1][j - i] == (p + ":")[j - i];
    }
    SameLine(s, i, Attempt(s, i, p).value);
  }

  /** A match never crosses a line break, so its diagnostic starts and ends
      on one line. */
  lemma MatchOnOneLine(s: string, i: nat)
    requires Match(s, i).Some?
    ensures forall j :: i <= j < Match(s, i).value ==> !IsLineTerminator(s[j])
    ensures PositionAt(s, i).line == PositionAt(s, Match(s, i).value).line
  {
    var k :| 0 <= k < |Properties| && Declares(s, i, Properties[k]) && Attempt(s, i, Properties[k]) == Match(s, i);
    PropertiesHyphenated(k);
    DeclarationOnOneLine(s, i, Properties[k]);
  }

  /** Where an alternative goes through, the pattern matches. */
  lemma DeclarationMatched(s: string, i: nat, alts: seq<string>, k: nat)
    requires k < |alts| && PixelDeclaration(s, i, alts[k])
    ensures MatchAmong(s, i, alts).Some?
  {
    assert Attempt(s, i, alts[k]).Some?;
  }

  /** Where no alternative is declared, nothing is matched. */
  lemma UndeclaredNotMatched(s: string, i: nat, alts: seq<string>)
    requires forall k :: 0 <= k < |alts| ==> !Declares(s, i, alts[k])
    ensures MatchAmong(s, i, alts).None?
  {
    forall k | 0 <= k < |alts|
      ensures Attempt(s, i, alts[k]).None?
    {
    }
  }

  /** Every pixel declaration of a listed property is reported: it starts a
      match or lies inside an earlier one. */
  lemma PixelDeclarationReported(s: string, i: nat, k: nat)
    requires k < |Properties| && PixelDeclaration(s, i, Properties[k])
    ensures exists n :: 0 <= n < |Matches(s)| && Matches(s)[n].index <= i < Matches(s)[n].end
  {
    DeclarationMatched(s, i, Properties, k);
    assert i < |s|;
    MatchAdvances(s);
    assert Match(s, i).Some?;
    MatchCovered(Match, s, i);
    assert Matches(s) == Exec(Match, s, 0);
  }

  /** The character at `c`, or a space past the end. */
  function CharAt(p: string, c: nat): char {
    if c < |p| then p[c] else ' '
  }

  /** What a declaration at `i` tells about its alternative's first characters. */
  lemma DeclaredPrefix(s: string, i: nat, p: string, c: nat)
    requires StartsAt(s, i, p + ":") && c < |p|
    ensures CharAt(p, c) == s[i + c]
  {
    assert s[i..i + |p| + 1][c] == (p + ":")[c];
  }

  lemma NoAlternativeStartsWithF()
    ensures forall k :: 0 <= k < |Properties| ==> CharAt(Properties[k], 0) != 'f'
  {
  }

  lemma NoAlternativeStartsWithMaxW()
    ensures forall k :: 0 <= k < |Properties| ==>
      !(CharAt(Properties[k], 0) == 'm' && CharAt(Properties[k], 1) == 'a'
        && CharAt(Properties[k], 2) == 'x' && CharAt(Properties[k], 4) == 'w')
  {
  }

  lemma OnlyWidthStartsWithW()
    ensures forall k :: 0 <= k < |Properties| && CharAt(Properties[k], 0) == 'w' ==> Properties[k] == "width"
  {
  }

  /** `font-size:` is not matched where it starts: no alternative begins with `f`. */
  lemma FontSizeNotMatched(s: string, i: nat)
    requires StartsAt(s, i, "font-size:")
    ensures Match(s, i).None?
  {
    assert s[i] == 'f' by {
      assert s[i..i + 10][0] == s[i];
    }
    NoAlternativeStartsWithF();
    forall k | 0 <= k < |Properties| && Declares(s, i, Properties[k])
      ensures false
    {
      DeclaredPrefix(s, i, Properties[k], 0);
    }
    UndeclaredNotMatched(s, i, Properties);
  }

  /** `max-width:` is never matched: not where it starts, since no
      alternative begins with `max-w`, and not at its `width`, which the
      look-behind rules out. */
  lemma MaxWidthNotMatched(s: string, i: nat)
    requires StartsAt(s, i, "max-width:")
    ensures Match(s, i).None? && Match(s, i + 4).None?
  {
    assert s[i] == 'm' && s[i + 1] == 'a' && s[i + 2] == 'x' && s[i + 4] == 'w' by {
      assert s[i..i + 10][0] == s[i] && s[i..i + 10][1] == s[i + 1];
      assert s[i..i + 10][2] == s[i + 2] && s[i..i + 10][4] == s[i + 4];
    }
    assert AfterMax(s, i + 4) by {
      assert s[i..i + 10][..4] == s[i..i + 4];
    }
    NoAlternativeStartsWithMaxW();
    OnlyWidthStartsWithW();
    forall k | 0 <= k < |Properties| && Declares(s, i, Properties[k])
      ensures false
    {
      var p := Properties[k];
      if |p| >= 5 {
        DeclaredPrefix(s, i, p, 0);
        DeclaredPrefix(s, i, p, 1);
        DeclaredPrefix(s, i, p, 2);
        DeclaredPrefix(s, i, p, 4);
      }
    }
    forall k | 0 <= k < |Properties| && Declares(s, i + 4, Properties[k])
      ensures false
    {
      DeclaredPrefix(s, i + 4, Properties[k], 0);
    }
    UndeclaredNotMatched(s, i, Properties);
    UndeclaredNotMatched(s, i + 4, Properties);
  }

  /** The citation every diagnostic of this check carries. */
  const Source := "WCAG 2.1 | 1.3.4"

  const Rule134 := ScanRule(Raw,
    "Content should adapt to different screen sizes and display orientation.",
    Source,
    ["Use % for sizes to ensure compatibility with different orientations and add a media query for other screen sizes."])

  /** The matches of the pattern in `text`, leftmost first. */
  function Matches(text: string): seq<Span> {
    MatchAdvances(text);
    Exec(Match, text, 0)
  }

  /** `checkWCAG134`: what its loop appends for a caller whose count stands at `problems`. */
  function Check(ctx: Context, text: string, problems: int): (r: seq<Diagnostic>)
    ensures |r| == Min(|Matches(text)|, Budget(ctx, problems))
    ensures forall k :: 0 <= k < |r| ==> r[k] == Diagnose(ctx, text, Rule134, Matches(text)[k])
    ensures forall k :: 0 <= k < |r| ==> r[k].source == Source
    ensures forall k :: 0 <= k < |r| ==> r[k].range == SpanRange(text, Raw, Matches(text)[k])
  {
    Emit(ctx, text, Rule134, Matches(text), problems)
  }
}
