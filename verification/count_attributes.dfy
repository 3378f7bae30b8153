/** The score: a weighted count of the tags and style declarations the
    engine can evaluate, over a fixed list of thirty names. */
module CountAttributes {
  import opened Wrappers
  import opened Strings

  /** One entry of the `rules` list. */
  datatype Weighted = Weighted(name: string, score: nat)

  /** `rules`, in source order. */
  const Rules: seq<Weighted> := [
    Weighted("area", 1), Weighted("background-position-x", 1), Weighted("background-position-y", 1),
    Weighted("background-size", 1), Weighted("border-radius", 1), Weighted("button", 1),
    Weighted("font-size", 1), Weighted("height", 1), Weighted("html", 1), Weighted("img", 1),
    Weighted("input", 5), Weighted("left", 1), Weighted("letter-spacing", 1), Weighted("line-height", 1),
    Weighted("margin", 1), Weighted("max-height", 1), Weighted("min-height", 1), Weighted("min-width", 1),
    Weighted("opacity", 1), Weighted("outline-offset", 1), Weighted("padding", 1), Weighted("right", 1),
    Weighted("select", 3), Weighted("text-indent", 1), Weighted("textarea", 1), Weighted("title", 1),
    Weighted("top", 1), Weighted("transform-origin", 1), Weighted("width", 1), Weighted("z-index", 1)
  ]

  /** The two passes: `<name[^>]*>` (an opening tag) and `name:` (a declaration),
      both with the `gi` flags. */
  datatype Pass = TagPass | CssPass

  /** The pattern of `pass` for `name` tried at offset `i`: where the match
      ends, if it matches. Letters compare without regard to case. The tag
      pattern's `[^>]*` runs to the first `>`, which must exist. */
  function MatchEnd(s: string, pass: Pass, name: string, i: nat): (r: Option<nat>)
    ensures r.Some? ==> i < r.value <= |s|
    ensures r.Some? && pass == CssPass ==> r.value == i + |name| + 1 && StartsAtIgnoringCase(s, i, name + ":")
    ensures r.Some? && pass == TagPass ==>
              StartsAtIgnoringCase(s, i, "<" + name) && s[r.value - 1] == '>'
              && forall j :: i + |name| + 1 <= j < r.value - 1 ==> s[j] != '>'
    ensures r.None? && pass == CssPass ==> !StartsAtIgnoringCase(s, i, name + ":")
    ensures r.None? && pass == TagPass && StartsAtIgnoringCase(s, i, "<" + name) ==>
              forall j :: i + |name| + 1 <= j < |s| ==> s[j] != '>'
  {
    match pass
    case CssPass => if StartsAtIgnoringCase(s, i, name + ":") then Some(i + |name| + 1) else None
    case TagPass =>
      if !StartsAtIgnoringCase(s, i, "<" + name) then None
      else
        var g := FindChar(s, i + |name| + 1, '>');
        if g < 0 then None else Some(g + 1)
  }

  /** `(html.match(regex) || []).length` from offset `from`: the number of
      matches found scanning left to right, each search resuming where the
      previous match ended. */
  function MatchCount(s: string, pass: Pass, name: string, from: nat): (n: nat)
    decreases |s| - from
  {
    if from >= |s| then 0
    else match MatchEnd(s, pass, name, from)
      case Some(e) => 1 + MatchCount(s, pass, name, e)
      case None => MatchCount(s, pass, name, from + 1)
  }

  /** `count * score`, as repeated addition: each match adds the weight once. */
  function Points(score: nat, count: nat): nat
    decreases count
  {
    if count == 0 then 0 else Points(score, count - 1) + score
  }

  lemma {:induction false} PointsIsProduct(score: nat, count: nat)
    ensures Points(score, count) == score * count
    decreases count
  {
    if count > 0 {
      PointsIsProduct(score, count - 1);
    }
  }

  lemma {:induction false} PointsAdd(score: nat, a: nat, b: nat)
    ensures Points(score, a + b) == Points(score, a) + Points(score, b)
    decreases b
  {
    if b > 0 {
      PointsAdd(score, a, b - 1);
    }
  }

  /** The matches an entry's name has in one pass, or in both (`None`). */
  function Matches(s: string, name: string, part: Option<Pass>): nat {
    match part
    case Some(pass) => MatchCount(s, pass, name, 0)
    case None => MatchCount(s, TagPass, name, 0) + MatchCount(s, CssPass, name, 0)
  }

  /** What the entries of `rules` add up to in `part`: each weight times its
      matches, summed in order. */
  function SumOver(s: string, rules: seq<Weighted>, part: Option<Pass>): nat
    decreases |rules|
  {
    if |rules| == 0 then 0
    else SumOver(s, rules[..|rules| - 1], part) + Points(rules[|rules| - 1].score, Matches(s, rules[|rules| - 1].name, part))
  }

  /** The score, entry by entry: each weight times the matches of both of its patterns. */
  function EntrySum(s: string, rules: seq<Weighted>): nat {
    SumOver(s, rules, None)
  }

  /** `countAttributes`. */
  method Count(html: string) returns (total: nat)
    ensures total == EntrySum(html, Rules)
  {
    total := CountWith(html, Rules);
  }

  /** The two loops of `countAttributes` over a list of entries: the tag pass
      over every entry, then the declaration pass over every entry, both
      adding `count * score` to one running total. */
  method CountWith(html: string, rules: seq<Weighted>) returns (total: nat)
    ensures total == EntrySum(html, rules)
  {
    total := 0;
    for k := 0 to |rules|
      invariant total == SumOver(html, rules[..k], Some(TagPass))
    {
      var count := MatchCount(html, TagPass, rules[k].name, 0);
      PointsIsProduct(rules[k].score, count);
      assert rules[..k + 1][..k] == rules[..k];
      total := total + count * rules[k].score;
    }
    assert rules[..|rules|] == rules;
    ghost var tags := total;
    for k := 0 to |rules|
      invariant total == tags + SumOver(html, rules[..k], Some(CssPass))
    {
      var count := MatchCount(html, CssPass, rules[k].name, 0);
      PointsIsProduct(rules[k].score, count);
      assert rules[..k + 1][..k] == rules[..k];
      total := total + count * rules[k].score;
    }
    PassesAreEntrySum(html, rules);
  }

  /** The two passes together add up every entry's weighted matches. */
  lemma {:induction false} PassesAreEntrySum(s: string, rules: seq<Weighted>)
    ensures SumOver(s, rules, Some(TagPass)) + SumOver(s, rules, Some(CssPass)) == EntrySum(s, rules)
    decreases |rules|
  {
    if |rules| > 0 {
      var w := rules[|rules| - 1];
      PassesAreEntrySum(s, rules[..|rules| - 1]);
      PointsAdd(w.score, MatchCount(s, TagPass, w.name, 0), MatchCount(s, CssPass, w.name, 0));
    }
  }

  /** Every entry weighs 1, except `input` (5) and `select` (3). */
  lemma RulesWeights()
    ensures |Rules| == 30
    ensures forall i :: 0 <= i < |Rules| ==>
      Rules[i].score == (if Rules[i].name == "input" then 5 else if Rules[i].name == "select" then 3 else 1)
  {
  }

  /** An empty document scores nothing. */
  lemma {:induction false} EmptyScoresZero(rules: seq<Weighted>)
    ensures EntrySum("", rules) == 0
    decreases |rules|
  {
    if |rules| > 0 {
      EmptyScoresZero(rules[..|rules| - 1]);
    }
  }

  /** Both patterns carry the `i` flag: the score of a document is the score of its lower-cased text. */
  lemma ScoreIgnoresCase(s: string, rules: seq<Weighted>)
    ensures EntrySum(Lower(s), rules) == EntrySum(s, rules)
  {
    SumOverIgnoresCase(s, rules, None);
  }

  lemma {:induction false} SumOverIgnoresCase(s: string, rules: seq<Weighted>, part: Option<Pass>)
    ensures SumOver(Lower(s), rules, part) == SumOver(s, rules, part)
    decreases |rules|
  {
    if |rules| > 0 {
      SumOverIgnoresCase(s, rules[..|rules| - 1], part);
      MatchesIgnoresCase(s, rules[|rules| - 1].name, part);
    }
  }

  lemma MatchesIgnoresCase(s: string, name: string, part: Option<Pass>)
    ensures Matches(Lower(s), name, part) == Matches(s, name, part)
  {
    MatchCountIgnoresCase(s, TagPass, name, 0);
    MatchCountIgnoresCase(s, CssPass, name, 0);
  }

  lemma {:induction false} MatchCountIgnoresCase(s: string, pass: Pass, name: string, from: nat)
    ensures MatchCount(Lower(s), pass, name, from) == MatchCount(s, pass, name, from)
    decreases |s| - from
  {
    if from < |s| {
      MatchEndIgnoresCase(s, pass, name, from);
      match MatchEnd(s, pass, name, from)
      case Some(e) => MatchCountIgnoresCase(s, pass, name, e);
      case None => MatchCountIgnoresCase(s, pass, name, from + 1);
    }
  }

  lemma MatchEndIgnoresCase(s: string, pass: Pass, name: string, i: nat)
    ensures MatchEnd(Lower(s), pass, name, i) == MatchEnd(s, pass, name, i)
  {
    match pass
    case CssPass =>
      StartsAtIgnoringCaseOfLower(s, i, name + ":");
    case TagPass =>
      StartsAtIgnoringCaseOfLower(s, i, "<" + name);
      FindCharIgnoresCase(s, i + |name| + 1);
  }

  /** Folding case moves no `>`. */
  lemma FindCharIgnoresCase(s: string, from: nat)
    ensures FindChar(Lower(s), from, '>') == FindChar(s, from, '>')
  {
  }

  /** A declaration of a longer name also counts for every name it ends
      with: `max-height: 10px` scores for `max-height` and again for `height`. */
  lemma DeclarationSuffixMatches(s: string, i: nat, name: string, k: nat)
    requires k <= |name|
    requires MatchEnd(s, CssPass, name, i).Some?
    ensures MatchEnd(s, CssPass, name[k..], i + k) == MatchEnd(s, CssPass, name, i)
  {
    var p, q := name + ":", name[k..] + ":";
    assert q == p[k..];
    forall j | 0 <= j < |q|
      ensures LowerChar(s[i + k + j]) == LowerChar(q[j])
    {
      assert Lower(s[i..i + |p|])[k + j] == Lower(p)[k + j];
    }
    assert Lower(s[i + k..i + k + |q|]) == Lower(q);
  }

  /** The instance the score shows: each `max-height:` is also a `height:`. */
  lemma MaxHeightAlsoHeight(s: string, i: nat)
    requires MatchEnd(s, CssPass, "max-height", i).Some?
    ensures MatchEnd(s, CssPass, "height", i + 4).Some?
  {
    DeclarationSuffixMatches(s, i, "max-height", 4);
    assert "max-height"[4..] == "height";
  }
}
