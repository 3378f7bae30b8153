/** String primitives with the meaning JavaScript gives them: `indexOf`,
    `includes`, the `\d`, `\s`, `\w` and `.` character classes, and ASCII
    case folding (what the `i` regex flag does for ASCII patterns). */
module Strings {

  /** `p` occurs in `s` at offset `i`. */
  predicate StartsAt(s: string, i: int, p: string) {
    0 <= i && i + |p| <= |s| && s[i..i + |p|] == p
  }

  /** JavaScript `s.includes(p)`. */
  predicate Contains(s: string, p: string) {
    exists i :: 0 <= i <= |s| && StartsAt(s, i, p)
  }

  /** JavaScript `s.indexOf(p, from)`: the first occurrence at or after `from`, or -1. */
  function IndexOf(s: string, p: string, from: nat): (r: int)
    ensures r == -1 || (from <= r && StartsAt(s, r, p))
    ensures r == -1 ==> forall j :: from <= j ==> !StartsAt(s, j, p)
    ensures r >= 0 ==> forall j :: from <= j < r ==> !StartsAt(s, j, p)
    decreases |s| - from
  {
    if from + |p| > |s| then -1
    else if StartsAt(s, from, p) then from
    else IndexOf(s, p, from + 1)
  }

  lemma IndexOfFindsContained(s: string, p: string)
    ensures IndexOf(s, p, 0) >= 0 <==> Contains(s, p)
  {
    var r := IndexOf(s, p, 0);
    if r >= 0 {
      assert StartsAt(s, r, p);
    }
  }

  /** Occurrence is transitive: what occurs inside an occurrence occurs in the whole. */
  lemma StartsAtNested(s: string, i: int, p: string, j: int, q: string)
    requires StartsAt(s, i, p) && StartsAt(p, j, q)
    ensures StartsAt(s, i + j, q)
  {
    forall k | 0 <= k < |q|
      ensures s[i + j + k] == q[k]
    {
      assert q[k] == p[j + k] == s[i..i + |p|][j + k];
    }
    assert s[i + j..i + j + |q|] == q;
  }

  lemma ContainsTransitive(s: string, p: string, q: string)
    requires Contains(s, p) && Contains(p, q)
    ensures Contains(s, q)
  {
    var i :| 0 <= i <= |s| && StartsAt(s, i, p);
    var j :| 0 <= j <= |p| && StartsAt(p, j, q);
    StartsAtNested(s, i, p, j, q);
  }

  /** A string of the same length contains `p` only by being `p`. */
  lemma ContainsSameLength(s: string, p: string)
    requires |s| == |p|
    ensures Contains(s, p) <==> s == p
  {
    if s == p {
      assert StartsAt(s, 0, p);
    }
  }

  /** A text that lacks one of the characters of `p` does not contain `p`. */
  lemma MissingCharNotContained(s: string, p: string, c: char)
    requires c in p && c !in s
    ensures !Contains(s, p)
  {
  }

  /** A text whose only copy of `p`'s first character is its own first
      character contains `p` only as a prefix. */
  lemma HeadOnlyAtStart(head: string, tail: string, p: string)
    requires |head| > 0 && |p| > 0 && p[0] !in head[1..] && p[0] !in tail
    requires !StartsAt(head + tail, 0, p)
    ensures !Contains(head + tail, p)
  {
  }

  /** The first `c` at or after `from`, or -1. */
  function FindChar(s: string, from: nat, c: char): (r: int)
    ensures r == -1 || (from <= r < |s| && s[r] == c)
    ensures r == -1 ==> forall j :: from <= j < |s| ==> s[j] != c
    ensures r >= 0 ==> forall j :: from <= j < r ==> s[j] != c
    decreases |s| - from
  {
    if from >= |s| then -1
    else if s[from] == c then from
    else FindChar(s, from + 1, c)
  }

  /** The last occurrence of `p` starting in `[lo, hi)`, or -1. */
  function LastIndexIn(s: string, p: string, lo: nat, hi: nat): (r: int)
    ensures r == -1 || (lo <= r < hi && StartsAt(s, r, p))
    ensures r == -1 ==> forall j :: lo <= j < hi ==> !StartsAt(s, j, p)
    ensures r >= 0 ==> forall j :: r < j < hi ==> !StartsAt(s, j, p)
    decreases hi
  {
    if hi <= lo then -1
    else if StartsAt(s, hi - 1, p) then hi - 1
    else LastIndexIn(s, p, lo, hi - 1)
  }

  /** The last `c` in `[lo, hi)`, or -1. */
  function LastCharIn(s: string, c: char, lo: nat, hi: nat): (r: int)
    requires hi <= |s|
    ensures r == -1 || (lo <= r < hi && s[r] == c)
    ensures r == -1 ==> forall j :: lo <= j < hi ==> s[j] != c
    ensures r >= 0 ==> forall j :: r < j < hi ==> s[j] != c
    decreases hi
  {
    if hi <= lo then -1
    else if s[hi - 1] == c then hi - 1
    else LastCharIn(s, c, lo, hi - 1)
  }

  /** `\d`: only the ASCII digits. */
  predicate IsDigit(c: char) { '0' <= c <= '9' }

  /** The characters `.` does not match. */
  predicate IsLineTerminator(c: char) {
    c == '\n' || c == '\r' || c == '\U{2028}' || c == '\U{2029}'
  }

  /** `\s`: ECMAScript white space and line terminators. */
  predicate IsJsSpace(c: char) {
    c == '\t' || c == '\n' || c == '\U{000B}' || c == '\U{000C}' || c == '\r' || c == ' '
    || c == '\U{00A0}' || c == '\U{1680}' || ('\U{2000}' <= c <= '\U{200A}')
    || c == '\U{2028}' || c == '\U{2029}' || c == '\U{202F}' || c == '\U{205F}'
    || c == '\U{3000}' || c == '\U{FEFF}'
  }

  /** `\w`, which decides where `\b` sits. */
  predicate IsWordChar(c: char) {
    ('a' <= c <= 'z') || ('A' <= c <= 'Z') || IsDigit(c) || c == '_'
  }

  /** `\b` just before offset `i` when `s[i]` is a word character. */
  predicate WordStart(s: string, i: nat)
    requires i <= |s|
  {
    i == 0 || !IsWordChar(s[i - 1])
  }

  /** The first line terminator at or after `from`, or `|s|`: where `.*` must stop. */
  function LineEnd(s: string, from: nat): (r: nat)
    ensures from <= |s| ==> from <= r <= |s|
    ensures from > |s| ==> r == from
    ensures forall j :: from <= j < r ==> !IsLineTerminator(s[j])
    ensures r < |s| ==> IsLineTerminator(s[r])
    decreases |s| - from
  {
    if from >= |s| then from
    else if IsLineTerminator(s[from]) then from
    else LineEnd(s, from + 1)
  }

  /** The end of the run of `\s` characters starting at `from` (what `\s*` consumes). */
  function SkipSpaces(s: string, from: nat): (r: nat)
    requires from <= |s|
    ensures from <= r <= |s|
    ensures forall j :: from <= j < r ==> IsJsSpace(s[j])
    ensures r < |s| ==> !IsJsSpace(s[r])
    decreases |s| - from
  {
    if from == |s| || !IsJsSpace(s[from]) then from
    else SkipSpaces(s, from + 1)
  }

  /** The end of the run of digits starting at `from` (what greedy `\d+` consumes). */
  function SkipDigits(s: string, from: nat): (r: nat)
    requires from <= |s|
    ensures from <= r <= |s|
    ensures forall j :: from <= j < r ==> IsDigit(s[j])
    ensures r < |s| ==> !IsDigit(s[r])
    decreases |s| - from
  {
    if from == |s| || !IsDigit(s[from]) then from
    else SkipDigits(s, from + 1)
  }

  /** ASCII case folding; every other character is left alone. */
  function LowerChar(c: char): (r: char)
    ensures r == '>' <==> c == '>'
    ensures r == ':' <==> c == ':'
    ensures !('A' <= r <= 'Z')
  {
    if 'A' <= c <= 'Z' then (c as int + 32) as char else c
  }

  function Lower(s: string): (r: string)
    ensures |r| == |s|
    ensures forall i :: 0 <= i < |s| ==> r[i] == LowerChar(s[i])
  {
    seq(|s|, i requires 0 <= i < |s| => LowerChar(s[i]))
  }

  /** Case-insensitive occurrence of `p` at `i`, as an `i`-flagged regex sees it. */
  predicate StartsAtIgnoringCase(s: string, i: int, p: string) {
    0 <= i && i + |p| <= |s| && Lower(s[i..i + |p|]) == Lower(p)
  }

  lemma LowerSlice(s: string, i: nat, j: nat)
    requires i <= j <= |s|
    ensures Lower(s)[i..j] == Lower(s[i..j])
  {
  }

  lemma LowerIdempotent(s: string)
    ensures Lower(Lower(s)) == Lower(s)
  {
  }

  /** Case-insensitive matching only sees the folded text. */
  lemma StartsAtIgnoringCaseOfLower(s: string, i: int, p: string)
    ensures StartsAtIgnoringCase(s, i, p) <==> StartsAtIgnoringCase(Lower(s), i, p)
  {
    if 0 <= i && i + |p| <= |s| {
      LowerSlice(s, i, i + |p|);
      LowerIdempotent(s[i..i + |p|]);
      assert Lower(Lower(s)[i..i + |p|]) == Lower(Lower(s[i..i + |p|]));
    }
  }

  /** An occurrence begins with the pattern's first character. */
  lemma StartsAtHead(s: string, j: nat, p: string)
    requires j < |s| && |p| > 0
    ensures s[j] != p[0] ==> !StartsAt(s, j, p)
  {
    if j + |p| <= |s| {
      assert s[j..j + |p|][0] == s[j];
    }
  }

  /** The first occurrence is the one `IndexOf` reports. */
  lemma IndexOfIs(s: string, p: string, from: nat, m: nat)
    requires from <= m && StartsAt(s, m, p)
    requires forall j :: from <= j < m ==> !StartsAt(s, j, p)
    ensures IndexOf(s, p, from) == m
  {
  }

  /** Regrouping a concatenation of three pieces. */
  lemma Regroup(whole: string, tail: string, a: string, b: string, c: string)
    requires whole == (a + b) + c && tail == b + c
    ensures whole == a + tail
  {
    assert (a + b) + c == a + (b + c);
  }

  /** `xs.join(sep)`. */
  function Join(xs: seq<string>, sep: string): string
    decreases |xs|
  {
    if |xs| == 0 then "" else if |xs| == 1 then xs[0] else xs[0] + sep + Join(xs[1..], sep)
  }

  /** `s.split(sep)` for a non-empty separator. */
  function Split(s: string, sep: string): (r: seq<string>)
    requires |sep| > 0
    ensures |r| >= 1
    decreases |s|
  {
    var k := IndexOf(s, sep, 0);
    if k < 0 then [s] else [s[..k]] + Split(s[k + |sep|..], sep)
  }

  /** A string free of `c` is never where an occurrence of something starting with `c` begins. */
  lemma NoOccurrenceBefore(a: string, sep: string, b: string)
    requires |sep| > 0
    requires forall i :: 0 <= i < |a| ==> a[i] != sep[0]
    ensures IndexOf(a + sep + b, sep, 0) == |a|
  {
    var s := a + sep + b;
    assert s[|a|..|a| + |sep|] == sep;
    forall j | 0 <= j < |a|
      ensures !StartsAt(s, j, sep)
    {
      assert s[j] == a[j];
      StartsAtHead(s, j, sep);
    }
    IndexOfIs(s, sep, 0, |a|);
  }

  lemma SplitNone(s: string, sep: string)
    requires |sep| > 0 && !Contains(s, sep)
    ensures Split(s, sep) == [s]
  {
    IndexOfFindsContained(s, sep);
  }

  /** Splitting a joined list gives the list back when the separator's first
      character occurs in no element. */
  lemma {:induction false} SplitJoin(xs: seq<string>, sep: string)
    requires |xs| >= 1 && |sep| > 0
    requires forall x, i :: x in xs && 0 <= i < |x| ==> x[i] != sep[0]
    ensures Split(Join(xs, sep), sep) == xs
    decreases |xs|
  {
    var x := xs[0];
    if |xs| == 1 {
      forall i | 0 <= i <= |x|
        ensures !StartsAt(x, i, sep)
      {
        if i < |x| {
          StartsAtHead(x, i, sep);
        }
      }
      SplitNone(x, sep);
    } else {
      var rest := Join(xs[1..], sep);
      NoOccurrenceBefore(x, sep, rest);
      assert (x + sep + rest)[..|x|] == x;
      assert (x + sep + rest)[|x| + |sep|..] == rest;
      SplitJoin(xs[1..], sep);
    }
  }
}
