/** The Language Server Protocol records the engine produces, and the
    offset-to-position conversion it relies on. */
module Lsp {
  import opened Wrappers
  import opened Strings

  /** Every diagnostic of the engine is a warning. */
  datatype Severity = Warning

  /** Zero-based line and character. */
  datatype Pos = Pos(line: int, character: int)

  datatype Range = Range(start: Pos, end: Pos)

  datatype Location = Location(uri: string, range: Range)

  /** A `relatedInformation` item; `message` is `None` when the source puts
      `undefined` there. */
  datatype Related = Related(location: Location, message: Option<string>)

  /** `related` is `None` when the client lacks the related-information capability. */
  datatype Diagnostic = Diagnostic(
    severity: Severity,
    range: Range,
    message: string,
    source: string,
    related: Option<seq<Related>>)

  /** What every adapter and scanner reads besides its input: the document's
      uri, whether the client can show related information, and the
      `maxNumberOfProblems` setting (1000 by default). */
  datatype Context = Context(uri: string, relatedCapability: bool, maxProblems: int)

  const DefaultMaxProblems := 1000

  /** The `relatedInformation` the source attaches: one item pointing at the
      diagnostic's own range, or nothing without the capability. */
  function RelatedAt(ctx: Context, range: Range, message: Option<string>): (r: Option<seq<Related>>)
    ensures r.Some? <==> ctx.relatedCapability
    ensures r.Some? ==>
      |r.value| == 1 && r.value[0].location == Location(ctx.uri, range) && r.value[0].message == message
  {
    if ctx.relatedCapability then Some([Related(Location(ctx.uri, range), message)]) else None
  }

  /** Document order of positions. */
  predicate PosLe(p: Pos, q: Pos) {
    p.line < q.line || (p.line == q.line && p.character <= q.character)
  }

  /** Number of line feeds in `s`. */
  function Newlines(s: string): (n: nat)
    ensures n <= |s|
    decreases |s|
  {
    if |s| == 0 then 0
    else Newlines(s[..|s| - 1]) + (if s[|s| - 1] == '\n' then 1 else 0)
  }

  lemma {:induction false} NewlinesAppend(s: string, t: string)
    ensures Newlines(s + t) == Newlines(s) + Newlines(t)
    decreases |t|
  {
    if |t| > 0 {
      assert (s + t)[..|s + t| - 1] == s + t[..|t| - 1];
      NewlinesAppend(s, t[..|t| - 1]);
    } else {
      assert s + t == s;
    }
  }

  lemma {:induction false} NewlinesAbsent(s: string)
    requires forall i :: 0 <= i < |s| ==> s[i] != '\n'
    ensures Newlines(s) == 0
    decreases |s|
  {
    if |s| > 0 {
      NewlinesAbsent(s[..|s| - 1]);
    }
  }

  lemma {:induction false} NewlinesPresent(s: string, k: nat)
    requires k < |s| && s[k] == '\n'
    ensures Newlines(s) >= 1
    decreases |s|
  {
    if k < |s| - 1 {
      NewlinesPresent(s[..|s| - 1], k);
    }
  }

  /** The offset clamped into the text, as the document library does. */
  function Clamp(text: string, offset: int): (o: nat)
    ensures o <= |text|
    ensures 0 <= offset <= |text| ==> o == offset
    ensures offset < 0 ==> o == 0
    ensures offset > |text| ==> o == |text|
  {
    if offset < 0 then 0 else if offset > |text| then |text| else offset
  }

  /** The offset where the line holding offset `o` begins. */
  function LineStart(text: string, o: nat): (r: nat)
    requires o <= |text|
    ensures r <= o
    ensures forall j :: r <= j < o ==> text[j] != '\n'
    ensures r == 0 || text[r - 1] == '\n'
  {
    LastCharIn(text, '\n', 0, o) + 1
  }

  /** `textDocument.positionAt(offset)`. The document library is not part of this
      model; the assumption is that only `\n` breaks lines. */
  function PositionAt(text: string, offset: int): (p: Pos)
    ensures 0 <= p.line && 0 <= p.character
    ensures p.line == Newlines(text[..Clamp(text, offset)])
    ensures p.character == Clamp(text, offset) - LineStart(text, Clamp(text, offset))
  {
    var o := Clamp(text, offset);
    Pos(Newlines(text[..o]), o - LineStart(text, o))
  }

  /** With no line feed between two offsets, both are on the same line start. */
  lemma {:induction false} LineStartNoBreak(text: string, a: nat, b: nat)
    requires a <= b <= |text|
    requires forall j :: a <= j < b ==> text[j] != '\n'
    ensures LineStart(text, a) == LineStart(text, b)
    decreases b - a
  {
    if a < b {
      LineStartNoBreak(text, a, b - 1);
    }
  }

  /** Offsets on one line map to one line, `b - a` characters apart. */
  lemma SameLine(text: string, a: nat, b: nat)
    requires a <= b <= |text|
    requires forall j :: a <= j < b ==> text[j] != '\n'
    ensures PositionAt(text, b).line == PositionAt(text, a).line
    ensures PositionAt(text, b).character == PositionAt(text, a).character + (b - a)
  {
    LineStartNoBreak(text, a, b);
    assert text[..b] == text[..a] + text[a..b];
    NewlinesAppend(text[..a], text[a..b]);
    NewlinesAbsent(text[a..b]);
  }

  /** A line feed between two offsets puts the later one on a later line. */
  lemma LaterLine(text: string, a: nat, b: nat, k: nat)
    requires a <= k < b <= |text| && text[k] == '\n'
    ensures Newlines(text[..a]) < Newlines(text[..b])
  {
    assert text[..b] == text[..a] + text[a..b];
    NewlinesAppend(text[..a], text[a..b]);
    NewlinesPresent(text[a..b], k - a);
  }

  /** `positionAt` is monotone: a later offset never maps to an earlier position. */
  lemma PositionAtMonotone(text: string, a: int, b: int)
    requires a <= b
    ensures PosLe(PositionAt(text, a), PositionAt(text, b))
  {
    var oa, ob := Clamp(text, a), Clamp(text, b);
    if k :| oa <= k < ob && text[k] == '\n' {
      LaterLine(text, oa, ob, k);
    } else {
      SameLine(text, oa, ob);
    }
  }
}
