/** The language server's own copies of the two dictionaries. Their rows,
    keys and messages are those of the dictionary modules; only citations
    differ: six WHATWG rows cite the bare version "WCAG 2.2" with no
    criteria, and every W3C row cites "WCAG 2.1". */
module ServerDicts {
  import opened Wrappers
  import opened Strings
  import opened RuleTable
  import WhatwgDict
  import W3cDict

  /** The rows whose ids are in `ids` cite `version` alone; nothing else changes. */
  function Bare(table: seq<Rule>, ids: set<string>, version: string): (t: seq<Rule>)
    ensures |t| == |table|
    ensures forall i :: 0 <= i < |table| ==>
              t[i].ruleid == table[i].ruleid && t[i].errorMsg == table[i].errorMsg
              && t[i].suggestMsg == table[i].suggestMsg
    ensures forall i :: 0 <= i < |table| ==>
              t[i].wcag == (if table[i].ruleid in ids then version else table[i].wcag)
  {
    seq(|table|, i requires 0 <= i < |table| =>
      if table[i].ruleid in ids then table[i].(wcag := version) else table[i])
  }

  /** The WHATWG ids whose server row cites the version without criteria. */
  const BareIds: set<string> := {"aria-hidden-body", "aria-label-misuse", "hidden-focusable",
    "input-missing-label", "multiple-labeled-controls", "no-autoplay"}

  /** `WHATWGtoRule` in the server. */
  const ServerWhatwgTable: seq<Rule> := Bare(WhatwgDict.WhatwgTable, BareIds, "WCAG 2.2")

  /** `W3CtoRule` in the server. */
  const ServerW3cTable: seq<Rule> := W3cDict.Versioned(W3cDict.W3cRows, "WCAG 2.1")

  /** Changing citations changes no lookup: an id finds the same row, with
      the same messages, in both copies, and the citations differ exactly
      for the listed ids. */
  lemma {:induction false} BareKeepsLookups(table: seq<Rule>, ids: set<string>, version: string, id: string)
    ensures FindById(Bare(table, ids, version), id) == FindById(table, id)
    ensures FindById(table, id).Some? ==>
              var i := FindById(table, id).value;
              Bare(table, ids, version)[i].errorMsg == table[i].errorMsg
              && Bare(table, ids, version)[i].suggestMsg == table[i].suggestMsg
              && (Bare(table, ids, version)[i].wcag == table[i].wcag <==> id !in ids || table[i].wcag == version)
  {
    var t := Bare(table, ids, version);
    match FindById(table, id)
    case None =>
    case Some(i) =>
      assert forall j :: 0 <= j < i ==> t[j].ruleid != id;
  }

  /** The two W3C copies differ in their version only, so every checker
      message selects the same row in both. */
  lemma VersionsSelectAlike(rows: seq<W3cDict.Row>, v1: string, v2: string, message: string)
    ensures FindInMessage(W3cDict.Versioned(rows, v1), message) == FindInMessage(W3cDict.Versioned(rows, v2), message)
    ensures FindInMessage(W3cDict.Versioned(rows, v1), message).Some? ==>
              var i := FindInMessage(W3cDict.Versioned(rows, v1), message).value;
              W3cDict.Versioned(rows, v1)[i].errorMsg == W3cDict.Versioned(rows, v2)[i].errorMsg
              && W3cDict.Versioned(rows, v1)[i].suggestMsg == W3cDict.Versioned(rows, v2)[i].suggestMsg
  {
    var t1, t2 := W3cDict.Versioned(rows, v1), W3cDict.Versioned(rows, v2);
    match FindInMessage(t1, message)
    case None =>
    case Some(i) =>
      assert forall j :: 0 <= j < i ==> t2[j].ruleid == t1[j].ruleid;
  }

  /** The server's citations spell out as it writes them: the image row under
      "WCAG 2.1", and the `aria-hidden-body` row with the bare version. */
  lemma ServerCitationsAsWritten()
    ensures ServerW3cTable[0].wcag == "WCAG 2.1 | 1.1.1"
    ensures ServerWhatwgTable[1].ruleid == "aria-hidden-body" && ServerWhatwgTable[1].wcag == "WCAG 2.2"
  {
  }

  /** A bare version holds no `" | "`: splitting it gives one part, so a
      reader of the citation finds no criteria in it. */
  lemma BareVersionHasNoCriteria()
    ensures Split("WCAG 2.2", " | ") == ["WCAG 2.2"]
  {
    var w := "WCAG 2.2";
    forall k | 0 <= k <= |w|
      ensures !StartsAt(w, k, " | ")
    {
      if k + 3 <= |w| {
        assert w[k..k + 3][1] == w[k + 1];
      }
    }
    SplitNone(w, " | ");
  }
}
