/** The shape shared by the rule dictionaries: a row per validator rule, and
    the two lookups the validators use on them. */
module RuleTable {
  import opened Wrappers
  import opened Strings

  /** `wcag` is the citation "<guideline version> | <criteria>". */
  datatype Rule = Rule(ruleid: string, wcag: string, errorMsg: string, suggestMsg: string)

  /** `table.findIndex(p)` from `from` on, as an option. */
  function FirstFrom(table: seq<Rule>, p: Rule -> bool, from: nat): (r: Option<nat>)
    ensures r.Some? ==> from <= r.value < |table| && p(table[r.value])
    ensures r.Some? ==> forall j :: from <= j < r.value ==> !p(table[j])
    ensures r.None? ==> forall j :: from <= j < |table| ==> !p(table[j])
    decreases |table| - from
  {
    if from >= |table| then None
    else if p(table[from]) then Some(from)
    else FirstFrom(table, p, from + 1)
  }

  /** The WHATWG lookup: the first row whose `ruleid` equals the validator's rule id. */
  function FindById(table: seq<Rule>, id: string): (r: Option<nat>)
    ensures r.Some? ==> r.value < |table| && table[r.value].ruleid == id
    ensures r.Some? ==> forall j :: 0 <= j < r.value ==> table[j].ruleid != id
    ensures r.None? <==> forall j :: 0 <= j < |table| ==> table[j].ruleid != id
  {
    FirstFrom(table, (x: Rule) => x.ruleid == id, 0)
  }

  /** The W3C lookup: the first row whose `ruleid` occurs in the validator's message. */
  function FindInMessage(table: seq<Rule>, message: string): (r: Option<nat>)
    ensures r.Some? ==> r.value < |table| && Contains(message, table[r.value].ruleid)
    ensures r.Some? ==> forall j :: 0 <= j < r.value ==> !Contains(message, table[j].ruleid)
    ensures r.None? <==> forall j :: 0 <= j < |table| ==> !Contains(message, table[j].ruleid)
  {
    FirstFrom(table, (x: Rule) => Contains(message, x.ruleid), 0)
  }

  /** `table.find(r => r.ruleid === id)`: the row itself. */
  function RuleById(table: seq<Rule>, id: string): (r: Option<Rule>)
    ensures r.Some? ==> r.value in table && r.value.ruleid == id
    ensures r.None? <==> forall x :: x in table ==> x.ruleid != id
  {
    match FindById(table, id)
    case Some(i) => Some(table[i])
    case None => None
  }

  predicate DistinctIds(table: seq<Rule>) {
    forall i, j :: 0 <= i < j < |table| ==> table[i].ruleid != table[j].ruleid
  }

  /** With distinct ids, every row is the one its own id finds. */
  lemma FindByIdUnique(table: seq<Rule>, i: nat)
    requires DistinctIds(table) && i < |table|
    ensures FindById(table, table[i].ruleid) == Some(i)
  {
  }

  /** With distinct ids, the row found depends only on which rows the table
      holds, not on their order. */
  lemma RuleByIdOrderFree(t1: seq<Rule>, t2: seq<Rule>, id: string)
    requires DistinctIds(t1) && DistinctIds(t2)
    requires forall x :: x in t1 <==> x in t2
    ensures RuleById(t1, id) == RuleById(t2, id)
  {
    var r1, r2 := RuleById(t1, id), RuleById(t2, id);
    if r1.Some? && r2.Some? {
      var i1 :| 0 <= i1 < |t1| && t1[i1] == r2.value;
      assert t1[FindById(t1, id).value].ruleid == t1[i1].ruleid;
    }
  }

  /** A row whose key contains the key of an earlier row is never chosen by
      the W3C lookup: any message containing it also contains the earlier key. */
  lemma ShadowedNeverFound(table: seq<Rule>, i: nat, j: nat, message: string)
    requires i < j < |table|
    requires Contains(table[j].ruleid, table[i].ruleid)
    ensures FindInMessage(table, message) != Some(j)
  {
    if Contains(message, table[j].ruleid) {
      ContainsTransitive(message, table[j].ruleid, table[i].ruleid);
    }
  }

  /** A row that the lookup never returns. */
  ghost predicate Unreachable(table: seq<Rule>, j: nat) {
    forall message :: FindInMessage(table, message) != Some(j)
  }

  lemma ShadowedUnreachable(table: seq<Rule>, i: nat, j: nat)
    requires i < j < |table|
    requires Contains(table[j].ruleid, table[i].ruleid)
    ensures Unreachable(table, j)
  {
    forall message: string
      ensures FindInMessage(table, message) != Some(j)
    {
      ShadowedNeverFound(table, i, j, message);
    }
  }

  /** A repeated key: the later row is shadowed by the earlier one. */
  lemma DuplicateUnreachable(table: seq<Rule>, i: nat, j: nat)
    requires i < j < |table| && table[i].ruleid == table[j].ruleid
    ensures Unreachable(table, j)
  {
    assert StartsAt(table[j].ruleid, 0, table[i].ruleid);
    ShadowedUnreachable(table, i, j);
  }

  /** A criterion number such as `2.4.10`. */
  predicate CriterionId(x: string) {
    |x| >= 1 && forall i :: 0 <= i < |x| ==> IsDigit(x[i]) || x[i] == '.'
  }

  /** The citation format the dictionaries document: version, `" | "`, then the
      criteria separated by `", "`. */
  function Cite(version: string, criteria: seq<string>): string {
    version + " | " + Join(criteria, ", ")
  }

  lemma CiteStartsWithVersion(version: string, criteria: seq<string>)
    ensures StartsAt(Cite(version, criteria), 0, version + " | ")
  {
    assert Cite(version, criteria)[..|version| + 3] == version + " | ";
  }

  /** A citation "<version> | <criteria>" holds its separator exactly once, and
      splitting it as the client does gives back the version and the criteria list. */
  lemma CiteSplits(version: string, criteria: seq<string>)
    requires forall i :: 0 <= i < |version| ==> version[i] != '|'
    requires |criteria| >= 1 && forall c :: c in criteria ==> CriterionId(c)
    ensures forall k :: StartsAt(Cite(version, criteria), k, " | ") <==> k == |version|
    ensures Split(Cite(version, criteria), " | ") == [version, Join(criteria, ", ")]
  {
    forall x, i | x in criteria && 0 <= i < |x|
      ensures x[i] != '|'
    {
      assert CriterionId(x);
    }
    JoinAvoids(criteria, ", ", '|');
    SeparatorOnce(version, Join(criteria, ", "));
  }

  /** The criteria of a citation are separated by `", "`: splitting them there
      gives back the criterion numbers. */
  lemma CriteriaSplit(criteria: seq<string>)
    requires |criteria| >= 1 && forall c :: c in criteria ==> CriterionId(c)
    ensures Split(Join(criteria, ", "), ", ") == criteria
  {
    forall x, i | x in criteria && 0 <= i < |x|
      ensures x[i] != ','
    {
      assert CriterionId(x);
    }
    SplitJoin(criteria, ", ");
  }

  /** A character absent from the elements and the separator is absent from the join. */
  lemma {:induction false} JoinAvoids(xs: seq<string>, sep: string, c: char)
    requires forall i :: 0 <= i < |sep| ==> sep[i] != c
    requires forall x, i :: x in xs && 0 <= i < |x| ==> x[i] != c
    ensures forall i :: 0 <= i < |Join(xs, sep)| ==> Join(xs, sep)[i] != c
    decreases |xs|
  {
    if |xs| == 1 {
      assert xs[0] in xs;
    } else if |xs| > 1 {
      assert xs[0] in xs;
      JoinAvoids(xs[1..], sep, c);
    }
  }

  /** `" | "` occurs in "<v> | <body>" only where it was put, when neither side holds a bar. */
  lemma SeparatorOnce(v: string, body: string)
    requires forall i :: 0 <= i < |v| ==> v[i] != '|'
    requires forall i :: 0 <= i < |body| ==> body[i] != '|'
    ensures forall k :: StartsAt(v + " | " + body, k, " | ") <==> k == |v|
    ensures Split(v + " | " + body, " | ") == [v, body]
  {
    var w := v + " | " + body;
    forall k | 0 <= k <= |w|
      ensures StartsAt(w, k, " | ") <==> k == |v|
    {
      if k == |v| {
        assert w[k..k + 3] == " | ";
      } else if k + 3 <= |w| {
        assert w[k..k + 3][1] == w[k + 1];
        assert w[k + 1] != '|';
      }
    }
    IndexOfIs(w, " | ", 0, |v|);
    assert w[..|v|] == v;
    assert w[|v| + 3..] == body;
    forall k | 0 <= k <= |body|
      ensures !StartsAt(body, k, " | ")
    {
      if k + 3 <= |body| {
        assert body[k..k + 3][1] == body[k + 1];
      }
    }
    SplitNone(body, " | ");
  }

  /** `w` is the citation of `version` and `criteria`, in the documented format. */
  predicate WellCitedBy(w: string, version: string, criteria: seq<string>) {
    w == Cite(version, criteria)
    && (forall i :: 0 <= i < |version| ==> version[i] != '|')
    && |criteria| >= 1 && (forall c :: c in criteria ==> CriterionId(c))
  }

  ghost predicate WellCited(w: string) {
    exists version, criteria :: WellCitedBy(w, version, criteria)
  }

  /** What the client reads out of a well-formed citation: the split on `" | "`
      has two parts, and the second lists the criteria separated by `", "`. */
  lemma WellCitedSplits(w: string)
    requires WellCited(w)
    ensures forall k, k' :: StartsAt(w, k, " | ") && StartsAt(w, k', " | ") ==> k == k'
    ensures |Split(w, " | ")| == 2
    ensures forall c :: c in Split(Split(w, " | ")[1], ", ") ==> CriterionId(c)
  {
    var version, criteria :| WellCitedBy(w, version, criteria);
    CiteSplits(version, criteria);
    CriteriaSplit(criteria);
  }
}
