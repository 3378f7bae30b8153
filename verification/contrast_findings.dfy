/** The findings `checkContrast` produces and the clean-up pass of
    `checkDocumentContrast` that drops the ones without a report. */
module ContrastFindings {
  /** What `checkContrast` returns: the report and where the text was found. */
  datatype ContrastFinding = ContrastFinding(contrastIssue: string, start: int, end: int)

  /** The findings that carry a report, in their original order. */
  function KeepIssues(fs: seq<ContrastFinding>): (r: seq<ContrastFinding>)
    decreases |fs|
  {
    if |fs| == 0 then []
    else (if fs[0].contrastIssue == "" then [] else [fs[0]]) + KeepIssues(fs[1..])
  }

  lemma KeepIssuesFrom(fs: seq<ContrastFinding>, i: nat)
    requires i < |fs|
    ensures KeepIssues(fs[i..]) == (if fs[i].contrastIssue == "" then [] else [fs[i]]) + KeepIssues(fs[i + 1..])
  {
    assert fs[i..][1..] == fs[i + 1..];
  }

  /** The source's clean-up loop: walk the list from the back and splice out
      every finding without a report. Here `n` is one past the source's
      index, so `r[n - 1]` is the finding it looks at. */
  method RemoveEmpty(fs: seq<ContrastFinding>) returns (r: seq<ContrastFinding>)
    ensures r == KeepIssues(fs)
  {
    r := fs;
    var n := |fs|;
    assert fs[n..] == [];
    while n > 0
      invariant 0 <= n <= |fs|
      invariant r == fs[..n] + KeepIssues(fs[n..])
    {
      SpliceStep(fs, n);
      if r[n - 1].contrastIssue == "" {
        r := r[..n - 1] + r[n..];
      }
      n := n - 1;
    }
    assert fs[..0] == [];
  }

  /** One step of the loop: splicing out finding `n - 1` when it has no
      report (and keeping it otherwise) moves the boundary one place left. */
  lemma SpliceStep(fs: seq<ContrastFinding>, n: nat)
    requires 0 < n <= |fs|
    ensures var s := fs[..n] + KeepIssues(fs[n..]);
      |s| >= n && s[n - 1] == fs[n - 1]
      && (if fs[n - 1].contrastIssue == "" then s[..n - 1] + s[n..] else s)
         == fs[..n - 1] + KeepIssues(fs[n - 1..])
  {
    var s := fs[..n] + KeepIssues(fs[n..]);
    KeepIssuesFrom(fs, n - 1);
    assert s[..n - 1] == fs[..n - 1];
    assert s[n..] == KeepIssues(fs[n..]);
    assert fs[..n] == fs[..n - 1] + [fs[n - 1]];
  }

  /** Exactly the findings with a report survive. */
  lemma {:induction false} KeepIssuesMembers(fs: seq<ContrastFinding>)
    ensures forall f :: f in KeepIssues(fs) <==> f in fs && f.contrastIssue != ""
    decreases |fs|
  {
    if |fs| > 0 {
      KeepIssuesMembers(fs[1..]);
      assert fs == [fs[0]] + fs[1..];
    }
  }
}
