/** The two validator passes as the language server runs them after its
    inline battery: a loop over html-validate's errors on the shared count,
    then `processDiagnostics` over the Nu HTML Checker's messages, every call
    handed the count as it stood when the pass began. */
module ServerValidators {
  import opened Wrappers
  import opened Strings
  import opened Lsp
  import opened RuleTable
  import opened Scan
  import opened WhatwgValidator
  import opened W3cValidator
  import W3cDict

  /** The diagnostics array and the `problems` count of a validation run. */
  datatype Tally = Tally(diagnostics: seq<Diagnostic>, problems: int)

  /** What the error loop reports for the errors it reaches: one diagnostic
      per error whose rule id has a row, in error order, duplicates included. */
  function Found(table: seq<Rule>, ctx: Context, msgs: seq<WhatwgMessage>): (r: seq<Diagnostic>)
    ensures |r| <= |msgs|
    decreases |msgs|
  {
    if |msgs| == 0 then []
    else
      var n := |msgs| - 1;
      Found(table, ctx, msgs[..n])
        + match FindById(table, msgs[n].ruleId)
          case Some(i) => [WhatwgDiagnostic(ctx, msgs[n], table[i])]
          case None => []
  }

  /** One iteration of the error loop: nothing at the limit; otherwise the
      error is counted, found or not, and reported when its id has a row. */
  function WhatwgStep(table: seq<Rule>, ctx: Context, t: Tally, msg: WhatwgMessage): (r: Tally)
    ensures t.problems >= ctx.maxProblems ==> r == t
    ensures t.problems < ctx.maxProblems ==>
              r == Tally(t.diagnostics + Found(table, ctx, [msg]), t.problems + 1)
  {
    assert [msg][..0] == [];
    if t.problems >= ctx.maxProblems then t
    else match FindById(table, msg.ruleId)
      case None => Tally(t.diagnostics, t.problems + 1)
      case Some(i) => Tally(t.diagnostics + [WhatwgDiagnostic(ctx, msg, table[i])], t.problems + 1)
  }

  /** The error loop over `msgs` from the tally `t`. */
  function WhatwgLoop(table: seq<Rule>, ctx: Context, msgs: seq<WhatwgMessage>, t: Tally): (r: Tally)
    ensures r.problems == t.problems + Min(|msgs|, Budget(ctx, t.problems))
    decreases |msgs|
  {
    if |msgs| == 0 then t
    else
      var n := |msgs| - 1;
      WhatwgStep(table, ctx, WhatwgLoop(table, ctx, msgs[..n], t), msgs[n])
  }

  /** The loop reaches the first errors, as many as the count has left, and
      reports those of them whose id has a row. */
  lemma {:induction false} WhatwgLoopReportsFound(table: seq<Rule>, ctx: Context, msgs: seq<WhatwgMessage>, t: Tally)
    ensures WhatwgLoop(table, ctx, msgs, t).diagnostics
      == t.diagnostics + Found(table, ctx, msgs[..Min(|msgs|, Budget(ctx, t.problems))])
    decreases |msgs|
  {
    if |msgs| > 0 {
      var n := |msgs| - 1;
      var b := Budget(ctx, t.problems);
      var front := WhatwgLoop(table, ctx, msgs[..n], t);
      assert WhatwgLoop(table, ctx, msgs, t) == WhatwgStep(table, ctx, front, msgs[n]);
      WhatwgLoopReportsFound(table, ctx, msgs[..n], t);
      assert msgs[..n][..Min(n, b)] == msgs[..Min(n, b)];
      if n < b {
        FoundLast(table, ctx, msgs);
        assert msgs[..Min(|msgs|, b)] == msgs;
        assert front.problems < ctx.maxProblems;
        AppendAssoc(t.diagnostics, Found(table, ctx, msgs[..n]), Found(table, ctx, [msgs[n]]));
      } else {
        assert Min(|msgs|, b) == Min(n, b);
      }
    }
  }

  /** The errors found in `msgs` are those found before its last one, then the last one's. */
  lemma FoundLast(table: seq<Rule>, ctx: Context, msgs: seq<WhatwgMessage>)
    requires |msgs| > 0
    ensures var n := |msgs| - 1;
      Found(table, ctx, msgs) == Found(table, ctx, msgs[..n]) + Found(table, ctx, [msgs[n]])
  {
    assert [msgs[|msgs| - 1]][..0] == [];
  }

  /** There is no duplicate test: an error listed twice is reported twice. */
  lemma RepeatedErrorReportedTwice(table: seq<Rule>, ctx: Context, msg: WhatwgMessage, t: Tally)
    requires FindById(table, msg.ruleId).Some?
    requires t.problems + 2 <= ctx.maxProblems
    ensures var d := WhatwgDiagnostic(ctx, msg, table[FindById(table, msg.ruleId).value]);
      WhatwgLoop(table, ctx, [msg, msg], t) == Tally(t.diagnostics + [d, d], t.problems + 2)
  {
    var d := WhatwgDiagnostic(ctx, msg, table[FindById(table, msg.ruleId).value]);
    WhatwgLoopReportsFound(table, ctx, [msg, msg], t);
    assert [msg, msg][..2] == [msg, msg] && [msg, msg][..1] == [msg] && [msg][..0] == [];
    assert Found(table, ctx, [msg]) == [d];
  }

  /** Errors whose id has no row report nothing, yet each of them uses up
      one unit of the limit. */
  lemma UnknownErrorsUseTheLimit(table: seq<Rule>, ctx: Context, msgs: seq<WhatwgMessage>, t: Tally)
    requires forall j :: 0 <= j < |msgs| ==> FindById(table, msgs[j].ruleId).None?
    ensures WhatwgLoop(table, ctx, msgs, t) == Tally(t.diagnostics, t.problems + Min(|msgs|, Budget(ctx, t.problems)))
  {
    WhatwgLoopReportsFound(table, ctx, msgs, t);
    FoundNone(table, ctx, msgs[..Min(|msgs|, Budget(ctx, t.problems))]);
  }

  lemma {:induction false} FoundNone(table: seq<Rule>, ctx: Context, msgs: seq<WhatwgMessage>)
    requires forall j :: 0 <= j < |msgs| ==> FindById(table, msgs[j].ruleId).None?
    ensures Found(table, ctx, msgs) == []
    decreases |msgs|
  {
    if |msgs| > 0 {
      FoundNone(table, ctx, msgs[..|msgs| - 1]);
    }
  }

  /** The `forEach` itself, on the run's diagnostics array and count. */
  method RunWhatwg(table: seq<Rule>, ctx: Context, msgs: seq<WhatwgMessage>, diagnostics: seq<Diagnostic>, problems: int)
    returns (ds: seq<Diagnostic>, count: int)
    ensures Tally(ds, count) == WhatwgLoop(table, ctx, msgs, Tally(diagnostics, problems))
  {
    ds, count := diagnostics, problems;
    for k := 0 to |msgs|
      invariant Tally(ds, count) == WhatwgLoop(table, ctx, msgs[..k], Tally(diagnostics, problems))
    {
      assert msgs[..k + 1][..k] == msgs[..k];
      if count < ctx.maxProblems {
        count := count + 1;
        var f := FindById(table, msgs[k].ruleId);
        if f.Some? {
          ds := ds + [WhatwgDiagnostic(ctx, msgs[k], table[f.value])];
        }
      }
    }
    assert msgs[..|msgs|] == msgs;
  }

  /** `query`'s answer when fetching or reading the image fails: a fixed
      notice for imgur sources, otherwise the source up to its first dot. */
  function Fallback(src: string): (r: string)
    ensures Contains(src, "imgur") ==> r == "Imgur is not supported."
    ensures !Contains(src, "imgur") ==>
              r <= src && (|r| == |src| || src[|r|] == '.') && forall k :: 0 <= k < |r| ==> r[k] != '.'
  {
    if Contains(src, "imgur") then "Imgur is not supported."
    else
      var d := FindChar(src, 0, '.');
      if d < 0 then src else src[..d]
  }

  /** The caption service behind `query`: the post-processed caption, or
      `None` when fetching or reading throws. */
  type CaptionService = string -> Option<string>

  /** `query(src)`: it catches its own failures, so it always answers. */
  function Query(network: CaptionService, src: string): string {
    match network(src)
    case Some(caption) => caption
    case None => Fallback(src)
  }

  /** The suggestion the server writes into the image row. */
  function AltSuggestion(src: string, alt: string): string {
    W3cDict.AltPrefix + (": <img src='" + src + "' alt='" + alt + "'>")
  }

  /** Whether `msg` selects a row that `processDiagnostics` enriches and then
      cannot parse: a truthy extract with no image tag, or a tag with no
      quoted `src`. */
  predicate Fails(table: seq<Rule>, msg: W3cMessage) {
    match FindInMessage(table, msg.message)
    case None => false
    case Some(i) =>
      Contains(table[i].suggestMsg, W3cDict.EnrichPhrase) && Truthy(msg.extract)
      && (FirstImgTag(msg.extract.value).None? || FirstSrc(FirstImgTag(msg.extract.value).value, 0).None?)
  }

  /** The server's image-row enrichment. Unlike the dictionary module's, it
      always rewrites the suggestion once the source is found, since `query`
      never throws. */
  function ServerEnrich(table: seq<Rule>, i: nat, network: CaptionService, extract: Option<string>): (r: Result<seq<Rule>>)
    requires i < |table|
    ensures r.Failure? <==>
              (Contains(table[i].suggestMsg, W3cDict.EnrichPhrase) && Truthy(extract)
               && (FirstImgTag(extract.value).None? || FirstSrc(FirstImgTag(extract.value).value, 0).None?))
    ensures r.Success? ==>
              |r.value| == |table| && (forall j :: 0 <= j < |table| && j != i ==> r.value[j] == table[j])
              && r.value[i] == table[i].(suggestMsg := r.value[i].suggestMsg)
    ensures r.Success? && r.value[i] != table[i] ==> Contains(table[i].suggestMsg, W3cDict.EnrichPhrase)
  {
    if !Contains(table[i].suggestMsg, W3cDict.EnrichPhrase) || !Truthy(extract) then Success(table)
    else match FirstImgTag(extract.value)
      case None => Failure("TypeError: Cannot read properties of null (reading '0')")
      case Some(tag) =>
        match FirstSrc(tag, 0)
        case None => Failure("TypeError: Cannot read properties of null (reading '1')")
        case Some(src) => Success(table[i := table[i].(suggestMsg := AltSuggestion(src, Query(network, src)))])
  }

  /** An image message that parses always leaves the caption for its source
      in the row, whatever the service does. */
  lemma ServerAlwaysEnriches(table: seq<Rule>, i: nat, network: CaptionService, extract: Option<string>)
    requires i < |table| && Contains(table[i].suggestMsg, W3cDict.EnrichPhrase) && Truthy(extract)
    requires FirstImgTag(extract.value).Some? && FirstSrc(FirstImgTag(extract.value).value, 0).Some?
    ensures var src := FirstSrc(FirstImgTag(extract.value).value, 0).value;
      ServerEnrich(table, i, network, extract).Success?
      && ServerEnrich(table, i, network, extract).value[i].suggestMsg == AltSuggestion(src, Query(network, src))
  {
  }

  /** The diagnostic the server builds: one line, from `firstColumn - 1` to
      `lastColumn - 1`. */
  function ServerW3cDiagnostic(ctx: Context, msg: W3cMessage, rule: Rule): (d: Diagnostic)
    ensures d.range.start == Pos(msg.lastLine - 1, msg.firstColumn - 1)
    ensures d.range.end == Pos(msg.lastLine - 1, msg.lastColumn - 1)
    ensures d.message == rule.errorMsg && d.source == rule.wcag
    ensures d.related == RelatedAt(ctx, d.range, Some(rule.suggestMsg))
  {
    var range := Range(Pos(msg.lastLine - 1, msg.firstColumn - 1), Pos(msg.lastLine - 1, msg.lastColumn - 1));
    Diagnostic(Warning, range, rule.errorMsg, rule.wcag, RelatedAt(ctx, range, Some(rule.suggestMsg)))
  }

  /** The server's diagnostic starts one character before the module
      adapter's; everything else it says is the same. */
  lemma ServerStartsOneEarlier(ctx: Context, msg: W3cMessage, rule: Rule)
    ensures ServerW3cDiagnostic(ctx, msg, rule).range.start.character
      == W3cDiagnostic(ctx, msg, rule).range.start.character - 1
    ensures ServerW3cDiagnostic(ctx, msg, rule).range.end == W3cDiagnostic(ctx, msg, rule).range.end
    ensures ServerW3cDiagnostic(ctx, msg, rule).message == W3cDiagnostic(ctx, msg, rule).message
    ensures ServerW3cDiagnostic(ctx, msg, rule).source == W3cDiagnostic(ctx, msg, rule).source
  {
  }

  /** `processDiagnostics`. `Failure` is the TypeError raised when the
      extract cannot be parsed. */
  function ProcessDiagnostics(table: seq<Rule>, ctx: Context, network: CaptionService, msg: W3cMessage,
                              ds: seq<Diagnostic>, problems: int): (r: Result<W3cStep>)
    ensures problems >= ctx.maxProblems ==> r == Success(W3cStep(ds, table))
    ensures r.Failure? <==> problems < ctx.maxProblems && Fails(table, msg)
    ensures r.Success? ==> |r.value.table| == |table|
    ensures r.Success? && FindInMessage(table, msg.message).None? ==> r.value == W3cStep(ds, table)
    ensures r.Success? && problems < ctx.maxProblems && FindInMessage(table, msg.message).Some? ==>
              r.value.diagnostics == ds + [ServerW3cDiagnostic(ctx, msg, r.value.table[FindInMessage(table, msg.message).value])]
  {
    if problems >= ctx.maxProblems then Success(W3cStep(ds, table))
    else match FindInMessage(table, msg.message)
      case None => Success(W3cStep(ds, table))
      case Some(i) =>
        var table' :- ServerEnrich(table, i, network, msg.extract);
        Success(W3cStep(ds + [ServerW3cDiagnostic(ctx, msg, table'[i])], table'))
  }

  /** The diagnostics after all calls, the dictionary as they leave it, and
      whether any call failed. */
  datatype Mapped = Mapped(diagnostics: seq<Diagnostic>, table: seq<Rule>, failed: bool)

  /** `messages.map(processDiagnostics)`: every call sees the same count, and
      a failing call pushes nothing but does not stop the later calls. Calls
      are taken in message order, each finishing before the next. */
  function W3cMap(table: seq<Rule>, ctx: Context, network: CaptionService, msgs: seq<W3cMessage>,
                  ds: seq<Diagnostic>, problems: int): (r: Mapped)
    ensures |r.table| == |table|
    ensures problems >= ctx.maxProblems ==> r == Mapped(ds, table, false)
    ensures |ds| <= |r.diagnostics| <= |ds| + |msgs| && r.diagnostics[..|ds|] == ds
    decreases |msgs|
  {
    if |msgs| == 0 then Mapped(ds, table, false)
    else
      var n := |msgs| - 1;
      var m := W3cMap(table, ctx, network, msgs[..n], ds, problems);
      match ProcessDiagnostics(m.table, ctx, network, msgs[n], m.diagnostics, problems)
      case Failure(_) => m.(failed := true)
      case Success(step) => Mapped(step.diagnostics, step.table, m.failed)
  }

  /** The map itself, one call after another on the run's diagnostics array. */
  method RunW3c(table: seq<Rule>, ctx: Context, network: CaptionService, msgs: seq<W3cMessage>,
                diagnostics: seq<Diagnostic>, problems: int)
    returns (r: Mapped)
    ensures r == W3cMap(table, ctx, network, msgs, diagnostics, problems)
  {
    r := Mapped(diagnostics, table, false);
    for k := 0 to |msgs|
      invariant r == W3cMap(table, ctx, network, msgs[..k], diagnostics, problems)
    {
      assert msgs[..k + 1][..k] == msgs[..k];
      var step := ProcessDiagnostics(r.table, ctx, network, msgs[k], r.diagnostics, problems);
      if step.Failure? {
        r := r.(failed := true);
      } else {
        r := Mapped(step.value.diagnostics, step.value.table, r.failed);
      }
    }
    assert msgs[..|msgs|] == msgs;
  }

  /** Two dictionaries with the same keys, whose rows hold the enrichment
      phrase alike. */
  predicate Alike(t1: seq<Rule>, t2: seq<Rule>) {
    |t1| == |t2| && forall j :: 0 <= j < |t1| ==>
      t1[j].ruleid == t2[j].ruleid
      && (Contains(t1[j].suggestMsg, W3cDict.EnrichPhrase) <==> Contains(t2[j].suggestMsg, W3cDict.EnrichPhrase))
  }

  /** Whether a message is reported: it selects a row and does not fail. */
  predicate Reportable(table: seq<Rule>, msg: W3cMessage) {
    FindInMessage(table, msg.message).Some? && !Fails(table, msg)
  }

  function CountReportable(table: seq<Rule>, msgs: seq<W3cMessage>): (n: nat)
    ensures n <= |msgs|
    decreases |msgs|
  {
    if |msgs| == 0 then 0
    else CountReportable(table, msgs[..|msgs| - 1]) + if Reportable(table, msgs[|msgs| - 1]) then 1 else 0
  }

  lemma AlikeDecides(t1: seq<Rule>, t2: seq<Rule>, msg: W3cMessage)
    requires Alike(t1, t2)
    ensures FindInMessage(t1, msg.message) == FindInMessage(t2, msg.message)
    ensures Fails(t1, msg) <==> Fails(t2, msg)
  {
    FindInMessageKeysOnly(t1, t2, msg.message);
  }

  /** The enrichment keeps the dictionary alike: an enriched suggestion still holds the phrase. */
  lemma EnrichKeepsAlike(table: seq<Rule>, i: nat, network: CaptionService, extract: Option<string>)
    requires i < |table| && ServerEnrich(table, i, network, extract).Success?
    ensures Alike(table, ServerEnrich(table, i, network, extract).value)
  {
    var t := ServerEnrich(table, i, network, extract).value;
    if t[i] != table[i] {
      var src := FirstSrc(FirstImgTag(extract.value).value, 0).value;
      EnrichedStaysEnrichable(": <img src='" + src + "' alt='" + Query(network, src) + "'>");
    }
  }

  /** A call keeps the dictionary alike. */
  lemma ProcessKeepsAlike(table: seq<Rule>, ctx: Context, network: CaptionService, msg: W3cMessage,
                          ds: seq<Diagnostic>, problems: int)
    requires ProcessDiagnostics(table, ctx, network, msg, ds, problems).Success?
    ensures Alike(table, ProcessDiagnostics(table, ctx, network, msg, ds, problems).value.table)
  {
    if problems < ctx.maxProblems && FindInMessage(table, msg.message).Some? {
      EnrichKeepsAlike(table, FindInMessage(table, msg.message).value, network, msg.extract);
    }
  }

  /** Under the limit the map reports every message that selects a row and
      parses, however many there are, and the run fails exactly when some
      message cannot be parsed; enrichments on the way change neither. */
  lemma {:induction false} W3cMapTrace(table: seq<Rule>, ctx: Context, network: CaptionService, msgs: seq<W3cMessage>,
                                       ds: seq<Diagnostic>, problems: int)
    requires problems < ctx.maxProblems
    ensures Alike(table, W3cMap(table, ctx, network, msgs, ds, problems).table)
    ensures W3cMap(table, ctx, network, msgs, ds, problems).failed == AnyFails(table, msgs)
    ensures |W3cMap(table, ctx, network, msgs, ds, problems).diagnostics| == |ds| + CountReportable(table, msgs)
    decreases |msgs|
  {
    if |msgs| > 0 {
      var n := |msgs| - 1;
      var m := W3cMap(table, ctx, network, msgs[..n], ds, problems);
      var r := ProcessDiagnostics(m.table, ctx, network, msgs[n], m.diagnostics, problems);
      assert W3cMap(table, ctx, network, msgs, ds, problems)
        == if r.Failure? then m.(failed := true) else Mapped(r.value.diagnostics, r.value.table, m.failed);
      assert AnyFails(table, msgs) == (AnyFails(table, msgs[..n]) || Fails(table, msgs[n]));
      assert CountReportable(table, msgs) == CountReportable(table, msgs[..n]) + if Reportable(table, msgs[n]) then 1 else 0;
      W3cMapTrace(table, ctx, network, msgs[..n], ds, problems);
      MapStep(table, m.table, ctx, network, msgs[n], m.diagnostics, problems);
      if r.Failure? {
        assert !Reportable(table, msgs[n]);
      }
    }
  }

  /** Whether some message of `msgs` cannot be parsed. */
  predicate AnyFails(table: seq<Rule>, msgs: seq<W3cMessage>)
    decreases |msgs|
  {
    |msgs| > 0 && (AnyFails(table, msgs[..|msgs| - 1]) || Fails(table, msgs[|msgs| - 1]))
  }

  lemma {:induction false} AnyFailsSome(table: seq<Rule>, msgs: seq<W3cMessage>)
    ensures AnyFails(table, msgs) <==> exists j :: 0 <= j < |msgs| && Fails(table, msgs[j])
    decreases |msgs|
  {
    if |msgs| > 0 {
      var n := |msgs| - 1;
      AnyFailsSome(table, msgs[..n]);
      assert forall j :: 0 <= j < n ==> msgs[..n][j] == msgs[j];
    }
  }

  /** One call on a dictionary alike to the original: it fails, reports and
      keeps the dictionary alike just as it would on the original. */
  lemma MapStep(table: seq<Rule>, t: seq<Rule>, ctx: Context, network: CaptionService, msg: W3cMessage,
                ds: seq<Diagnostic>, problems: int)
    requires Alike(table, t) && problems < ctx.maxProblems
    ensures ProcessDiagnostics(t, ctx, network, msg, ds, problems).Failure? <==> Fails(table, msg)
    ensures ProcessDiagnostics(t, ctx, network, msg, ds, problems).Success? ==>
              Alike(table, ProcessDiagnostics(t, ctx, network, msg, ds, problems).value.table)
              && |ProcessDiagnostics(t, ctx, network, msg, ds, problems).value.diagnostics|
                 == |ds| + if Reportable(table, msg) then 1 else 0
  {
    AlikeDecides(table, t, msg);
    var r := ProcessDiagnostics(t, ctx, network, msg, ds, problems);
    if r.Success? {
      ProcessKeepsAlike(t, ctx, network, msg, ds, problems);
      AlikeTransitive(table, t, r.value.table);
    }
  }

  lemma AlikeTransitive(t1: seq<Rule>, t2: seq<Rule>, t3: seq<Rule>)
    requires Alike(t1, t2) && Alike(t2, t3)
    ensures Alike(t1, t3)
  {
  }
}
