/** The WHATWG adapter: turns one html-validate result into at most one
    diagnostic, mapped through the WHATWG dictionary. */
module WhatwgValidator {
  import opened Wrappers
  import opened Lsp
  import opened RuleTable

  /** The fields of an html-validate message the adapter reads (1-based line and column). */
  datatype WhatwgMessage = WhatwgMessage(ruleId: string, line: int, column: int, size: int)

  /** `isAlreadyExisting`: some diagnostic starts where `msg` would and carries
      the same message. */
  predicate IsAlreadyExisting(msg: WhatwgMessage, rule: Rule, ds: seq<Diagnostic>) {
    exists d :: d in ds && d.range.start.line == msg.line - 1
      && d.range.start.character - msg.column == -1 && d.message == rule.errorMsg
  }

  /** The diagnostic the adapter builds for `msg` under `rule`. */
  function WhatwgDiagnostic(ctx: Context, msg: WhatwgMessage, rule: Rule): (d: Diagnostic)
    ensures d.range.start == Pos(msg.line - 1, msg.column - 1)
    ensures d.range.end == Pos(msg.line - 1, msg.column - 1 + msg.size)
    ensures d.message == rule.errorMsg && d.source == rule.wcag
    ensures d.related == RelatedAt(ctx, d.range, Some(rule.suggestMsg))
  {
    var range := Range(Pos(msg.line - 1, msg.column - 1), Pos(msg.line - 1, msg.column - 1 + msg.size));
    Diagnostic(Warning, range, rule.errorMsg, rule.wcag, RelatedAt(ctx, range, Some(rule.suggestMsg)))
  }

  /** `processWHATWG`: the list unchanged, or the list with one entry appended.
      `problems` is the caller's count; the increment inside is lost. */
  function ProcessWhatwg(table: seq<Rule>, ctx: Context, msg: WhatwgMessage, ds: seq<Diagnostic>, problems: int): (r: seq<Diagnostic>)
    ensures problems >= ctx.maxProblems ==> r == ds
    ensures FindById(table, msg.ruleId).None? ==> r == ds
    ensures r == ds || (|r| == |ds| + 1 && r[..|ds|] == ds)
    ensures r != ds <==> (problems < ctx.maxProblems && FindById(table, msg.ruleId).Some?
      && !IsAlreadyExisting(msg, table[FindById(table, msg.ruleId).value], ds))
    ensures r != ds ==> r[|ds|] == WhatwgDiagnostic(ctx, msg, table[FindById(table, msg.ruleId).value])
  {
    if problems >= ctx.maxProblems then ds
    else match FindById(table, msg.ruleId)
      case None => ds
      case Some(i) =>
        if IsAlreadyExisting(msg, table[i], ds) then ds
        else ds + [WhatwgDiagnostic(ctx, msg, table[i])]
  }

  /** The appended entry passes the duplicate test, so processing the same
      message again changes nothing. */
  lemma ProcessWhatwgIdempotent(table: seq<Rule>, ctx: Context, msg: WhatwgMessage, ds: seq<Diagnostic>, problems: int)
    ensures var once := ProcessWhatwg(table, ctx, msg, ds, problems);
      ProcessWhatwg(table, ctx, msg, once, problems) == once
  {
    var once := ProcessWhatwg(table, ctx, msg, ds, problems);
    if once != ds {
      var rule := table[FindById(table, msg.ruleId).value];
      assert once[|ds|] in once;
      assert IsAlreadyExisting(msg, rule, once);
    }
  }

  /** A message whose start and text already appear is dropped, whatever else
      the existing diagnostic says. */
  lemma DuplicateDropped(table: seq<Rule>, ctx: Context, msg: WhatwgMessage, ds: seq<Diagnostic>, problems: int, d: Diagnostic)
    requires FindById(table, msg.ruleId).Some?
    requires d in ds && d.range.start == Pos(msg.line - 1, msg.column - 1)
    requires d.message == table[FindById(table, msg.ruleId).value].errorMsg
    ensures ProcessWhatwg(table, ctx, msg, ds, problems) == ds
  {
  }
}
