/** One validation run of the language server, `validateTextDocument`: the
    inline battery, the html-validate errors and the Nu HTML Checker
    messages on one diagnostics array, then the score pushed after them. */
module Server {
  import opened Wrappers
  import opened Lsp
  import opened Scan
  import opened RuleTable
  import opened WhatwgValidator
  import opened W3cValidator
  import opened ServerValidators
  import ServerBattery
  import ServerDicts
  import CountAttributes

  /** An entry of the list the run sends to the client: a diagnostic, or the
      score pushed after them. */
  datatype Item = Entry(diagnostic: Diagnostic) | Score(points: nat)

  /** What a run publishes: the diagnostics array as it stands when it is
      handed to the editor, and the notification's list, which is that same
      array after the score is pushed onto it. */
  datatype Published = Published(sent: seq<Diagnostic>, files: seq<Item>)

  function Entries(ds: seq<Diagnostic>): (r: seq<Item>)
    ensures |r| == |ds| && forall k :: 0 <= k < |ds| ==> r[k] == Entry(ds[k])
  {
    seq(|ds|, k requires 0 <= k < |ds| => Entry(ds[k]))
  }

  /** The run once its battery has pushed `battery`, counting from zero: the
      error loop continues that count; the checker messages all see the
      count the error loop left; a message that cannot be parsed makes the
      run fail before anything is sent; otherwise the diagnostics go out and
      the score follows them. */
  function Pipeline(ctx: Context, text: string, battery: seq<Diagnostic>,
                    whatwgTable: seq<Rule>, errors: seq<WhatwgMessage>,
                    w3cTable: seq<Rule>, network: CaptionService, messages: seq<W3cMessage>): (r: Option<Published>)
    ensures var afterErrors := |battery| + Min(|errors|, Budget(ctx, |battery|));
      r.None? <==> afterErrors < ctx.maxProblems && AnyFails(w3cTable, messages)
    ensures r.Some? ==>
              r.value.files == Entries(r.value.sent) + [Score(CountAttributes.EntrySum(text, CountAttributes.Rules))]
    ensures r.Some? ==>
              var found := Found(whatwgTable, ctx, errors[..Min(|errors|, Budget(ctx, |battery|))]);
              |battery| + |found| <= |r.value.sent| && r.value.sent[..|battery| + |found|] == battery + found
    ensures var reached := Min(|errors|, Budget(ctx, |battery|));
      var found := Found(whatwgTable, ctx, errors[..reached]);
      r.Some? && |battery| + reached < ctx.maxProblems ==>
        |r.value.sent| == |battery| + |found| + CountReportable(w3cTable, messages)
    ensures var reached := Min(|errors|, Budget(ctx, |battery|));
      r.Some? && |battery| + reached >= ctx.maxProblems ==>
        r.value.sent == battery + Found(whatwgTable, ctx, errors[..reached])
  {
    var t := WhatwgLoop(whatwgTable, ctx, errors, Tally(battery, |battery|));
    WhatwgLoopReportsFound(whatwgTable, ctx, errors, Tally(battery, |battery|));
    var m := W3cMap(w3cTable, ctx, network, messages, t.diagnostics, t.problems);
    var r := if m.failed then None
      else Some(Published(m.diagnostics, Entries(m.diagnostics) + [Score(CountAttributes.EntrySum(text, CountAttributes.Rules))]));
    if t.problems < ctx.maxProblems then
      W3cMapTrace(w3cTable, ctx, network, messages, t.diagnostics, t.problems);
      r
    else r
  }

  /** A run of the server on `text`: the pipeline over the inline battery
      from a count of zero and the server's own dictionaries. `footer` stands
      for the matches of the footer-order pattern, `errors` and `messages`
      for the two validators' answers, `network` for the caption service.
      What it publishes is stated by `Pipeline`'s contract. */
  function Validate(ctx: Context, text: string, footer: seq<Span>, errors: seq<WhatwgMessage>,
                    network: CaptionService, messages: seq<W3cMessage>): Option<Published>
  {
    Pipeline(ctx, text, ServerBattery.Inline(ctx, text, footer, 0),
             ServerDicts.ServerWhatwgTable, errors, ServerDicts.ServerW3cTable, network, messages)
  }
}
