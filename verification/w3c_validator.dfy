/** The W3C adapter: turns one Nu HTML Checker message into at most one
    diagnostic, mapped through the W3C dictionary. For the image rule it may
    first ask the alt-text service for a caption and store it in the
    dictionary row, where later calls see it. */
module W3cValidator {
  import opened Wrappers
  import opened Strings
  import opened Lsp
  import opened RuleTable
  import opened W3cDict

  /** The fields of a checker message the adapter reads (1-based line, columns as given). */
  datatype W3cMessage = W3cMessage(
    message: string, firstColumn: int, lastColumn: int, lastLine: int, extract: Option<string>)

  /** The alt-text service: a caption suffix for an image source, or `None`
      when the call throws (the adapter catches that). */
  type AltTextService = string -> Option<string>

  /** The diagnostics after the call and the dictionary as the call leaves it. */
  datatype W3cStep = W3cStep(diagnostics: seq<Diagnostic>, table: seq<Rule>)

  /** JavaScript truthiness of the `extract` field. */
  predicate Truthy(extract: Option<string>) {
    extract.Some? && |extract.value| > 0
  }

  /** `s.match(/<img[^>]*>/g)[0]`: the first `<img` that a `>` follows, up to that `>`. */
  function FirstImgTag(s: string): (r: Option<string>)
    ensures r.Some? ==> |r.value| >= 5 && r.value[..4] == "<img" && r.value[|r.value| - 1] == '>'
    ensures r.Some? ==> forall k :: 4 <= k < |r.value| - 1 ==> r.value[k] != '>'
    ensures r.Some? ==> exists i :: StartsAt(s, i, r.value)
    ensures r.None? <==> forall i, g :: 0 <= i && i + 4 <= g < |s| && StartsAt(s, i, "<img") ==> s[g] != '>'
  {
    var i := IndexOf(s, "<img", 0);
    if i < 0 then None
    else
      var g := FindChar(s, i + 4, '>');
      if g < 0 then None
      else
        assert s[i..i + 4] == "<img";
        assert s[i..g + 1][..4] == s[i..i + 4];
        assert StartsAt(s, i, s[i..g + 1]);
        Some(s[i..g + 1])
  }

  predicate IsQuote(c: char) {
    c == '\'' || c == '"' || c == '`'
  }

  /** The first quote or line terminator at or after `from`, or `|t|`: where the
      lazy `(.*?)` of the `src` pattern stops. */
  function QuoteOrBreak(t: string, from: nat): (r: nat)
    requires from <= |t|
    ensures from <= r <= |t|
    ensures forall k :: from <= k < r ==> !IsQuote(t[k]) && !IsLineTerminator(t[k])
    ensures r < |t| ==> IsQuote(t[r]) || IsLineTerminator(t[r])
    decreases |t| - from
  {
    if from == |t| || IsQuote(t[from]) || IsLineTerminator(t[from]) then from
    else QuoteOrBreak(t, from + 1)
  }

  /** `/src\s*=\s*['"`](.*?)['"`]/i` tried at offset `p`: the captured group. */
  function SrcAt(t: string, p: nat): (r: Option<string>)
    ensures r.Some? ==> p + 3 <= |t| && Lower(t[p..p + 3]) == "src"
    ensures r.Some? ==> forall k :: 0 <= k < |r.value| ==> !IsQuote(r.value[k]) && !IsLineTerminator(r.value[k])
  {
    if p + 3 > |t| || Lower(t[p..p + 3]) != "src" then None
    else
      var a := SkipSpaces(t, p + 3);
      if a == |t| || t[a] != '=' then None
      else
        var b := SkipSpaces(t, a + 1);
        if b == |t| || !IsQuote(t[b]) then None
        else
          var c := QuoteOrBreak(t, b + 1);
          if c < |t| && IsQuote(t[c]) then Some(t[b + 1..c]) else None
  }

  /** `t.match(/src\s*=\s*['"`](.*?)['"`]/i)[1]`: the leftmost match's group. */
  function FirstSrc(t: string, from: nat): (r: Option<string>)
    ensures r.Some? ==> exists p :: from <= p && SrcAt(t, p) == r
    ensures r.None? <==> forall p :: from <= p <= |t| ==> SrcAt(t, p).None?
    decreases |t| - from
  {
    if from > |t| then None
    else if SrcAt(t, from).Some? then SrcAt(t, from)
    else FirstSrc(t, from + 1)
  }

  /** `processW3C`. `Failure` is the TypeError the source raises when a truthy
      extract has no image tag, or the tag has no quoted `src`. */
  function ProcessW3c(table: seq<Rule>, ctx: Context, service: AltTextService, msg: W3cMessage,
                      ds: seq<Diagnostic>, problems: int): (r: Result<W3cStep>)
    ensures problems >= ctx.maxProblems ==> r == Success(W3cStep(ds, table))
    ensures FindInMessage(table, msg.message).None? ==> r == Success(W3cStep(ds, table))
    ensures r.Failure? ==>
              (problems < ctx.maxProblems && FindInMessage(table, msg.message).Some?
               && Truthy(msg.extract)
               && Contains(table[FindInMessage(table, msg.message).value].suggestMsg, EnrichPhrase)
               && (FirstImgTag(msg.extract.value).None? || FirstSrc(FirstImgTag(msg.extract.value).value, 0).None?))
    ensures r.Success? ==> |r.value.table| == |table|
    ensures r.Success? && r.value.diagnostics != ds ==>
              (problems < ctx.maxProblems && FindInMessage(table, msg.message).Some?
               && r.value.diagnostics == ds + [W3cDiagnostic(ctx, msg, r.value.table[FindInMessage(table, msg.message).value])])
    ensures r.Success? && problems < ctx.maxProblems && FindInMessage(table, msg.message).Some? ==>
              r.value.diagnostics == ds + [W3cDiagnostic(ctx, msg, r.value.table[FindInMessage(table, msg.message).value])]
  {
    if problems >= ctx.maxProblems then Success(W3cStep(ds, table))
    else match FindInMessage(table, msg.message)
      case None => Success(W3cStep(ds, table))
      case Some(i) =>
        var table' :- Enrich(table, i, service, msg.extract);
        Success(W3cStep(ds + [W3cDiagnostic(ctx, msg, table'[i])], table'))
  }

  /** The image-row enrichment: the row's suggestion becomes the alt prefix
      followed by the service's answer; every other row and field stays. */
  function Enrich(table: seq<Rule>, i: nat, service: AltTextService, extract: Option<string>): (r: Result<seq<Rule>>)
    requires i < |table|
    ensures r.Failure? <==>
              (Contains(table[i].suggestMsg, EnrichPhrase) && Truthy(extract)
               && (FirstImgTag(extract.value).None? || FirstSrc(FirstImgTag(extract.value).value, 0).None?))
    ensures r.Success? ==>
              (|r.value| == |table|
               && (forall j :: 0 <= j < |table| && j != i ==> r.value[j] == table[j])
               && r.value[i].ruleid == table[i].ruleid && r.value[i].wcag == table[i].wcag
               && r.value[i].errorMsg == table[i].errorMsg)
    ensures r.Success? && r.value[i] != table[i] ==>
              (Contains(table[i].suggestMsg, EnrichPhrase) && Truthy(extract)
               && exists a :: r.value[i].suggestMsg == AltPrefix + a)
    ensures !Contains(table[i].suggestMsg, EnrichPhrase) || !Truthy(extract) ==> r == Success(table)
    ensures Contains(table[i].suggestMsg, EnrichPhrase) && Truthy(extract)
            && FirstImgTag(extract.value).Some? && FirstSrc(FirstImgTag(extract.value).value, 0).Some? ==>
              var a := service(FirstSrc(FirstImgTag(extract.value).value, 0).value);
              r == Success(if a.Some? then table[i := table[i].(suggestMsg := AltPrefix + a.value)] else table)
  {
    if !Contains(table[i].suggestMsg, EnrichPhrase) || !Truthy(extract) then Success(table)
    else match FirstImgTag(extract.value)
      case None => Failure("TypeError: Cannot read properties of null (reading '0')")
      case Some(tag) =>
        match FirstSrc(tag, 0)
        case None => Failure("TypeError: Cannot read properties of null (reading '1')")
        case Some(src) =>
          match service(src)
          case None => Success(table)
          case Some(a) => Success(table[i := table[i].(suggestMsg := AltPrefix + a)])
  }

  /** The diagnostic the adapter builds for `msg` under `rule`: one line,
      from `firstColumn` to `lastColumn - 1`. */
  function W3cDiagnostic(ctx: Context, msg: W3cMessage, rule: Rule): (d: Diagnostic)
    ensures d.range.start.line == d.range.end.line == msg.lastLine - 1
    ensures d.range.start.character == msg.firstColumn && d.range.end.character == msg.lastColumn - 1
    ensures d.message == rule.errorMsg && d.source == rule.wcag
    ensures d.related == RelatedAt(ctx, d.range, Some(rule.suggestMsg))
  {
    var range := Range(Pos(msg.lastLine - 1, msg.firstColumn), Pos(msg.lastLine - 1, msg.lastColumn - 1));
    Diagnostic(Warning, range, rule.errorMsg, rule.wcag, RelatedAt(ctx, range, Some(rule.suggestMsg)))
  }

  /** Rows that agree on their keys select alike. */
  lemma FindInMessageKeysOnly(t1: seq<Rule>, t2: seq<Rule>, message: string)
    requires |t1| == |t2| && forall j :: 0 <= j < |t1| ==> t1[j].ruleid == t2[j].ruleid
    ensures FindInMessage(t1, message) == FindInMessage(t2, message)
  {
  }

  /** An enriched suggestion still holds the phrase, so it is enriched again next time. */
  lemma EnrichedStaysEnrichable(a: string)
    ensures Contains(AltPrefix + a, EnrichPhrase)
  {
    assert (AltPrefix + a)[..|EnrichPhrase|] == EnrichPhrase;
    assert StartsAt(AltPrefix + a, 0, EnrichPhrase);
  }

  /** There is no duplicate test: a message processed twice, with the same
      service, is reported twice. */
  lemma ProcessW3cNoDedup(table: seq<Rule>, ctx: Context, service: AltTextService, msg: W3cMessage,
                          ds: seq<Diagnostic>, problems: int)
    requires problems < ctx.maxProblems && FindInMessage(table, msg.message).Some?
    requires ProcessW3c(table, ctx, service, msg, ds, problems).Success?
    ensures var once := ProcessW3c(table, ctx, service, msg, ds, problems).value;
      var twice := ProcessW3c(once.table, ctx, service, msg, once.diagnostics, problems);
      twice.Success? && |twice.value.diagnostics| == |ds| + 2
  {
    var once := ProcessW3c(table, ctx, service, msg, ds, problems).value;
    var i := FindInMessage(table, msg.message).value;
    FindInMessageKeysOnly(table, once.table, msg.message);
    if once.table[i] != table[i] {
      var a :| once.table[i].suggestMsg == AltPrefix + a;
      EnrichedStaysEnrichable(a);
    }
  }

  /** The caption written into the row is what later diagnostics of that row
      carry as their related message. */
  lemma EnrichmentPersists(table: seq<Rule>, ctx: Context, service: AltTextService, msg: W3cMessage,
                           ds: seq<Diagnostic>, problems: int, msg2: W3cMessage, ds2: seq<Diagnostic>)
    requires ctx.relatedCapability
    requires problems < ctx.maxProblems && FindInMessage(table, msg.message).Some?
    requires ProcessW3c(table, ctx, service, msg, ds, problems).Success?
    requires FindInMessage(table, msg2.message) == FindInMessage(table, msg.message)
    requires !Truthy(msg2.extract)
    ensures var once := ProcessW3c(table, ctx, service, msg, ds, problems).value;
      var i := FindInMessage(table, msg.message).value;
      var later := ProcessW3c(once.table, ctx, service, msg2, ds2, problems);
      later == Success(W3cStep(ds2 + [W3cDiagnostic(ctx, msg2, once.table[i])], once.table))
      && later.value.diagnostics[|ds2|].related.value[0].message == Some(once.table[i].suggestMsg)
  {
    var once := ProcessW3c(table, ctx, service, msg, ds, problems).value;
    FindInMessageKeysOnly(table, once.table, msg2.message);
  }
}
