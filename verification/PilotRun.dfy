/**
 A run of the atomic pilot over the packets of a document: each selected source is sent to the
 client until the transport asks to stop, what it returns is located and checked, and every
 target range is reported as spans and gaps.
 */
module PilotRun {
  import opened Wrappers
  import opened Text
  import opened Sentences
  import opened AtomicPilot

  // ---------------------------------------------------------------- what a run works on

  /** The texts of the blocks, the target ranges of the selected sources, and the guard on
      quotations and token boundaries, for any text. */
  datatype Setting = Setting(texts: map<string, string>, ranges: map<string, seq<Span>>,
                             admissible: string -> Span -> bool)

  predicate Configured(c: Setting) {
    forall s :: s in c.ranges ==> s in c.texts && ValidRanges(c.ranges[s], |c.texts[s]|)
  }

  /** The check of the target ranges, source by source. */
  method CheckSetting(c: Setting) returns (ok: bool)
    ensures ok <==> Configured(c)
  {
    var todo := c.ranges.Keys;
    while todo != {}
      invariant todo <= c.ranges.Keys
      invariant forall s :: s in c.ranges && s !in todo ==> s in c.texts && ValidRanges(c.ranges[s], |c.texts[s]|)
    {
      var source :| source in todo;
      if source !in c.texts {
        return false;
      }
      ok := CheckRanges(c.ranges[source], |c.texts[source]|);
      if !ok {
        return;
      }
      todo := todo - {source};
    }
    ok := true;
  }

  // ---------------------------------------------------------------- stop codes

  const NAMED_STOPS: set<string> :=
    {"BUDGET_EXHAUSTED", "BUDGET_POLICY_MISMATCH", "DUPLICATE_PROBE_REQUEST", "BUDGET_SETTLEMENT_INVALID",
     "PRICE_RECHECK_REQUIRED", "PROBE_REQUEST_TOO_LARGE", "UPSTAGE_REQUEST_FAILED",
     "UPSTAGE_RECEIPT_INVALID_RESERVATION_RETAINED", "UPSTREAM_UNAVAILABLE", "OPENAI_REQUEST_FAILED",
     "OPENAI_RECEIPT_INVALID_RESERVATION_RETAINED", "OPENROUTER_REQUEST_FAILED",
     "OPENROUTER_RECEIPT_INVALID_RESERVATION_RETAINED"}

  const HTTP_STOPS: set<int> := {400, 401, 403, 404, 429, 500, 502, 503}

  datatype Provider = OpenAI | OpenRouter | Upstage

  /** The code of an HTTP status of a provider. */
  function HttpCode(provider: Provider, status: nat): string {
    match provider
    case OpenAI => "OPENAI_HTTP_" + Decimal(status)
    case OpenRouter => "OPENROUTER_HTTP_" + Decimal(status)
    case Upstage => "UPSTAGE_HTTP_" + Decimal(status)
  }

  predicate HttpStop(message: string) {
    exists provider: Provider, status: nat :: status in HTTP_STOPS && message == HttpCode(provider, status)
  }

  /** The transport stop codes. */
  predicate StopCode(message: string) {
    message in NAMED_STOPS || HttpStop(message)
  }

  lemma SameSuffix(prefix: string, m: nat, n: nat)
    requires prefix + Decimal(m) == prefix + Decimal(n)
    ensures m == n
  {
    assert (prefix + Decimal(m))[|prefix|..] == Decimal(m);
    assert (prefix + Decimal(n))[|prefix|..] == Decimal(n);
    DecimalRoundTrip(m);
    DecimalRoundTrip(n);
  }

  lemma CodeLetters(provider: Provider, n: nat)
    ensures |HttpCode(provider, n)| > 4
    ensures HttpCode(provider, n)[0] == (if provider.Upstage? then 'U' else 'O')
    ensures provider.OpenAI? ==> HttpCode(provider, n)[4] == 'A'
    ensures provider.OpenRouter? ==> HttpCode(provider, n)[4] == 'R'
  {
  }

  lemma CodeNumber(provider: Provider, m: nat, n: nat)
    requires HttpCode(provider, m) == HttpCode(provider, n)
    ensures m == n
  {
    match provider
    case OpenAI => SameSuffix("OPENAI_HTTP_", m, n);
    case OpenRouter => SameSuffix("OPENROUTER_HTTP_", m, n);
    case Upstage => SameSuffix("UPSTAGE_HTTP_", m, n);
  }

  lemma SameCode(p: Provider, m: nat, q: Provider, n: nat)
    requires HttpCode(p, m) == HttpCode(q, n)
    ensures p == q && m == n
  {
    CodeLetters(p, m);
    CodeLetters(q, n);
    CodeNumber(p, m, n);
  }

  /** An HTTP status stops the run exactly if it is one of these, for each of the providers. */
  lemma HttpStopIff(provider: Provider, status: nat)
    ensures HttpStop(HttpCode(provider, status)) <==> status in {400, 401, 403, 404, 429, 500, 502, 503}
  {
    if p, n: nat :| n in HTTP_STOPS && HttpCode(provider, status) == HttpCode(p, n) {
      SameCode(provider, status, p, n);
    }
  }

  // ---------------------------------------------------------------- one packet

  /** What one client call ends in: an array of quotes, a value error with its message, or a
      lost connection. */
  datatype Reply = Quotes(claims: seq<string>) | ValueFault(message: string) | ConnectionLost

  datatype Outcome = Passed(spans: seq<Span>) | Invalid | Stopped(code: string) | Deferred(code: string)

  /** The report on one target range. */
  datatype Target = Target(range: Span, returned: seq<Span>, gaps: seq<Span>, coverage: Coverage)

  datatype Record = Record(source: string, outcome: Outcome, targets: seq<Target>)

  datatype Packet = Packet(source: string, reply: Reply)

  /** `sent` is the history of client calls. */
  datatype Run = Run(stop: Option<string>, records: seq<Record>, sent: seq<string>)

  const FRESH: Run := Run(None, [], [])

  predicate AllInside(spans: seq<Span>, ranges: seq<Span>) {
    forall k :: 0 <= k < |spans| ==> InsideSome(spans[k], ranges)
  }

  ghost function Judge(reply: Reply, text: string, ranges: seq<Span>, admissible: Span -> bool): Outcome {
    match reply
    case Quotes(claims) =>
      var spans := LocatedSpans(claims, text, admissible);
      if spans.Some? && AllInside(spans.value, ranges) then Passed(spans.value) else Invalid
    case ValueFault(message) => if StopCode(message) then Stopped(message) else Invalid
    case ConnectionLost => Stopped("UPSTAGE_REQUEST_FAILED")
  }

  /** The reply asks to stop the run with this code. */
  predicate StopsWith(reply: Reply, code: string) {
    || (reply == ValueFault(code) && StopCode(code))
    || (reply.ConnectionLost? && code == "UPSTAGE_REQUEST_FAILED")
  }

  /** The reply holds quotes that can be located, at these spans, all inside the target ranges. */
  ghost predicate Delivers(packet: Packet, c: Setting, spans: seq<Span>)
    requires Configured(c) && packet.source in c.ranges
  {
    var text := c.texts[packet.source];
    && packet.reply.Quotes? && Locatable(text, packet.reply.claims, c.admissible(text), spans)
    && forall span :: span in spans ==>
         exists range :: range in c.ranges[packet.source] && range.start <= span.start < span.end <= range.end
  }

  lemma AllInsideIff(spans: seq<Span>, ranges: seq<Span>)
    ensures AllInside(spans, ranges) <==>
            forall span :: span in spans ==> exists range :: range in ranges && range.start <= span.start < span.end <= range.end
  {
    forall span
      ensures InsideSome(span, ranges) <==> exists range :: range in ranges && range.start <= span.start < span.end <= range.end
    {
      if k :| 0 <= k < |ranges| && Inside(span, ranges[k]) {
        assert ranges[k] in ranges;
      }
      if range :| range in ranges && range.start <= span.start < span.end <= range.end {
        var k :| 0 <= k < |ranges| && ranges[k] == range;
        assert Inside(span, ranges[k]);
      }
    }
    assert AllInside(spans, ranges) <==> forall span :: span in spans ==> InsideSome(span, ranges) by {
      forall k | 0 <= k < |spans| ensures spans[k] in spans {
      }
    }
  }

  /** What becomes of a reply: it stops the run exactly with a stop code or a lost connection,
      passes exactly with locatable quotes inside the ranges, and is invalid otherwise. */
  lemma JudgeIff(packet: Packet, c: Setting)
    requires Configured(c) && packet.source in c.ranges
    ensures var text := c.texts[packet.source];
            var outcome := Judge(packet.reply, text, c.ranges[packet.source], c.admissible(text));
            && (forall code :: outcome == Stopped(code) <==> StopsWith(packet.reply, code))
            && (forall spans :: outcome == Passed(spans) <==> Delivers(packet, c, spans))
            && !outcome.Deferred?
  {
    if packet.reply.Quotes? {
      var text := c.texts[packet.source];
      LocatedSpansIff(packet.reply.claims, text, c.admissible(text));
      forall spans ensures AllInside(spans, c.ranges[packet.source]) <==>
          forall span: Span :: span in spans ==>
            exists range: Span :: range in c.ranges[packet.source] && range.start <= span.start < span.end <= range.end
      {
        AllInsideIff(spans, c.ranges[packet.source]);
      }
    }
  }

  lemma LocatedSpansIff(claims: seq<string>, text: string, admissible: Span -> bool)
    ensures forall spans :: LocatedSpans(claims, text, admissible) == Some(spans) <==> Locatable(text, claims, admissible, spans)
  {
    forall spans ensures LocatedSpans(claims, text, admissible) == Some(spans) <==> Locatable(text, claims, admissible, spans) {
      if Locatable(text, claims, admissible, spans) {
        LocatableUnique(text, claims, admissible, spans, LocatedSpans(claims, text, admissible).value);
      }
    }
  }

  function SpansOf(outcome: Outcome): seq<Span> {
    if outcome.Passed? then outcome.spans else []
  }

  function TargetOf(text: string, range: Span, spans: seq<Span>): Target {
    var returned := Within(spans, range);
    var gaps := Gaps(text, range, returned);
    Target(range, returned, gaps, CoverageOf(returned, gaps))
  }

  function TargetsOf(text: string, ranges: seq<Span>, spans: seq<Span>): (targets: seq<Target>)
    ensures |targets| == |ranges|
    ensures forall k :: 0 <= k < |ranges| ==> targets[k] == TargetOf(text, ranges[k], spans)
  {
    seq(|ranges|, k requires 0 <= k < |ranges| => TargetOf(text, ranges[k], spans))
  }

  ghost function Respond(run: Run, packet: Packet, c: Setting): Run
    requires Configured(c)
  {
    var s := packet.source;
    if s !in c.ranges then run
    else
      var outcome := if run.stop.Some? then Deferred(run.stop.value)
                     else Judge(packet.reply, c.texts[s], c.ranges[s], c.admissible(c.texts[s]));
      var record := Record(s, outcome, TargetsOf(c.texts[s], c.ranges[s], SpansOf(outcome)));
      Run(if outcome.Stopped? then Some(outcome.code) else run.stop,
          run.records + [record],
          if run.stop.Some? then run.sent else run.sent + [s])
  }

  ghost function RespondAll(packets: seq<Packet>, c: Setting): Run
    requires Configured(c)
  {
    if packets == [] then FRESH
    else Respond(RespondAll(packets[..|packets|-1], c), packets[|packets|-1], c)
  }

  /** The object behind `respond`: the latched stop code, the records, and the calls made. */
  class Pilot {
    const setting: Setting
    var stop: Option<string>
    var records: seq<Record>
    ghost var sent: seq<string>

    constructor (setting: Setting)
      ensures this.setting == setting && Abs() == FRESH
    {
      this.setting, stop, records, sent := setting, None, [], [];
    }

    ghost function Abs(): Run
      reads this
    {
      Run(stop, records, sent)
    }

    /** The call of the client for one packet, and what is made of its reply. */
    method Ask(packet: Packet) returns (outcome: Outcome)
      requires Configured(setting) && packet.source in setting.ranges
      modifies `stop, `sent
      ensures var text := setting.texts[packet.source];
              outcome == Judge(packet.reply, text, setting.ranges[packet.source], setting.admissible(text))
      ensures forall code :: outcome == Stopped(code) <==> StopsWith(packet.reply, code)
      ensures forall spans :: outcome == Passed(spans) <==> Delivers(packet, setting, spans)
      ensures outcome.Invalid? || outcome.Stopped? || outcome.Passed?
      ensures stop == if outcome.Stopped? then Some(outcome.code) else old(stop)
      ensures sent == old(sent) + [packet.source]
    {
      JudgeIff(packet, setting);
      sent := sent + [packet.source];
      match packet.reply {
        case Quotes(claims) =>
          outcome := Locate(claims, packet.source);
        case ValueFault(message) =>
          if StopCode(message) {
            stop := Some(message);
            outcome := Stopped(message);
          } else {
            outcome := Invalid;
          }
        case ConnectionLost =>
          stop := Some("UPSTAGE_REQUEST_FAILED");
          outcome := Stopped("UPSTAGE_REQUEST_FAILED");
      }
    }

    /** Locating the quotes and checking that each is inside a target range. */
    method Locate(claims: seq<string>, source: string) returns (outcome: Outcome)
      requires Configured(setting) && source in setting.ranges
      ensures var text := setting.texts[source];
              outcome == Judge(Quotes(claims), text, setting.ranges[source], setting.admissible(text))
    {
      var text, ranges := setting.texts[source], setting.ranges[source];
      var spans := LocateQuotes(claims, text, setting.admissible(text));
      LocatedIs(claims, text, setting.admissible(text), spans);
      if spans.Failure? {
        return Invalid;
      }
      var inside := CheckInside(spans.value, ranges);
      outcome := if inside then Passed(spans.value) else Invalid;
    }

    method CheckInside(spans: seq<Span>, ranges: seq<Span>) returns (ok: bool)
      ensures ok <==> AllInside(spans, ranges)
    {
      for k := 0 to |spans|
        invariant forall j :: 0 <= j < k ==> InsideSome(spans[j], ranges)
      {
        if !InsideSome(spans[k], ranges) {
          return false;
        }
      }
      ok := true;
    }

    /** One target range. */
    method ReportOne(text: string, range: Span, spans: seq<Span>) returns (target: Target)
      requires OrderedSpans(0, spans, |text|) && range.start < range.end <= |text|
      ensures target == TargetOf(text, range, spans)
    {
      var returned := Returned(spans, range);
      WithinRange(spans, |text|, range);
      var gaps, coverage := Report(text, range, returned);
      target := Target(range, returned, gaps, coverage);
    }

    /** The loop over the target ranges. */
    method Reports(source: string, spans: seq<Span>) returns (targets: seq<Target>)
      requires Configured(setting) && source in setting.ranges
      requires OrderedSpans(0, spans, |setting.texts[source]|)
      ensures targets == TargetsOf(setting.texts[source], setting.ranges[source], spans)
    {
      var text, ranges := setting.texts[source], setting.ranges[source];
      targets := [];
      for k := 0 to |ranges|
        invariant |targets| == k
        invariant forall j :: 0 <= j < k ==> targets[j] == TargetOf(text, ranges[j], spans)
      {
        var target := ReportOne(text, ranges[k], spans);
        targets := targets + [target];
      }
    }

    /** `respond`. Before a stop the record of a selected source passes exactly what its reply
        delivers, and the run stops exactly with a stopping reply; after a stop it defers. */
    method Handle(packet: Packet)
      requires Configured(setting)
      modifies this
      ensures Abs() == Respond(old(Abs()), packet, setting)
      ensures packet.source !in setting.ranges ==> Abs() == old(Abs())
      ensures packet.source in setting.ranges ==> |records| == |old(records)| + 1 && records[..|records|-1] == old(records)
      ensures packet.source in setting.ranges && old(stop).None? ==>
                var outcome := records[|records|-1].outcome;
                && (forall spans :: outcome == Passed(spans) <==> Delivers(packet, setting, spans))
                && (forall code :: outcome == Stopped(code) <==> StopsWith(packet.reply, code))
                && (forall code :: stop == Some(code) <==> StopsWith(packet.reply, code))
                && sent == old(sent) + [packet.source]
      ensures packet.source in setting.ranges && old(stop).Some? ==>
                records[|records|-1].outcome == Deferred(old(stop).value) && stop == old(stop) && sent == old(sent)
    {
      if packet.source !in setting.ranges {
        return;
      }
      var outcome;
      if stop.Some? {
        outcome := Deferred(stop.value);
      } else {
        outcome := Ask(packet);
      }
      OutcomeOrdered(packet.reply, outcome, setting, packet.source);
      var targets := Reports(packet.source, SpansOf(outcome));
      records := records + [Record(packet.source, outcome, targets)];
    }
  }

  lemma LocatedIs(claims: seq<string>, text: string, admissible: Span -> bool, r: Result<seq<Span>, Error>)
    requires r.Success? ==> Locatable(text, claims, admissible, r.value)
    requires r.Failure? ==> forall spans :: !Locatable(text, claims, admissible, spans)
    ensures r.Success? <==> LocatedSpans(claims, text, admissible).Some?
    ensures r.Success? ==> LocatedSpans(claims, text, admissible) == Some(r.value)
  {
    if r.Success? {
      LocatableUnique(text, claims, admissible, r.value, LocatedSpans(claims, text, admissible).value);
    }
  }

  lemma WithinRange(spans: seq<Span>, n: nat, range: Span)
    requires OrderedSpans(0, spans, n) && range.end <= n
    ensures OrderedSpans(range.start, Within(spans, range), range.end)
  {
    WithinOrdered(0, spans, n, range);
  }

  /** Passed spans are ordered, disjoint and in the text. */
  lemma OutcomeOrdered(reply: Reply, outcome: Outcome, c: Setting, source: string)
    requires Configured(c) && source in c.ranges
    requires outcome.Passed? ==>
               outcome == Judge(reply, c.texts[source], c.ranges[source], c.admissible(c.texts[source]))
    ensures OrderedSpans(0, SpansOf(outcome), |c.texts[source]|)
  {
    if outcome.Passed? {
      LocatableOrdered(c.texts[source], reply.claims, c.admissible(c.texts[source]), outcome.spans);
    }
  }

  // ---------------------------------------------------------------- the shape of a run

  function CountAttempted(records: seq<Record>): nat {
    if records == [] then 0
    else CountAttempted(records[..|records|-1]) + (if records[|records|-1].outcome.Deferred? then 0 else 1)
  }

  function CountDeferred(records: seq<Record>): nat {
    if records == [] then 0
    else CountDeferred(records[..|records|-1]) + (if records[|records|-1].outcome.Deferred? then 1 else 0)
  }

  /** A record is of a selected source, what it passed is ordered and inside the ranges of that
      source, and its report is that of what it passed. */
  predicate RecordOk(r: Record, c: Setting)
    requires Configured(c)
  {
    && r.source in c.ranges
    && OrderedSpans(0, SpansOf(r.outcome), |c.texts[r.source]|) && AllInside(SpansOf(r.outcome), c.ranges[r.source])
    && r.targets == TargetsOf(c.texts[r.source], c.ranges[r.source], SpansOf(r.outcome))
  }

  /** The shape of a fail-closed run: attempts without a stop, then at most one stop, then
      only deferrals that carry its code; exactly the attempts reached the client. */
  ghost predicate FailClosed(run: Run, c: Setting)
    requires Configured(c)
  {
    && |run.sent| <= |run.records|
    && (run.stop.None? ==> |run.sent| == |run.records|)
    && (forall i :: 0 <= i < |run.sent| ==> run.sent[i] == run.records[i].source && !run.records[i].outcome.Deferred?)
    && (forall i :: 0 <= i < |run.sent| - 1 ==> !run.records[i].outcome.Stopped?)
    && (forall i :: |run.sent| <= i < |run.records| ==>
          run.stop.Some? && run.records[i].outcome == Deferred(run.stop.value))
    && (run.stop.Some? <==> run.sent != [] && run.records[|run.sent|-1].outcome.Stopped?)
    && (run.stop.Some? ==> run.records[|run.sent|-1].outcome == Stopped(run.stop.value) && StopCode(run.stop.value))
  }

  ghost predicate RecordsOk(run: Run, c: Setting)
    requires Configured(c)
  {
    forall i :: 0 <= i < |run.records| ==> RecordOk(run.records[i], c)
  }

  lemma JudgeStops(reply: Reply, text: string, ranges: seq<Span>, admissible: Span -> bool)
    ensures var outcome := Judge(reply, text, ranges, admissible);
            !outcome.Deferred? && (outcome.Stopped? ==> StopCode(outcome.code))
  {
  }

  lemma RespondFailClosed(run: Run, packet: Packet, c: Setting)
    requires Configured(c) && FailClosed(run, c)
    ensures FailClosed(Respond(run, packet, c), c)
  {
    var s := packet.source;
    if s in c.ranges {
      var next := Respond(run, packet, c);
      assert next.records == run.records + [next.records[|run.records|]];
      if run.stop.Some? {
        DeferredAdds(run, next.records[|run.records|], c);
      } else {
        JudgeStops(packet.reply, c.texts[s], c.ranges[s], c.admissible(c.texts[s]));
        AttemptAdds(run, next.records[|run.records|], c);
      }
    }
  }

  lemma DeferredAdds(run: Run, r: Record, c: Setting)
    requires Configured(c) && FailClosed(run, c) && run.stop.Some? && r.outcome == Deferred(run.stop.value)
    ensures FailClosed(run.(records := run.records + [r]), c)
  {
  }

  lemma AttemptAdds(run: Run, r: Record, c: Setting)
    requires Configured(c) && FailClosed(run, c) && run.stop.None? && !r.outcome.Deferred?
    requires r.outcome.Stopped? ==> StopCode(r.outcome.code)
    ensures FailClosed(Run(if r.outcome.Stopped? then Some(r.outcome.code) else None,
                           run.records + [r], run.sent + [r.source]), c)
  {
    assert forall i :: 0 <= i < |run.sent| ==> !run.records[i].outcome.Stopped?;
  }

  lemma RespondRecordsOk(run: Run, packet: Packet, c: Setting)
    requires Configured(c) && RecordsOk(run, c)
    ensures RecordsOk(Respond(run, packet, c), c)
  {
    if packet.source in c.ranges {
      var next := Respond(run, packet, c);
      OutcomeOrdered(packet.reply, next.records[|run.records|].outcome, c, packet.source);
      assert RecordOk(next.records[|run.records|], c);
    }
  }

  /** Every run over any packets is fail-closed. */
  lemma {:induction false} RunFailsClosed(packets: seq<Packet>, c: Setting)
    requires Configured(c)
    ensures FailClosed(RespondAll(packets, c), c) && RecordsOk(RespondAll(packets, c), c)
  {
    if packets != [] {
      var n := |packets| - 1;
      RunFailsClosed(packets[..n], c);
      RespondFailClosed(RespondAll(packets[..n], c), packets[n], c);
      RespondRecordsOk(RespondAll(packets[..n], c), packets[n], c);
    }
  }

  /** The counts of the summary: the attempts are exactly the client calls, and attempted plus
      deferred is the number of records. */
  lemma SummaryCounts(packets: seq<Packet>, c: Setting)
    requires Configured(c)
    ensures var run := RespondAll(packets, c);
            && CountAttempted(run.records) == |run.sent|
            && CountAttempted(run.records) + CountDeferred(run.records) == |run.records|
  {
    RunFailsClosed(packets, c);
    var run := RespondAll(packets, c);
    CountSplit(run.records, |run.sent|);
  }

  lemma {:induction false} CountSplit(records: seq<Record>, n: nat)
    requires n <= |records|
    requires forall i :: 0 <= i < |records| ==> (records[i].outcome.Deferred? <==> n <= i)
    ensures CountAttempted(records) == n && CountDeferred(records) == |records| - n
  {
    if records != [] {
      CountSplit(records[..|records|-1], if n == |records| then n - 1 else n);
    }
  }

  /** The packet is of a selected source and its reply stops the run with this code. */
  predicate StopsRun(packet: Packet, c: Setting, code: string) {
    packet.source in c.ranges && StopsWith(packet.reply, code)
  }

  /** The i-th packet stops the run with this code, and none before it stops it. */
  ghost predicate FirstStop(packets: seq<Packet>, c: Setting, i: nat, code: string) {
    && i < |packets| && StopsRun(packets[i], c, code)
    && forall j, d :: 0 <= j < i ==> !StopsRun(packets[j], c, d)
  }

  /** The sources sent to the client while nothing stops: those selected, in order. */
  function Selected(packets: seq<Packet>, c: Setting): seq<string> {
    if packets == [] then []
    else
      var last := packets[|packets|-1];
      Selected(packets[..|packets|-1], c) + (if last.source in c.ranges then [last.source] else [])
  }

  lemma SelectedSnoc(packets: seq<Packet>, n: nat, c: Setting)
    requires n < |packets|
    ensures Selected(packets[..n+1], c) ==
            Selected(packets[..n], c) + (if packets[n].source in c.ranges then [packets[n].source] else [])
  {
    assert packets[..n+1][..n] == packets[..n];
  }

  lemma RunSnoc(packets: seq<Packet>, n: nat, c: Setting)
    requires Configured(c) && n < |packets|
    ensures RespondAll(packets[..n+1], c) == Respond(RespondAll(packets[..n], c), packets[n], c)
  {
    assert packets[..n+1][..n] == packets[..n];
  }

  /** Without a stopping reply among the first n packets the run has not stopped, and every
      selected source of them was sent. */
  lemma {:induction false} RunsOn(packets: seq<Packet>, n: nat, c: Setting)
    requires Configured(c) && n <= |packets|
    requires forall j, code :: 0 <= j < n ==> !StopsRun(packets[j], c, code)
    ensures RespondAll(packets[..n], c).stop.None?
    ensures RespondAll(packets[..n], c).sent == Selected(packets[..n], c)
    decreases n
  {
    if n > 0 {
      RunsOn(packets, n - 1, c);
      RunSnoc(packets, n - 1, c);
      SelectedSnoc(packets, n - 1, c);
      NoStop(packets[n-1], c);
    }
  }

  lemma NoStop(packet: Packet, c: Setting)
    requires Configured(c) && forall code :: !StopsRun(packet, c, code)
    ensures packet.source in c.ranges ==>
              var text := c.texts[packet.source];
              !Judge(packet.reply, text, c.ranges[packet.source], c.admissible(text)).Stopped?
  {
    if packet.source in c.ranges {
      var text := c.texts[packet.source];
      JudgeIff(packet, c);
      var outcome := Judge(packet.reply, text, c.ranges[packet.source], c.admissible(text));
      assert outcome.Stopped? ==> StopsRun(packet, c, outcome.code);
    }
  }

  /** A run has stopped if and only if some packet of a selected source got a stopping reply:
      the code is that of the first such packet, and exactly the selected sources up to it
      were sent to the client. */
  lemma StoppedByFirst(packets: seq<Packet>, c: Setting)
    requires Configured(c)
    ensures var run := RespondAll(packets, c);
            && (run.stop.None? <==> forall j, code :: 0 <= j < |packets| ==> !StopsRun(packets[j], c, code))
            && (run.stop.None? ==> run.sent == Selected(packets, c))
            && forall i: nat, code :: FirstStop(packets, c, i, code) ==>
                 run.stop == Some(code) && run.sent == Selected(packets[..i+1], c)
  {
    assert packets[..|packets|] == packets;
    forall i: nat, code | FirstStop(packets, c, i, code)
      ensures RespondAll(packets, c).stop == Some(code) && RespondAll(packets, c).sent == Selected(packets[..i+1], c)
    {
      StopsAt(packets, c, i, code);
    }
    if forall j, code :: 0 <= j < |packets| ==> !StopsRun(packets[j], c, code) {
      RunsOn(packets, |packets|, c);
    } else {
      var i, code := SomeFirstStop(packets, c);
    }
  }

  lemma StopsAt(packets: seq<Packet>, c: Setting, i: nat, code: string)
    requires Configured(c) && FirstStop(packets, c, i, code)
    ensures RespondAll(packets, c).stop == Some(code) && RespondAll(packets, c).sent == Selected(packets[..i+1], c)
  {
    RunsOn(packets, i, c);
    RunSnoc(packets, i, c);
    SelectedSnoc(packets, i, c);
    JudgeIff(packets[i], c);
    FirstStopIsFinal(packets, i + 1, c);
  }

  lemma SomeFirstStop(packets: seq<Packet>, c: Setting) returns (i: nat, code: string)
    requires exists j, d :: 0 <= j < |packets| && StopsRun(packets[j], c, d)
    ensures FirstStop(packets, c, i, code)
  {
    i := 0;
    while !exists d :: StopsRun(packets[i], c, d)
      invariant i < |packets|
      invariant forall j, d :: 0 <= j < i ==> !StopsRun(packets[j], c, d)
      decreases |packets| - i
    {
      i := i + 1;
    }
    code :| StopsRun(packets[i], c, code);
  }

  /** The first stop is final: later packets change neither the code nor the calls made. */
  lemma {:induction false} FirstStopIsFinal(packets: seq<Packet>, i: nat, c: Setting)
    requires Configured(c) && i <= |packets| && RespondAll(packets[..i], c).stop.Some?
    ensures RespondAll(packets, c).stop == RespondAll(packets[..i], c).stop
    ensures RespondAll(packets, c).sent == RespondAll(packets[..i], c).sent
    decreases |packets|
  {
    if i == |packets| {
      assert packets[..i] == packets;
    } else {
      var n := |packets| - 1;
      assert packets[..n][..i] == packets[..i];
      FirstStopIsFinal(packets[..n], i, c);
    }
  }

  // ---------------------------------------------------------------- coverage of a run

  /** One reported target: its spans and gaps tile its range up to white space, and the full
      text counts as returned exactly when every non-blank character was. */
  ghost predicate Tiled(text: string, target: Target)
    requires target.range.end <= |text|
  {
    && TiledUpTo(text, target.range.start, target.returned, target.gaps, target.range.end)
    && (target.coverage.FullTextReturned? <==>
          && target.returned != []
          && forall i :: target.range.start <= i < target.range.end ==> Covered(target.returned, i) || IsBlank(text[i]))
  }

  lemma TargetTiled(text: string, range: Span, spans: seq<Span>)
    requires OrderedSpans(0, spans, |text|) && range.start < range.end <= |text|
    ensures Tiled(text, TargetOf(text, range, spans))
  {
    WithinRange(spans, |text|, range);
    RangeTiled(text, range, Within(spans, range));
    FullTextIff(text, range, Within(spans, range));
  }

  /** In every run, every target range of every record is reported as spans and gaps that tile
      it, whatever the client replied. */
  lemma EveryTargetTiled(packets: seq<Packet>, c: Setting, i: nat, k: nat)
    requires Configured(c) && i < |RespondAll(packets, c).records|
    requires k < |RespondAll(packets, c).records[i].targets|
    ensures var r := RespondAll(packets, c).records[i];
            && r.source in c.ranges && |r.targets| == |c.ranges[r.source]|
            && r.targets[k].range == c.ranges[r.source][k] && r.targets[k].range.end <= |c.texts[r.source]|
            && Tiled(c.texts[r.source], r.targets[k])
  {
    RunFailsClosed(packets, c);
    var r := RespondAll(packets, c).records[i];
    assert RecordOk(r, c);
    TargetTiled(c.texts[r.source], c.ranges[r.source][k], SpansOf(r.outcome));
  }

  /** Nothing that passed is left out of the report, and nothing else is in it. */
  lemma ReportsWhatPassed(packets: seq<Packet>, c: Setting, i: nat, span: Span)
    requires Configured(c) && i < |RespondAll(packets, c).records|
    ensures var r := RespondAll(packets, c).records[i];
            span in SpansOf(r.outcome) <==> exists k :: 0 <= k < |r.targets| && span in r.targets[k].returned
  {
    RunFailsClosed(packets, c);
    var r := RespondAll(packets, c).records[i];
    assert RecordOk(r, c);
    ReportedOnce(c.texts[r.source], c.ranges[r.source], SpansOf(r.outcome), span);
  }

  lemma ReportedOnce(text: string, ranges: seq<Span>, spans: seq<Span>, span: Span)
    requires AllInside(spans, ranges)
    ensures var targets := TargetsOf(text, ranges, spans);
            span in spans <==> exists k :: 0 <= k < |targets| && span in targets[k].returned
  {
    var targets := TargetsOf(text, ranges, spans);
    forall k | 0 <= k < |targets| ensures span in targets[k].returned <==> span in spans && Inside(span, ranges[k]) {
      WithinAre(spans, ranges[k]);
    }
    if span in spans {
      assert InsideSome(span, ranges);
      var k :| 0 <= k < |ranges| && Inside(span, ranges[k]);
      assert span in targets[k].returned;
    }
  }
}
