/**
 Dimension proposals for claims: claim targets that do not overlap, quotes that occur once in
 their claim, and their composed offsets in the source block.
 */
module Dimensions {
  import opened Wrappers
  import opened Text
  import opened Sentences
  import opened AtomicPilot

  // ---------------------------------------------------------------- claim targets

  /** A serialized candidate: where it says its quote is. */
  datatype Candidate = Candidate(source: string, start: int, end: int, quote: string)

  datatype Target = Target(source: string, span: Span, text: string)

  predicate InBlock(blocks: map<string, string>, c: Candidate) {
    c.source in blocks && 0 <= c.start < c.end <= |blocks[c.source]| && c.quote == blocks[c.source][c.start..c.end]
  }

  /** A claim is in its block exactly if its quote is not empty and occurs there at its offset. */
  lemma InBlockIff(blocks: map<string, string>, c: Candidate)
    ensures InBlock(blocks, c) <==>
            && c.source in blocks && c.quote != "" && OccursAt(blocks[c.source], c.quote, c.start)
            && c.end == c.start + |c.quote|
  {
  }

  function TargetOf(c: Candidate): Target
    requires 0 <= c.start < c.end
  {
    Target(c.source, Span(c.start, c.end), c.quote)
  }

  predicate Overlap(a: Span, b: Span) {
    a.start < b.end && b.start < a.end
  }

  /** Spans that are not empty overlap exactly if they share a character. */
  lemma OverlapIff(a: Span, b: Span)
    requires a.start < a.end && b.start < b.end
    ensures Overlap(a, b) <==> exists i :: Covers(a, i) && Covers(b, i)
  {
    if Overlap(a, b) {
      var i := if a.start < b.start then b.start else a.start;
      assert Covers(a, i) && Covers(b, i);
    }
  }

  predicate Clash(a: Target, b: Target) {
    a.source == b.source && Overlap(a.span, b.span)
  }

  predicate NoClash(targets: seq<Target>) {
    forall i, j :: 0 <= i < j < |targets| ==> !Clash(targets[i], targets[j])
  }

  function Intervals(targets: seq<Target>, source: string): seq<Span> {
    if targets == [] then []
    else
      var n := |targets| - 1;
      Intervals(targets[..n], source) + (if targets[n].source == source then [targets[n].span] else [])
  }

  predicate Solid(targets: seq<Target>) {
    forall k :: 0 <= k < |targets| ==> targets[k].span.start < targets[k].span.end
  }

  predicate Apart(spans: seq<Span>) {
    forall i, j :: 0 <= i < j < |spans| ==> !Overlap(spans[i], spans[j])
  }

  lemma {:induction false} IntervalsHave(targets: seq<Target>, source: string, span: Span)
    ensures span in Intervals(targets, source) <==>
            exists k :: 0 <= k < |targets| && targets[k].source == source && targets[k].span == span
  {
    if targets != [] {
      var n := |targets| - 1;
      IntervalsHave(targets[..n], source, span);
      if k :| 0 <= k < n && targets[k].source == source && targets[k].span == span {
        assert targets[..n][k] == targets[k];
      }
    }
  }

  /** A span meets none of the listed ones. */
  ghost predicate Clear(span: Span, spans: seq<Span>) {
    forall y :: y in spans ==> !Overlap(y, span)
  }

  lemma ApartSnoc(spans: seq<Span>, span: Span)
    ensures Apart(spans + [span]) <==> Apart(spans) && Clear(span, spans)
  {
    var all := spans + [span];
    if Apart(all) {
      forall y | y in spans ensures !Overlap(y, span) {
        var i :| 0 <= i < |spans| && spans[i] == y;
        assert !Overlap(all[i], all[|spans|]);
      }
      forall i, j | 0 <= i < j < |spans| ensures !Overlap(spans[i], spans[j]) {
        assert !Overlap(all[i], all[j]);
      }
    }
  }

  lemma ApartCons(span: Span, spans: seq<Span>)
    ensures Apart([span] + spans) <==> Apart(spans) && Clear(span, spans)
  {
    var all := [span] + spans;
    if Apart(all) {
      forall y | y in spans ensures !Overlap(y, span) {
        var i :| 0 <= i < |spans| && spans[i] == y;
        assert !Overlap(all[0], all[i+1]);
      }
      forall i, j | 0 <= i < j < |spans| ensures !Overlap(spans[i], spans[j]) {
        assert !Overlap(all[i+1], all[j+1]);
      }
    }
    if Apart(spans) && Clear(span, spans) {
      forall i, j | 0 <= i < j < |all| ensures !Overlap(all[i], all[j]) {
        assert all[j] == spans[j-1] && all[j] in spans;
        assert i > 0 ==> all[i] == spans[i-1] && !Overlap(spans[i-1], spans[j-1]);
      }
    }
  }

  lemma InsertMembers(span: Span, spans: seq<Span>)
    ensures forall y :: y in Insert(span, spans) <==> y == span || y in spans
  {
    forall y ensures y in Insert(span, spans) <==> y == span || y in spans {
      assert y in Insert(span, spans) <==> y in multiset(Insert(span, spans));
    }
  }

  lemma ApartSwap(first: Span, span: Span, rest: seq<Span>, inserted: seq<Span>)
    requires forall y :: y in inserted <==> y == span || y in rest
    requires Apart(inserted) <==> Apart(rest) && Clear(span, rest)
    ensures Apart([first] + inserted) <==> Apart([first] + rest) && Clear(span, [first] + rest)
  {
    ApartCons(first, inserted);
    ApartCons(first, rest);
    assert forall y :: y in [first] + rest <==> y == first || y in rest;
    assert span in inserted && (!Overlap(first, span) <==> !Overlap(span, first));
    if Apart([first] + rest) && Clear(span, [first] + rest) {
      forall y | y in inserted ensures !Overlap(y, first) {
      }
      forall y | y in rest ensures !Overlap(y, span) {
        assert y in [first] + rest;
      }
      assert first in [first] + rest;
    }
  }

  lemma {:induction false} ApartInserted(span: Span, spans: seq<Span>)
    ensures Apart(Insert(span, spans)) <==> Apart(spans) && Clear(span, spans)
  {
    if spans == [] || span.start < spans[0].start {
      ApartCons(span, spans);
      assert [span] + [] == [span];
    } else {
      var rest := spans[1..];
      ApartInserted(span, rest);
      InsertMembers(span, rest);
      ApartSwap(spans[0], span, rest, Insert(span, rest));
      assert spans == [spans[0]] + rest;
    }
  }

  lemma SortedMembers(spans: seq<Span>)
    ensures forall y :: y in SortByStart(spans) <==> y in spans
  {
    forall y ensures y in SortByStart(spans) <==> y in spans {
      assert y in SortByStart(spans) <==> y in multiset(SortByStart(spans));
    }
  }

  lemma SortSnoc(before: seq<Span>, last: Span)
    ensures SortByStart(before + [last]) == Insert(last, SortByStart(before))
  {
    assert (before + [last])[..|before|] == before;
  }

  lemma ApartOneMore(before: seq<Span>, sorted: seq<Span>, last: Span)
    requires (Apart(sorted) <==> Apart(before)) && (forall y :: y in sorted <==> y in before)
    ensures Apart(Insert(last, sorted)) <==> Apart(before + [last])
  {
    ApartInserted(last, sorted);
    ApartSnoc(before, last);
  }

  lemma ApartSortedSnoc(before: seq<Span>, last: Span)
    requires Apart(SortByStart(before)) <==> Apart(before)
    ensures Apart(SortByStart(before + [last])) <==> Apart(before + [last])
  {
    SortSnoc(before, last);
    SortedMembers(before);
    ApartOneMore(before, SortByStart(before), last);
  }

  lemma {:induction false} ApartSorted(spans: seq<Span>)
    ensures Apart(SortByStart(spans)) <==> Apart(spans)
    decreases |spans|
  {
    if spans != [] {
      var before, last := Unsnoc(spans);
      ApartSorted(before);
      ApartSortedSnoc(before, last);
    }
  }

  /** Comparing neighbours after sorting finds every overlap. */
  lemma NeighboursSuffice(spans: seq<Span>)
    requires forall y :: y in spans ==> y.start < y.end
    ensures Disjoint(SortByStart(spans)) <==> Apart(spans)
  {
    var sorted := SortByStart(spans);
    SortedByStart(spans);
    ApartSorted(spans);
    forall i | 0 <= i < |sorted| ensures sorted[i].start < sorted[i].end {
      assert sorted[i] in multiset(sorted);
    }
    if Disjoint(sorted) {
      var n := Furthest(sorted);
      DisjointIsOrdered(sorted, n);
    }
  }

  lemma {:induction false} Furthest(spans: seq<Span>) returns (n: nat)
    ensures forall i :: 0 <= i < |spans| ==> spans[i].end <= n
  {
    n := 0;
    for k := 0 to |spans|
      invariant forall i :: 0 <= i < k ==> spans[i].end <= n
    {
      if spans[k].end > n {
        n := spans[k].end;
      }
    }
  }

  /** No two targets of one source clash. */
  predicate ApartIn(targets: seq<Target>, source: string) {
    forall i, j :: 0 <= i < j < |targets| && targets[i].source == source ==> !Clash(targets[i], targets[j])
  }

  lemma IntervalsApartSnoc(before: seq<Target>, last: Target, source: string)
    requires Apart(Intervals(before, source)) <==> ApartIn(before, source)
    ensures Apart(Intervals(before + [last], source)) <==> ApartIn(before + [last], source)
  {
    var intervals := Intervals(before, source);
    assert (before + [last])[..|before|] == before;
    if last.source == source {
      ApartSnoc(intervals, last.span);
      forall k | 0 <= k < |before| && before[k].source == source ensures before[k].span in intervals {
        IntervalsHave(before, source, before[k].span);
      }
      forall y | y in intervals ensures exists k :: 0 <= k < |before| && before[k].source == source && before[k].span == y {
        IntervalsHave(before, source, y);
      }
    } else {
      assert intervals + [] == intervals;
    }
    ApartInSnoc(before, last, source);
  }

  lemma ApartInSnoc(before: seq<Target>, last: Target, source: string)
    ensures ApartIn(before + [last], source) <==>
            ApartIn(before, source) && forall k :: 0 <= k < |before| && before[k].source == source ==> !Clash(before[k], last)
  {
    var all := before + [last];
    if ApartIn(all, source) {
      forall i, j | 0 <= i < j < |before| && before[i].source == source ensures !Clash(before[i], before[j]) {
        assert !Clash(all[i], all[j]);
      }
      forall k | 0 <= k < |before| && before[k].source == source ensures !Clash(before[k], last) {
        assert !Clash(all[k], all[|before|]);
      }
    }
  }

  lemma {:induction false} IntervalsApart(targets: seq<Target>, source: string)
    ensures Apart(Intervals(targets, source)) <==> ApartIn(targets, source)
    decreases |targets|
  {
    if targets != [] {
      var before, last := Unsnoc(targets);
      IntervalsApart(before, source);
      IntervalsApartSnoc(before, last, source);
    }
  }

  predicate AllInBlocks(blocks: map<string, string>, claims: seq<Candidate>) {
    forall k :: 0 <= k < |claims| ==> InBlock(blocks, claims[k])
  }

  function TargetsOf(claims: seq<Candidate>): (targets: seq<Target>)
    requires forall k :: 0 <= k < |claims| ==> 0 <= claims[k].start < claims[k].end
    ensures |targets| == |claims|
  {
    seq(|claims|, k requires 0 <= k < |claims| => TargetOf(claims[k]))
  }

  /** The overlap test, source by source, on sorted intervals. */
  method NoOverlaps(selected: map<string, seq<Span>>) returns (ok: bool)
    ensures ok <==> forall s :: s in selected ==> Disjoint(SortByStart(selected[s]))
  {
    var todo := selected.Keys;
    while todo != {}
      invariant todo <= selected.Keys
      invariant forall s :: s in selected && s !in todo ==> Disjoint(SortByStart(selected[s]))
    {
      var source :| source in todo;
      if !Disjoint(SortByStart(selected[source])) {
        return false;
      }
      todo := todo - {source};
    }
    ok := true;
  }

  lemma TargetsSnoc(claims: seq<Candidate>, k: nat)
    requires k < |claims| && forall i :: 0 <= i <= k ==> 0 <= claims[i].start < claims[i].end
    ensures TargetsOf(claims[..k+1]) == TargetsOf(claims[..k]) + [TargetOf(claims[k])]
  {
  }

  ghost predicate Collected(targets: seq<Target>, selected: map<string, seq<Span>>) {
    && (forall s :: s in selected <==> exists k :: 0 <= k < |targets| && targets[k].source == s)
    && (forall s :: s in selected ==> selected[s] == Intervals(targets, s))
  }

  lemma {:induction false} NoIntervals(targets: seq<Target>, source: string)
    requires forall k :: 0 <= k < |targets| ==> targets[k].source != source
    ensures Intervals(targets, source) == []
  {
    if targets != [] {
      NoIntervals(targets[..|targets|-1], source);
    }
  }

  lemma IntervalsSnoc(targets: seq<Target>, t: Target, source: string)
    ensures Intervals(targets + [t], source)
         == Intervals(targets, source) + (if t.source == source then [t.span] else [])
  {
    assert (targets + [t])[..|targets|] == targets;
  }

  lemma CollectOne(targets: seq<Target>, selected: map<string, seq<Span>>, t: Target)
    requires Collected(targets, selected)
    ensures Collected(targets + [t],
                      selected[t.source := (if t.source in selected then selected[t.source] else []) + [t.span]])
  {
    var more := selected[t.source := (if t.source in selected then selected[t.source] else []) + [t.span]];
    var all := targets + [t];
    assert all[|targets|] == t;
    forall s ensures s in more <==> exists k :: 0 <= k < |all| && all[k].source == s {
      if s in selected {
        var k :| 0 <= k < |targets| && targets[k].source == s;
        assert all[k].source == s;
      }
      if k :| 0 <= k < |all| && all[k].source == s {
        assert k < |targets| ==> targets[k].source == s;
      }
    }
    forall s | s in more ensures more[s] == Intervals(all, s) {
      IntervalsSnoc(targets, t, s);
      if s !in selected {
        NoIntervals(targets, s);
      }
    }
  }

  lemma CollectedApart(targets: seq<Target>, selected: map<string, seq<Span>>)
    requires Collected(targets, selected) && Solid(targets)
    ensures (forall s :: s in selected ==> Disjoint(SortByStart(selected[s]))) <==> NoClash(targets)
  {
    forall s | s in selected
      ensures Disjoint(SortByStart(selected[s])) <==> ApartIn(targets, s)
    {
      forall y | y in selected[s] ensures y.start < y.end {
        IntervalsHave(targets, s, y);
      }
      NeighboursSuffice(selected[s]);
      IntervalsApart(targets, s);
    }
    if forall s :: s in selected ==> ApartIn(targets, s) {
      forall i, j | 0 <= i < j < |targets| ensures !Clash(targets[i], targets[j]) {
        assert targets[i].source in selected;
        assert ApartIn(targets, targets[i].source);
      }
    }
  }

  /** What holds after some of the candidates. */
  ghost predicate Filed(blocks: map<string, string>, claims: seq<Candidate>, found: seq<Target>,
                        selected: map<string, seq<Span>>) {
    AllInBlocks(blocks, claims) && found == TargetsOf(claims) && Collected(found, selected)
  }

  lemma FileOne(blocks: map<string, string>, claims: seq<Candidate>, k: nat, found: seq<Target>,
                selected: map<string, seq<Span>>)
    requires k < |claims| && Filed(blocks, claims[..k], found, selected) && InBlock(blocks, claims[k])
    ensures var t := TargetOf(claims[k]);
            Filed(blocks, claims[..k+1], found + [t],
                  selected[t.source := (if t.source in selected then selected[t.source] else []) + [t.span]])
  {
    assert AllInBlocks(blocks, claims[..k+1]) by {
      assert claims[..k+1] == claims[..k] + [claims[k]];
    }
    CollectOne(found, selected, TargetOf(claims[k]));
    TargetsSnoc(claims, k);
  }

  /** The loop over the candidates: each is checked against its block and filed under it. */
  method Collect(blocks: map<string, string>, claims: seq<Candidate>)
    returns (targets: Option<seq<Target>>, selected: map<string, seq<Span>>)
    ensures targets.Some? <==> AllInBlocks(blocks, claims)
    ensures targets.Some? ==> targets.value == TargetsOf(claims) && Collected(targets.value, selected)
  {
    selected := map[];
    var found := [];
    for k := 0 to |claims|
      invariant Filed(blocks, claims[..k], found, selected)
    {
      var c := claims[k];
      if !InBlock(blocks, c) {
        return None, selected;
      }
      FileOne(blocks, claims, k, found, selected);
      selected := selected[c.source := (if c.source in selected then selected[c.source] else []) + [Span(c.start, c.end)]];
      found := found + [TargetOf(c)];
    }
    assert claims[..|claims|] == claims;
    targets := Some(found);
  }

  /** Claims become targets exactly when every one is a literal slice of its block and no two
      claims of a block overlap. */
  method Prepare(blocks: map<string, string>, claims: seq<Candidate>) returns (r: Option<seq<Target>>)
    ensures r.Some? <==> claims != [] && AllInBlocks(blocks, claims) && NoClash(TargetsOf(claims))
    ensures r.Some? ==> r.value == TargetsOf(claims)
  {
    var targets, selected := Collect(blocks, claims);
    if targets.None? {
      return None;
    }
    var ok := NoOverlaps(selected);
    CollectedApart(targets.value, selected);
    r := if ok && claims != [] then targets else None;
  }

  // ---------------------------------------------------------------- dimensions of one claim

  const FIELDS: seq<string> := [
    "entity", "metric", "scope", "unit", "reporting_period", "baseline_period", "target_period",
    "reported_value", "baseline_value", "target_value", "scope2_basis", "boundary"
  ]

  type Quotes = map<string, Option<string>>
  type Refs = map<string, Option<Span>>

  predicate AllFields(quotes: Quotes) {
    quotes.Keys == set f | f in FIELDS
  }

  /** The quote of a field is missing, or it occurs once in the claim, is not blank, and passes
      the rules on periods and amounts, which `allowed` stands for. */
  ghost predicate Proposable(text: string, field: string, quote: Option<string>, allowed: (string, string) -> bool) {
    quote.Some? ==> !BlankRange(quote.value, 0, |quote.value|) && Unique(text, quote.value) && allowed(field, quote.value)
  }

  /** The reference of a field is the occurrence of its quote, moved to the block. */
  predicate Refers(text: string, offset: nat, quote: Option<string>, ref: Option<Span>) {
    && (quote.None? <==> ref.None?)
    && (quote.Some? ==>
          && offset <= ref.value.start && OccursAt(text, quote.value, ref.value.start - offset)
          && ref.value.end == ref.value.start + |quote.value|)
  }

  /** The reference of a quote that occurs once is its place, moved to the block. */
  lemma PlacedAt(text: string, quote: string, at: nat, offset: nat, ref: Option<Span>)
    requires Unique(text, quote) && OccursAt(text, quote, at) && Refers(text, offset, Some(quote), ref)
    ensures ref == Some(Span(offset + at, offset + at + |quote|))
  {
  }

  /** One field: find and rfind agree exactly on quotes that occur once. */
  method Locate(text: string, field: string, quote: string, offset: nat, allowed: (string, string) -> bool)
    returns (r: Option<Span>)
    ensures r.Some? <==> Proposable(text, field, Some(quote), allowed)
    ensures r.Some? ==> Refers(text, offset, Some(quote), r)
  {
    var first := Find(text, quote);
    var last := RFind(text, quote);
    FoundIsUnique(text, quote, first, last);
    if Strip(quote) == "" || first == -1 || first != last || !allowed(field, quote) {
      return None;
    }
    r := Some(Span(offset + first, offset + first + |quote|));
  }

  ghost predicate AllProposable(text: string, quotes: Quotes, allowed: (string, string) -> bool) {
    forall f :: f in quotes ==> Proposable(text, f, quotes[f], allowed)
  }

  ghost predicate AllRefer(text: string, offset: nat, quotes: Quotes, refs: Refs) {
    refs.Keys == quotes.Keys && forall f :: f in quotes ==> Refers(text, offset, quotes[f], refs[f])
  }

  /** The named fields are located. */
  ghost predicate LocatedAt(text: string, offset: nat, quotes: Quotes, names: seq<string>, refs: Refs,
                            allowed: (string, string) -> bool) {
    && refs.Keys == (set f | f in names)
    && forall f :: f in refs ==>
         f in quotes && Proposable(text, f, quotes[f], allowed) && Refers(text, offset, quotes[f], refs[f])
  }

  lemma OneMoreLocated(text: string, offset: nat, quotes: Quotes, names: seq<string>, refs: Refs,
                       field: string, ref: Option<Span>, allowed: (string, string) -> bool)
    requires LocatedAt(text, offset, quotes, names, refs, allowed)
    requires field in quotes && Proposable(text, field, quotes[field], allowed) && Refers(text, offset, quotes[field], ref)
    ensures LocatedAt(text, offset, quotes, names + [field], refs[field := ref], allowed)
  {
  }

  method LocateFields(text: string, quotes: Quotes, offset: nat, allowed: (string, string) -> bool)
    returns (r: Option<Refs>)
    requires AllFields(quotes)
    ensures r.Some? <==> AllProposable(text, quotes, allowed)
    ensures r.Some? ==> AllRefer(text, offset, quotes, r.value)
  {
    var refs: Refs := map[];
    for k := 0 to |FIELDS|
      invariant LocatedAt(text, offset, quotes, FIELDS[..k], refs, allowed)
    {
      var field := FIELDS[k];
      var ok, ref := LocateField(text, field, quotes[field], offset, allowed);
      if !ok {
        return None;
      }
      OneMoreLocated(text, offset, quotes, FIELDS[..k], refs, field, ref, allowed);
      assert FIELDS[..k+1] == FIELDS[..k] + [field];
      refs := refs[field := ref];
    }
    assert FIELDS[..|FIELDS|] == FIELDS;
    r := Some(refs);
  }

  /** A field without a quote has no reference. */
  method LocateField(text: string, field: string, quote: Option<string>, offset: nat, allowed: (string, string) -> bool)
    returns (ok: bool, ref: Option<Span>)
    ensures ok <==> Proposable(text, field, quote, allowed)
    ensures ok ==> Refers(text, offset, quote, ref)
  {
    ok, ref := true, None;
    if quote.Some? {
      ref := Locate(text, field, quote.value, offset, allowed);
      ok := ref.Some?;
    }
  }

  // ---------------------------------------------------------------- all claims

  /** A model's answer; claims go by their number, which their printed id carries. */
  datatype Item = Item(claim: nat, quotes: Quotes)

  datatype Proposal = Proposal(claim: nat, refs: Refs, populated: nat)

  function Populated<T>(values: map<string, Option<T>>): nat {
    |set f | f in values && values[f].Some?|
  }

  ghost predicate ItemAccepted(targets: seq<Target>, item: Item, allowed: (string, string) -> bool) {
    item.claim < |targets| && AllFields(item.quotes) && AllProposable(targets[item.claim].text, item.quotes, allowed)
  }

  ghost predicate Proposes(targets: seq<Target>, item: Item, p: Proposal) {
    && p.claim == item.claim < |targets|
    && AllRefer(targets[item.claim].text, targets[item.claim].span.start, item.quotes, p.refs)
    && p.populated == Populated(p.refs)
  }

  lemma ProposedRef(targets: seq<Target>, c: nat, quotes: Quotes, p: Proposal, f: string)
    requires Proposes(targets, Item(c, quotes), p) && f in quotes
    ensures f in p.refs && Refers(targets[c].text, targets[c].span.start, quotes[f], p.refs[f])
  {
  }

  predicate Distinct(items: seq<Item>) {
    forall i, j :: 0 <= i < j < |items| ==> items[i].claim != items[j].claim
  }

  predicate Answers(items: seq<Item>, claim: nat) {
    exists k :: 0 <= k < |items| && items[k].claim == claim
  }

  ghost predicate Accepted(targets: seq<Target>, items: seq<Item>, allowed: (string, string) -> bool) {
    && Distinct(items)
    && (forall k :: 0 <= k < |items| ==> ItemAccepted(targets, items[k], allowed))
    && (forall c: nat :: c < |targets| ==> Answers(items, c))
  }

  /** What holds after some of the answers. */
  ghost predicate Progress(targets: seq<Target>, items: seq<Item>, allowed: (string, string) -> bool,
                           seen: set<nat>, result: seq<Proposal>) {
    && Distinct(items) && |result| == |items| && seen == (set k | 0 <= k < |items| :: items[k].claim)
    && (forall k :: 0 <= k < |items| ==>
          ItemAccepted(targets, items[k], allowed) && Proposes(targets, items[k], result[k]))
  }

  lemma ProgressStep(targets: seq<Target>, items: seq<Item>, allowed: (string, string) -> bool,
                     seen: set<nat>, result: seq<Proposal>, item: Item, p: Proposal)
    requires Progress(targets, items, allowed, seen, result) && item.claim !in seen
    requires ItemAccepted(targets, item, allowed) && Proposes(targets, item, p)
    ensures Progress(targets, items + [item], allowed, seen + {item.claim}, result + [p])
  {
    var all := items + [item];
    assert all[|items|] == item && forall k :: 0 <= k < |items| ==> all[k] == items[k];
    forall c: nat ensures c in (set k | 0 <= k < |all| :: all[k].claim) <==> c in seen + {item.claim} {
      if c in seen {
        var k :| 0 <= k < |items| && items[k].claim == c;
        assert all[k].claim == c;
      }
    }
  }

  /** Answers are accepted exactly when every claim is answered once, with every field given
      and every quote proposable; the proposals then refer to the quotes in the block. */
  method Validate(targets: seq<Target>, items: seq<Item>, allowed: (string, string) -> bool)
    returns (r: Option<seq<Proposal>>)
    ensures r.Some? <==> Accepted(targets, items, allowed)
    ensures r.Some? ==> |r.value| == |items| && forall k :: 0 <= k < |items| ==> Proposes(targets, items[k], r.value[k])
  {
    var seen: set<nat> := {};
    var result := [];
    for k := 0 to |items|
      invariant Progress(targets, items[..k], allowed, seen, result)
    {
      var item := items[k];
      if item.claim in seen {
        RepeatedClaim(items, k);
        return None;
      }
      var proposal := ValidateOne(targets, item, allowed);
      if proposal.None? {
        return None;
      }
      ProgressStep(targets, items[..k], allowed, seen, result, item, proposal.value);
      assert items[..k+1] == items[..k] + [item];
      seen := seen + {item.claim};
      result := result + [proposal.value];
    }
    assert items[..|items|] == items;
    var all := forall c: nat :: c < |targets| ==> c in seen;
    AllAnswered(targets, items, seen);
    r := if all then Some(result) else None;
  }

  lemma RepeatedClaim(items: seq<Item>, k: nat)
    requires k < |items| && items[k].claim in set j | 0 <= j < k :: items[..k][j].claim
    ensures !Distinct(items)
  {
    var j :| 0 <= j < k && items[..k][j].claim == items[k].claim;
    assert items[j].claim == items[k].claim;
  }

  /** One answer: its claim exists, and every field is given and proposable. */
  method ValidateOne(targets: seq<Target>, item: Item, allowed: (string, string) -> bool) returns (r: Option<Proposal>)
    ensures r.Some? <==> ItemAccepted(targets, item, allowed)
    ensures r.Some? ==> Proposes(targets, item, r.value)
  {
    if item.claim >= |targets| || !AllFields(item.quotes) {
      return None;
    }
    var target := targets[item.claim];
    var refs := LocateFields(target.text, item.quotes, target.span.start, allowed);
    r := if refs.None? then None else Some(Proposal(item.claim, refs.value, Populated(refs.value)));
  }

  lemma AllAnswered(targets: seq<Target>, items: seq<Item>, seen: set<nat>)
    requires seen == set j | 0 <= j < |items| :: items[j].claim
    ensures (forall c: nat :: c < |targets| ==> c in seen) <==> forall c: nat :: c < |targets| ==> Answers(items, c)
  {
    forall c: nat | c < |targets| ensures c in seen <==> Answers(items, c) {
    }
  }

  /** What a reference of an accepted answer is in the source block. */
  lemma ReferenceIsQuote(blocks: map<string, string>, claims: seq<Candidate>, item: Item, p: Proposal, field: string)
    requires AllInBlocks(blocks, claims) && Proposes(TargetsOf(claims), item, p)
    requires field in item.quotes && item.quotes[field].Some? && item.quotes[field].value != ""
    ensures field in p.refs && p.refs[field].Some?
    ensures var (block, ref) := (blocks[claims[p.claim].source], p.refs[field].value);
            && claims[p.claim].start <= ref.start < ref.end <= claims[p.claim].end <= |block|
            && block[ref.start..ref.end] == item.quotes[field].value
  {
    var c := claims[p.claim];
    assert InBlock(blocks, c) && TargetsOf(claims)[p.claim] == TargetOf(c);
    assert Refers(c.quote, c.start, item.quotes[field], p.refs[field]);
    var ref := p.refs[field].value;
    SliceOfSlice(blocks[c.source], c.start, c.end, ref.start, ref.end);
  }

  /** References proposed for different claims of a block never overlap. */
  lemma ReferencesApart(blocks: map<string, string>, claims: seq<Candidate>, a: Item, p: Proposal, b: Item, q: Proposal,
                        f: string, g: string)
    requires AllInBlocks(blocks, claims) && NoClash(TargetsOf(claims))
    requires Proposes(TargetsOf(claims), a, p) && Proposes(TargetsOf(claims), b, q) && p.claim != q.claim
    requires f in a.quotes && a.quotes[f].Some? && a.quotes[f].value != ""
    requires g in b.quotes && b.quotes[g].Some? && b.quotes[g].value != ""
    requires claims[p.claim].source == claims[q.claim].source
    ensures f in p.refs && p.refs[f].Some? && g in q.refs && q.refs[g].Some?
    ensures !Overlap(p.refs[f].value, q.refs[g].value)
  {
    ReferenceIsQuote(blocks, claims, a, p, f);
    ReferenceIsQuote(blocks, claims, b, q, g);
    var targets := TargetsOf(claims);
    if p.claim < q.claim {
      assert !Clash(targets[p.claim], targets[q.claim]);
    } else {
      assert !Clash(targets[q.claim], targets[p.claim]);
    }
  }
}
