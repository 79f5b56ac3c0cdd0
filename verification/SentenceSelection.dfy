/**
 Sentence selection: the context of a packet, the sentences it offers under printed ids, and
 the local resolution of the ids a model returns.
 */
module SentenceSelection {
  import opened Wrappers
  import opened Sentences
  import opened Prefilter

  predicate DistinctIds(bs: seq<Block>) {
    forall i, j :: 0 <= i < j < |bs| ==> bs[i].id != bs[j].id
  }

  predicate NoRepeats<T(==)>(xs: seq<T>) {
    forall i, j :: 0 <= i < j < |xs| ==> xs[i] != xs[j]
  }

  // ---------------------------------------------------------------- the context of a packet

  function SamePage(eligible: seq<Block>, page: int): (bs: seq<Block>)
    ensures forall b :: b in bs <==> b in eligible && b.page == page
  {
    if eligible == [] then []
    else
      var b := eligible[|eligible|-1];
      assert eligible == eligible[..|eligible|-1] + [b];
      SamePage(eligible[..|eligible|-1], page) + (if b.page == page then [b] else [])
  }

  function Position(bs: seq<Block>, b: Block): (k: nat)
    ensures k <= |bs| && (k < |bs| <==> b in bs)
    ensures k < |bs| ==> bs[k] == b
  {
    if bs == [] || bs[0] == b then 0 else 1 + Position(bs[1..], b)
  }

  function LastHeading(bs: seq<Block>): seq<Block> {
    if bs == [] then []
    else if bs[|bs|-1].kind.Heading? then [bs[|bs|-1]]
    else LastHeading(bs[..|bs|-1])
  }

  /** The blocks before and after a target on its page, and the nearest heading above it. */
  function Around(eligible: seq<Block>, t: Block): seq<Block>
    requires t in eligible
  {
    var page := SamePage(eligible, t.page);
    var k := Position(page, t);
    (if k > 0 then [page[k-1]] else []) + (if k + 1 < |page| then [page[k+1]] else []) + LastHeading(page[..k])
  }

  /** Block m comes before block n on the same page, with no other block of that page between. */
  predicate Neighbours(bs: seq<Block>, m: int, n: int) {
    0 <= m < n < |bs| && bs[m].page == bs[n].page && forall j :: m < j < n ==> bs[j].page != bs[n].page
  }

  /** Block m is the nearest heading above block n on its page. */
  predicate HeadingAbove(bs: seq<Block>, m: int, n: int) {
    && 0 <= m < n < |bs| && bs[m].page == bs[n].page && bs[m].kind.Heading?
    && forall j :: m < j < n && bs[j].page == bs[n].page ==> !bs[j].kind.Heading?
  }

  lemma {:induction false} SamePageConcat(a: seq<Block>, b: seq<Block>, page: int)
    ensures SamePage(a + b, page) == SamePage(a, page) + SamePage(b, page)
    decreases |b|
  {
    if b == [] {
      assert a + b == a;
    } else {
      var before, last := Unsnoc(b);
      assert a + b == (a + before) + [last];
      SamePageConcat(a, before, page);
      SamePageSnoc(a + before, last, page);
      SamePageSnoc(before, last, page);
    }
  }

  lemma SamePageSnoc(bs: seq<Block>, b: Block, page: int)
    ensures SamePage(bs + [b], page) == SamePage(bs, page) + (if b.page == page then [b] else [])
  {
    assert (bs + [b])[..|bs|] == bs;
  }

  /** Block m is the last one of a page, the first one, and the last heading. */
  predicate LastAt(bs: seq<Block>, page: int, c: Block, m: int) {
    0 <= m < |bs| && bs[m] == c && c.page == page && forall j :: m < j < |bs| ==> bs[j].page != page
  }

  predicate FirstAt(bs: seq<Block>, page: int, c: Block, m: int) {
    0 <= m < |bs| && bs[m] == c && c.page == page && forall j :: 0 <= j < m ==> bs[j].page != page
  }

  predicate LastHeadingAt(bs: seq<Block>, page: int, c: Block, m: int) {
    && 0 <= m < |bs| && bs[m] == c && c.page == page && c.kind.Heading?
    && forall j :: m < j < |bs| && bs[j].page == page ==> !bs[j].kind.Heading?
  }

  ghost predicate IsLast(bs: seq<Block>, page: int, c: Block) {
    exists m :: LastAt(bs, page, c, m)
  }

  ghost predicate IsFirst(bs: seq<Block>, page: int, c: Block) {
    exists m :: FirstAt(bs, page, c, m)
  }

  ghost predicate IsLastHeading(bs: seq<Block>, page: int, c: Block) {
    exists m :: LastHeadingAt(bs, page, c, m)
  }

  lemma IsLastSnoc(bs: seq<Block>, b: Block, page: int, c: Block)
    ensures IsLast(bs + [b], page, c) <==> if b.page == page then b == c else IsLast(bs, page, c)
  {
    var all := bs + [b];
    if m :| LastAt(all, page, c, m) {
      assert all[|bs|] == b && forall j :: 0 <= j < |bs| ==> bs[j] == all[j];
      assert b.page != page ==> LastAt(bs, page, c, m);
    }
    if m :| LastAt(bs, page, c, m) {
      assert b.page != page ==> LastAt(all, page, c, m);
    }
    assert b.page == page ==> LastAt(all, page, b, |bs|);
  }

  lemma IsFirstCons(b: Block, bs: seq<Block>, page: int, c: Block)
    ensures IsFirst([b] + bs, page, c) <==> if b.page == page then b == c else IsFirst(bs, page, c)
  {
    var all := [b] + bs;
    if m :| FirstAt(all, page, c, m) {
      assert all[0] == b && forall j :: 0 <= j < |bs| ==> bs[j] == all[j+1];
      assert b.page != page ==> FirstAt(bs, page, c, m - 1);
    }
    if m :| FirstAt(bs, page, c, m) {
      assert b.page != page ==> FirstAt(all, page, c, m + 1);
    }
    assert b.page == page ==> FirstAt(all, page, b, 0);
  }

  lemma IsLastHeadingSnoc(bs: seq<Block>, b: Block, page: int, c: Block)
    ensures IsLastHeading(bs + [b], page, c) <==>
            if b.page == page && b.kind.Heading? then b == c else IsLastHeading(bs, page, c)
  {
    var all := bs + [b];
    var ends := b.page == page && b.kind.Heading?;
    if m :| LastHeadingAt(all, page, c, m) {
      assert all[|bs|] == b && forall j :: 0 <= j < |bs| ==> bs[j] == all[j];
      assert !ends ==> LastHeadingAt(bs, page, c, m);
    }
    if m :| LastHeadingAt(bs, page, c, m) {
      assert !ends ==> LastHeadingAt(all, page, c, m);
    }
    assert ends ==> LastHeadingAt(all, page, b, |bs|);
  }

  lemma LastHeadingSnoc(bs: seq<Block>, b: Block)
    ensures LastHeading(bs + [b]) == if b.kind.Heading? then [b] else LastHeading(bs)
  {
    assert (bs + [b])[..|bs|] == bs;
  }

  lemma {:induction false} LastOnPage(bs: seq<Block>, page: int, c: Block)
    ensures IsLast(bs, page, c) <==> SamePage(bs, page) != [] && SamePage(bs, page)[|SamePage(bs, page)|-1] == c
    decreases |bs|
  {
    if bs != [] {
      var before, last := Unsnoc(bs);
      LastOnPage(before, page, c);
      SamePageSnoc(before, last, page);
      IsLastSnoc(before, last, page, c);
    }
  }

  lemma {:induction false} FirstOnPage(bs: seq<Block>, page: int, c: Block)
    ensures IsFirst(bs, page, c) <==> SamePage(bs, page) != [] && SamePage(bs, page)[0] == c
  {
    if bs != [] {
      FirstOnPage(bs[1..], page, c);
      assert bs == [bs[0]] + bs[1..] && [bs[0]][..0] == [];
      SamePageConcat([bs[0]], bs[1..], page);
      IsFirstCons(bs[0], bs[1..], page, c);
    }
  }

  lemma {:induction false} HeadingOnPage(bs: seq<Block>, page: int, c: Block)
    ensures IsLastHeading(bs, page, c) <==> c in LastHeading(SamePage(bs, page))
    decreases |bs|
  {
    if bs != [] {
      var before, last := Unsnoc(bs);
      HeadingOnPage(before, page, c);
      SamePageSnoc(before, last, page);
      IsLastHeadingSnoc(before, last, page, c);
      if last.page == page {
        LastHeadingSnoc(SamePage(before, page), last);
      } else {
        assert SamePage(before, page) + [] == SamePage(before, page);
      }
    }
  }

  lemma {:induction false} PositionAfter(a: seq<Block>, b: Block, rest: seq<Block>)
    requires b !in a
    ensures Position(a + [b] + rest, b) == |a|
  {
    if a != [] {
      assert (a + [b] + rest)[1..] == a[1..] + [b] + rest;
      PositionAfter(a[1..], b, rest);
    }
  }

  lemma PageParts(bs: seq<Block>, n: nat, page: int)
    requires n < |bs| && bs[n].page == page
    ensures SamePage(bs, page) == SamePage(bs[..n], page) + [bs[n]] + SamePage(bs[n+1..], page)
  {
    assert bs == bs[..n] + [bs[n]] + bs[n+1..];
    SamePageConcat(bs[..n] + [bs[n]], bs[n+1..], page);
    SamePageSnoc(bs[..n], bs[n], page);
  }

  lemma NotAbove(bs: seq<Block>, n: nat, page: int)
    requires DistinctIds(bs) && n < |bs|
    ensures bs[n] !in SamePage(bs[..n], page)
  {
  }

  lemma PageSplit(bs: seq<Block>, t: Block, above: seq<Block>, below: seq<Block>)
    requires t in bs && t !in above && SamePage(bs, t.page) == above + [t] + below
    ensures Around(bs, t) == (if above != [] then [above[|above|-1]] else []) + (if below != [] then [below[0]] else [])
                             + LastHeading(above)
  {
    PositionAfter(above, t, below);
    assert (above + [t] + below)[..|above|] == above;
  }

  lemma AroundParts(bs: seq<Block>, n: nat, c: Block)
    requires DistinctIds(bs) && n < |bs|
    ensures var page := bs[n].page;
            c in Around(bs, bs[n]) <==>
            IsLast(bs[..n], page, c) || IsFirst(bs[n+1..], page, c) || IsLastHeading(bs[..n], page, c)
  {
    var page := bs[n].page;
    LastOnPage(bs[..n], page, c);
    FirstOnPage(bs[n+1..], page, c);
    HeadingOnPage(bs[..n], page, c);
    PageParts(bs, n, page);
    NotAbove(bs, n, page);
    PageSplit(bs, bs[n], SamePage(bs[..n], page), SamePage(bs[n+1..], page));
  }

  /** Block m belongs around block n. */
  predicate Near(bs: seq<Block>, m: int, n: int) {
    Neighbours(bs, m, n) || Neighbours(bs, n, m) || HeadingAbove(bs, m, n)
  }

  lemma NearIs(bs: seq<Block>, n: nat, c: Block, m: nat)
    requires n < |bs| && m < |bs| && bs[m] == c && Near(bs, m, n)
    ensures IsLast(bs[..n], bs[n].page, c) || IsFirst(bs[n+1..], bs[n].page, c) || IsLastHeading(bs[..n], bs[n].page, c)
  {
    if Neighbours(bs, m, n) {
      assert LastAt(bs[..n], bs[n].page, c, m);
    } else if Neighbours(bs, n, m) {
      assert FirstAt(bs[n+1..], bs[n].page, c, m - n - 1);
    } else {
      assert LastHeadingAt(bs[..n], bs[n].page, c, m);
    }
  }

  lemma IsNear(bs: seq<Block>, n: nat, c: Block) returns (m: nat)
    requires n < |bs|
    requires IsLast(bs[..n], bs[n].page, c) || IsFirst(bs[n+1..], bs[n].page, c) || IsLastHeading(bs[..n], bs[n].page, c)
    ensures m < |bs| && bs[m] == c && Near(bs, m, n)
  {
    var page, after := bs[n].page, bs[n+1..];
    if k :| LastAt(bs[..n], page, c, k) {
      m := k;
      assert forall j :: m < j < n ==> bs[j] == bs[..n][j];
      assert Neighbours(bs, m, n);
    } else if k :| FirstAt(after, page, c, k) {
      m := n + 1 + k;
      assert forall j :: n < j < m ==> bs[j] == after[j-n-1];
      assert Neighbours(bs, n, m);
    } else {
      var k :| LastHeadingAt(bs[..n], page, c, k);
      m := k;
      assert forall j :: m < j < n ==> bs[j] == bs[..n][j];
      assert HeadingAbove(bs, m, n);
    }
  }

  /** What is around a block of a scope with distinct ids, in terms of the scope itself: its
      neighbours on its page, and the nearest heading above it on that page. */
  lemma AroundIff(bs: seq<Block>, n: nat, c: Block)
    requires DistinctIds(bs) && n < |bs|
    ensures c in Around(bs, bs[n]) <==> exists m :: 0 <= m < |bs| && bs[m] == c && Near(bs, m, n)
  {
    AroundParts(bs, n, c);
    if c in Around(bs, bs[n]) {
      var m := IsNear(bs, n, c);
    }
    if m :| 0 <= m < |bs| && bs[m] == c && Near(bs, m, n) {
      NearIs(bs, n, c, m);
    }
  }

  /** All that is around the targets, one target after the other. */
  function AroundAll(eligible: seq<Block>, targets: seq<Block>): seq<Block>
    requires forall t :: t in targets ==> t in eligible
  {
    if targets == [] then []
    else AroundAll(eligible, targets[..|targets|-1]) + Around(eligible, targets[|targets|-1])
  }

  /** The blocks come in the order in which they first occur. */
  predicate AsIn(xs: seq<Block>, all: seq<Block>) {
    && (forall c :: c in xs ==> c in all)
    && forall i, j :: 0 <= i < j < |xs| ==> Position(all, xs[i]) < Position(all, xs[j])
  }

  lemma {:induction false} PositionGrows(all: seq<Block>, more: seq<Block>, c: Block)
    ensures Position(all + more, c) == if c in all then Position(all, c) else |all| + Position(more, c)
  {
    if all == [] {
      assert all + more == more;
    } else {
      assert (all + more)[1..] == all[1..] + more;
      PositionGrows(all[1..], more, c);
    }
  }

  lemma AsInSnoc(xs: seq<Block>, all: seq<Block>, c: Block)
    requires AsIn(xs, all) && (c in xs <==> c in all)
    ensures AsIn(if c in xs then xs else xs + [c], all + [c])
  {
    forall d ensures Position(all + [c], d) == if d in all then Position(all, d) else |all| + Position([c], d) {
      PositionGrows(all, [c], d);
    }
  }

  /** The context dictionary of a packet: everything around its targets, in the order in which
      it is met, and no target. */
  method Context(eligible: seq<Block>, targets: seq<Block>) returns (context: seq<Block>)
    requires forall t :: t in targets ==> t in eligible
    ensures forall c :: c in context <==> c !in targets && exists t :: t in targets && c in Around(eligible, t)
    ensures AsIn(context, AroundAll(eligible, targets)) && NoRepeats(context)
  {
    var all: seq<Block> := [];
    for n := 0 to |targets|
      invariant Keys(all, AroundAll(eligible, targets[..n]))
    {
      assert targets[n] in targets && targets[..n+1][..n] == targets[..n];
      InsertedKeys(all, AroundAll(eligible, targets[..n]), Around(eligible, targets[n]));
      all := Merge(all, Around(eligible, targets[n]));
    }
    assert targets[..|targets|] == targets;
    context := Without(all, AroundAll(eligible, targets), targets);
    AroundAllAre(eligible, targets);
  }

  lemma {:induction false} AroundAllAre(eligible: seq<Block>, targets: seq<Block>)
    requires forall t :: t in targets ==> t in eligible
    ensures forall c :: c in AroundAll(eligible, targets) <==> exists t :: t in targets && c in Around(eligible, t)
    decreases |targets|
  {
    if targets != [] {
      var before, last := Unsnoc(targets);
      AroundAllAre(eligible, before);
      assert targets[..|before|] == before;
    }
  }

  /** Popping the targets. */
  method Without(all: seq<Block>, ghost met: seq<Block>, targets: seq<Block>) returns (rest: seq<Block>)
    requires AsIn(all, met)
    ensures forall c :: c in rest <==> c in all && c !in targets
    ensures AsIn(rest, met) && NoRepeats(rest)
  {
    rest := [];
    for n := 0 to |all|
      invariant forall c :: c in rest <==> c in all[..n] && c !in targets
      invariant AsIn(rest, met)
    {
      if all[n] !in targets {
        assert forall k :: 0 <= k < |rest| ==> rest[k] in all[..n];
        rest := rest + [all[n]];
      }
      assert all[..n+1] == all[..n] + [all[n]];
    }
    assert all[..|all|] == all;
  }

  /** All that was met, in the order in which it was met, each once. */
  ghost predicate Keys(xs: seq<Block>, met: seq<Block>) {
    AsIn(xs, met) && forall c :: c in xs <==> c in met
  }

  lemma KeysSnoc(xs: seq<Block>, met: seq<Block>, c: Block)
    requires Keys(xs, met)
    ensures Keys(Inserted(xs, c), met + [c])
  {
    AsInSnoc(xs, met, c);
  }

  function Inserted(xs: seq<Block>, c: Block): seq<Block> {
    if c in xs then xs else xs + [c]
  }

  /** Inserting one block after the other. */
  function InsertedAll(xs: seq<Block>, more: seq<Block>): seq<Block> {
    if more == [] then xs else Inserted(InsertedAll(xs, more[..|more|-1]), more[|more|-1])
  }

  lemma {:induction false} InsertedKeys(xs: seq<Block>, met: seq<Block>, more: seq<Block>)
    requires Keys(xs, met)
    ensures Keys(InsertedAll(xs, more), met + more)
    decreases |more|
  {
    if more == [] {
      assert met + more == met;
    } else {
      var before, c := Unsnoc(more);
      InsertedKeys(xs, met, before);
      KeysSnoc(InsertedAll(xs, before), met + before, c);
      InsertedSnoc(xs, before, c);
      assert met + more == (met + before) + [c];
    }
  }

  lemma InsertedSnoc(xs: seq<Block>, more: seq<Block>, c: Block)
    ensures InsertedAll(xs, more + [c]) == Inserted(InsertedAll(xs, more), c)
  {
    assert (more + [c])[..|more|] == more;
  }

  /** Inserting into a dictionary keeps the first position of a key. */
  method Merge(all: seq<Block>, more: seq<Block>) returns (merged: seq<Block>)
    ensures merged == InsertedAll(all, more)
  {
    merged := all;
    for n := 0 to |more|
      invariant merged == InsertedAll(all, more[..n])
    {
      assert more[..n+1][..n] == more[..n];
      if more[n] !in merged {
        merged := merged + [more[n]];
      }
    }
    assert more[..|more|] == more;
  }

  // ---------------------------------------------------------------- what a packet offers

  datatype Target = Target(source: string, page: int, kind: Kind, sentences: seq<(string, string)>)

  function Slice(s: string, span: Span): string {
    if span.start <= span.end <= |s| then s[span.start..span.end] else ""
  }

  function Offered(b: Block): seq<(string, string)> {
    var spans := SentenceSpans(b.text);
    seq(|spans|, i requires 0 <= i < |spans| => (SentenceId(b.id, i), Slice(b.text, spans[i])))
  }

  /** What a block offers: one entry for each of its sentences, in order, with the exact text. */
  lemma OfferedText(b: Block, i: nat)
    requires i < |SentenceSpans(b.text)|
    ensures var span := SentenceSpans(b.text)[i];
            && |Offered(b)| == |SentenceSpans(b.text)| && span.start < span.end <= |b.text|
            && Offered(b)[i] == (SentenceId(b.id, i), b.text[span.start..span.end])
  {
    SentencesTileText(b.text);
  }

  function Wire(b: Block): Target {
    Target(b.id, b.page, b.kind, Offered(b))
  }

  function WireAll(bs: seq<Block>, wire: Block -> Target): seq<Target> {
    if bs == [] then [] else WireAll(bs[..|bs|-1], wire) + [wire(bs[|bs|-1])]
  }

  // ---------------------------------------------------------------- resolving returned ids

  datatype Error = SourceMismatch | UnknownOrRepeated

  datatype Entry = Entry(block: Block, span: Span)

  datatype Choice = Choice(id: string, entry: Entry)

  function Lookup(graph: seq<Block>, source: string): (r: Option<Block>)
    ensures r.Some? ==> r.value in graph && r.value.id == source
    ensures r.None? ==> forall b :: b in graph ==> b.id != source
  {
    if graph == [] then None
    else if graph[|graph|-1].id == source then Some(graph[|graph|-1])
    else Lookup(graph[..|graph|-1], source)
  }

  /** The blocks of the targets, as long as each target is what its block looks like on the wire. */
  function Sources(targets: seq<Target>, graph: seq<Block>, wire: Block -> Target): Option<seq<Block>> {
    if targets == [] then Some([])
    else
      var n := |targets| - 1;
      var before := Sources(targets[..n], graph, wire);
      var b := Lookup(graph, targets[n].source);
      if before.Some? && b.Some? && wire(b.value) == targets[n] then Some(before.value + [b.value]) else None
  }

  function EntriesUpTo(b: Block, k: nat): map<string, Entry>
    requires k <= |SentenceSpans(b.text)|
  {
    if k == 0 then map[]
    else EntriesUpTo(b, k - 1)[SentenceId(b.id, k - 1) := Entry(b, SentenceSpans(b.text)[k - 1])]
  }

  function Available(bs: seq<Block>): map<string, Entry> {
    if bs == [] then map[]
    else
      var b := bs[|bs|-1];
      Available(bs[..|bs|-1]) + EntriesUpTo(b, |SentenceSpans(b.text)|)
  }

  function Choose(ids: seq<string>, available: map<string, Entry>): Result<seq<Choice>, Error> {
    if ids == [] then Success([])
    else
      var n := |ids| - 1;
      var before := Choose(ids[..n], available);
      if before.Failure? || ids[n] !in available || ids[n] in ids[..n] then Failure(UnknownOrRepeated)
      else Success(before.value + [Choice(ids[n], available[ids[n]])])
  }

  function Resolve(ids: seq<string>, targets: seq<Target>, graph: seq<Block>): Result<seq<Choice>, Error> {
    var sources := Sources(targets, graph, Wire);
    if sources.None? then Failure(SourceMismatch) else Choose(ids, Available(sources.value))
  }

  /** The two loops of `validate`. */
  method Validate(ids: seq<string>, targets: seq<Target>, graph: seq<Block>) returns (r: Result<seq<Choice>, Error>)
    ensures r == Resolve(ids, targets, graph)
  {
    var available := Offer(targets, graph);
    if available.None? {
      return Failure(SourceMismatch);
    }
    r := ChooseIds(ids, available.value);
  }

  lemma AvailableSnoc(bs: seq<Block>, b: Block)
    ensures Available(bs + [b]) == Available(bs) + EntriesUpTo(b, |SentenceSpans(b.text)|)
  {
    assert (bs + [b])[..|bs|] == bs;
  }

  /** The loop over the targets. */
  method Offer(targets: seq<Target>, graph: seq<Block>) returns (available: Option<map<string, Entry>>)
    ensures var sources := Sources(targets, graph, Wire);
            available == if sources.Some? then Some(Available(sources.value)) else None
  {
    var entries: map<string, Entry> := map[];
    ghost var found := [];
    for i := 0 to |targets|
      invariant Sources(targets[..i], graph, Wire) == Some(found) && entries == Available(found)
    {
      var b := Lookup(graph, targets[i].source);
      assert targets[..i+1][..i] == targets[..i];
      if b.None? || targets[i] != Wire(b.value) {
        SourcesFail(targets, graph, Wire, i);
        return None;
      }
      entries := AddEntries(entries, b.value);
      AvailableSnoc(found, b.value);
      found := found + [b.value];
    }
    assert targets[..|targets|] == targets;
    available := Some(entries);
  }

  /** The loop over the returned ids. */
  method ChooseIds(ids: seq<string>, available: map<string, Entry>) returns (r: Result<seq<Choice>, Error>)
    ensures r == Choose(ids, available)
  {
    var claims, seen := [], {};
    for i := 0 to |ids|
      invariant Choose(ids[..i], available) == Success(claims)
      invariant forall s :: s in seen <==> s in ids[..i]
    {
      assert ids[..i+1][..i] == ids[..i];
      var id := ids[i];
      if id !in available || id in seen {
        ChooseFail(ids, available, i);
        return Failure(UnknownOrRepeated);
      }
      seen := seen + {id};
      claims := claims + [Choice(id, available[id])];
    }
    assert ids[..|ids|] == ids;
    r := Success(claims);
  }

  method AddEntries(before: map<string, Entry>, b: Block) returns (after: map<string, Entry>)
    ensures after == before + EntriesUpTo(b, |SentenceSpans(b.text)|)
  {
    var spans := SentenceSpans(b.text);
    after := before;
    for i := 0 to |spans|
      invariant after == before + EntriesUpTo(b, i)
    {
      after := after[SentenceId(b.id, i) := Entry(b, spans[i])];
    }
  }

  lemma {:induction false} SourcesFail(targets: seq<Target>, graph: seq<Block>, wire: Block -> Target, i: nat)
    requires i < |targets| && Sources(targets[..i+1], graph, wire).None?
    ensures Sources(targets, graph, wire).None?
  {
    if i + 1 == |targets| {
      assert targets[..i+1] == targets;
    } else {
      var n := |targets| - 1;
      assert targets[..n][..i+1] == targets[..i+1];
      SourcesFail(targets[..n], graph, wire, i);
    }
  }

  lemma {:induction false} ChooseFail(ids: seq<string>, available: map<string, Entry>, i: nat)
    requires i < |ids| && Choose(ids[..i+1], available).Failure?
    ensures Choose(ids, available) == Failure(UnknownOrRepeated)
  {
    if i + 1 == |ids| {
      assert ids[..i+1] == ids;
    } else {
      var n := |ids| - 1;
      assert ids[..n][..i+1] == ids[..i+1];
      ChooseFail(ids[..n], available, i);
    }
  }

  // ---------------------------------------------------------------- main results

  lemma {:induction false} EntriesMeaning(b: Block, k: nat)
    requires k <= |SentenceSpans(b.text)|
    ensures forall i :: 0 <= i < k ==>
              SentenceId(b.id, i) in EntriesUpTo(b, k)
              && EntriesUpTo(b, k)[SentenceId(b.id, i)] == Entry(b, SentenceSpans(b.text)[i])
    ensures forall id :: id in EntriesUpTo(b, k) ==> exists i :: 0 <= i < k && id == SentenceId(b.id, i)
  {
    if k > 0 {
      EntriesMeaning(b, k - 1);
      forall i | 0 <= i < k
        ensures SentenceId(b.id, i) in EntriesUpTo(b, k)
                && EntriesUpTo(b, k)[SentenceId(b.id, i)] == Entry(b, SentenceSpans(b.text)[i])
      {
        if SentenceId(b.id, i) == SentenceId(b.id, k - 1) {
          SentenceIdInjective(b.id, i, b.id, k - 1);
        }
      }
    }
  }

  /** The table of available sentences has no collisions: with distinct sources, the id of
      sentence i of block k is bound to that very sentence. */
  lemma {:induction false} NoCollisions(bs: seq<Block>, k: nat, i: nat)
    requires DistinctIds(bs) && k < |bs| && i < |SentenceSpans(bs[k].text)|
    ensures SentenceId(bs[k].id, i) in Available(bs)
    ensures Available(bs)[SentenceId(bs[k].id, i)] == Entry(bs[k], SentenceSpans(bs[k].text)[i])
  {
    var n := |bs| - 1;
    var b, id := bs[n], SentenceId(bs[k].id, i);
    EntriesMeaning(b, |SentenceSpans(b.text)|);
    if k < n {
      NoCollisions(bs[..n], k, i);
      if id in EntriesUpTo(b, |SentenceSpans(b.text)|) {
        var j :| 0 <= j < |SentenceSpans(b.text)| && id == SentenceId(b.id, j);
        SentenceIdInjective(bs[k].id, i, b.id, j);
      }
    }
  }

  lemma {:induction false} OnlyOffered(bs: seq<Block>, id: string)
    requires id in Available(bs)
    ensures exists k, i :: 0 <= k < |bs| && 0 <= i < |SentenceSpans(bs[k].text)| && id == SentenceId(bs[k].id, i)
  {
    var n := |bs| - 1;
    EntriesMeaning(bs[n], |SentenceSpans(bs[n].text)|);
    if id !in EntriesUpTo(bs[n], |SentenceSpans(bs[n].text)|) {
      OnlyOffered(bs[..n], id);
      var k, i :| 0 <= k < n && 0 <= i < |SentenceSpans(bs[..n][k].text)| && id == SentenceId(bs[..n][k].id, i);
      assert bs[..n][k] == bs[k];
    }
  }

  predicate AllIn(bs: seq<Block>, graph: seq<Block>) {
    forall b :: b in bs ==> b in graph
  }

  lemma SourcesSnoc(targets: seq<Target>, t: Target, graph: seq<Block>, wire: Block -> Target, before: seq<Block>, b: Block)
    requires Sources(targets, graph, wire) == Some(before) && Lookup(graph, t.source) == Some(b) && wire(b) == t
    ensures Sources(targets + [t], graph, wire) == Some(before + [b])
  {
    assert (targets + [t])[..|targets|] == targets;
  }

  /** Blocks of the graph put on the wire are found again, whatever the wire form, if it names
      its block. */
  lemma {:induction false} SourcesOfWire(bs: seq<Block>, graph: seq<Block>, wire: Block -> Target)
    requires DistinctIds(graph) && AllIn(bs, graph)
    requires forall b {:trigger wire(b)} :: wire(b).source == b.id
    ensures Sources(WireAll(bs, wire), graph, wire) == Some(bs)
  {
    if bs != [] {
      var before, b := bs[..|bs|-1], bs[|bs|-1];
      SourcesOfWire(before, graph, wire);
      LookupFinds(graph, b);
      SourcesSnoc(WireAll(before, wire), wire(b), graph, wire, before, b);
      assert bs == before + [b];
    }
  }

  lemma {:induction false} LookupFinds(graph: seq<Block>, b: Block)
    requires DistinctIds(graph) && b in graph
    ensures Lookup(graph, b.id) == Some(b)
  {
    var r := Lookup(graph, b.id);
    var i :| 0 <= i < |graph| && graph[i] == b;
    var j :| 0 <= j < |graph| && graph[j] == r.value;
    assert i == j;
  }

  /** Which sentence of which target: `k` counts targets, `i` sentences. */
  datatype Pick = Pick(k: nat, i: nat)

  predicate ValidPick(bs: seq<Block>, p: Pick) {
    p.k < |bs| && p.i < |SentenceSpans(bs[p.k].text)|
  }

  function IdOf(bs: seq<Block>, p: Pick): string
    requires ValidPick(bs, p)
  {
    SentenceId(bs[p.k].id, p.i)
  }

  function ChoiceOf(bs: seq<Block>, p: Pick): Choice
    requires ValidPick(bs, p)
  {
    Choice(IdOf(bs, p), Entry(bs[p.k], SentenceSpans(bs[p.k].text)[p.i]))
  }

  predicate ValidPicks(bs: seq<Block>, picks: seq<Pick>) {
    forall n :: 0 <= n < |picks| ==> ValidPick(bs, picks[n])
  }

  function Ids(bs: seq<Block>, picks: seq<Pick>): (ids: seq<string>)
    requires ValidPicks(bs, picks)
    ensures |ids| == |picks| && forall n :: 0 <= n < |ids| ==> ids[n] == IdOf(bs, picks[n])
  {
    seq(|picks|, n requires 0 <= n < |picks| => IdOf(bs, picks[n]))
  }

  function Picked(bs: seq<Block>, picks: seq<Pick>): (cs: seq<Choice>)
    requires ValidPicks(bs, picks)
    ensures |cs| == |picks| && forall n :: 0 <= n < |cs| ==> cs[n] == ChoiceOf(bs, picks[n])
  {
    seq(|picks|, n requires 0 <= n < |picks| => ChoiceOf(bs, picks[n]))
  }

  lemma ChooseSnoc(ids: seq<string>, id: string, available: map<string, Entry>)
    ensures Choose(ids + [id], available) ==
            if Choose(ids, available).Success? && id in available && id !in ids
            then Success(Choose(ids, available).value + [Choice(id, available[id])])
            else Failure(UnknownOrRepeated)
  {
    assert (ids + [id])[..|ids|] == ids;
  }

  function IdsOf(choices: seq<Choice>): (ids: seq<string>)
    ensures |ids| == |choices| && forall n :: 0 <= n < |ids| ==> ids[n] == choices[n].id
  {
    seq(|choices|, n requires 0 <= n < |choices| => choices[n].id)
  }

  predicate DifferentIds(choices: seq<Choice>) {
    forall m, n :: 0 <= m < n < |choices| ==> choices[m].id != choices[n].id
  }

  predicate Bound(choices: seq<Choice>, available: map<string, Entry>) {
    forall n :: 0 <= n < |choices| ==> choices[n].id in available && available[choices[n].id] == choices[n].entry
  }

  /** Choices with different ids that are bound to their entries are chosen as they are. */
  lemma {:induction false} ChooseAll(choices: seq<Choice>, available: map<string, Entry>)
    requires DifferentIds(choices) && Bound(choices, available)
    ensures Choose(IdsOf(choices), available) == Success(choices)
  {
    if choices != [] {
      var before, c := choices[..|choices|-1], choices[|choices|-1];
      ChooseAll(before, available);
      assert c.id !in IdsOf(before) by {
        forall m | 0 <= m < |before| ensures IdsOf(before)[m] != c.id {
          assert choices[m].id != c.id;
        }
      }
      ChooseSnoc(IdsOf(before), c.id, available);
      assert IdsOf(choices) == IdsOf(before) + [c.id] && choices == before + [c];
    }
  }

  lemma PicksDiffer(bs: seq<Block>, picks: seq<Pick>)
    requires DistinctIds(bs) && ValidPicks(bs, picks) && NoRepeats(picks)
    ensures DifferentIds(Picked(bs, picks))
  {
    forall m, n | 0 <= m < n < |picks| ensures IdOf(bs, picks[m]) != IdOf(bs, picks[n]) {
      if IdOf(bs, picks[m]) == IdOf(bs, picks[n]) {
        SentenceIdInjective(bs[picks[m].k].id, picks[m].i, bs[picks[n].k].id, picks[n].i);
        assert false;
      }
    }
  }

  lemma PicksBound(bs: seq<Block>, picks: seq<Pick>)
    requires DistinctIds(bs) && ValidPicks(bs, picks)
    ensures Bound(Picked(bs, picks), Available(bs))
  {
    forall n | 0 <= n < |picks|
      ensures var c := Picked(bs, picks)[n]; c.id in Available(bs) && Available(bs)[c.id] == c.entry
    {
      NoCollisions(bs, picks[n].k, picks[n].i);
    }
  }

  /** Round trip: any list of different sentences of a packet, printed as ids, resolves on the
      same graph to exactly those sentences in that order. */
  lemma SelectionRoundTrip(bs: seq<Block>, graph: seq<Block>, picks: seq<Pick>)
    requires DistinctIds(graph) && DistinctIds(bs) && AllIn(bs, graph)
    requires ValidPicks(bs, picks) && NoRepeats(picks)
    ensures Resolve(Ids(bs, picks), WireAll(bs, Wire), graph) == Success(Picked(bs, picks))
  {
    SourcesOfWire(bs, graph, Wire);
    PicksDiffer(bs, picks);
    PicksBound(bs, picks);
    ChooseAll(Picked(bs, picks), Available(bs));
    assert Ids(bs, picks) == IdsOf(Picked(bs, picks));
  }

  /** The id names a sentence that the packet offers. */
  ghost predicate Names(bs: seq<Block>, id: string) {
    exists p: Pick :: ValidPick(bs, p) && id == IdOf(bs, p)
  }

  lemma AvailableIffNamed(bs: seq<Block>, id: string)
    requires DistinctIds(bs)
    ensures id in Available(bs) <==> Names(bs, id)
  {
    if id in Available(bs) {
      OnlyOffered(bs, id);
      var k, i :| 0 <= k < |bs| && 0 <= i < |SentenceSpans(bs[k].text)| && id == SentenceId(bs[k].id, i);
      assert ValidPick(bs, Pick(k, i)) && id == IdOf(bs, Pick(k, i));
    }
    if p: Pick :| ValidPick(bs, p) && id == IdOf(bs, p) {
      NoCollisions(bs, p.k, p.i);
    }
  }

  lemma {:induction false} ChooseIff(ids: seq<string>, available: map<string, Entry>)
    ensures Choose(ids, available).Success? <==>
            NoRepeats(ids) && forall n :: 0 <= n < |ids| ==> ids[n] in available
  {
    if ids != [] {
      var n := |ids| - 1;
      ChooseIff(ids[..n], available);
      assert ids[n] in ids[..n] <==> exists m :: 0 <= m < n && ids[m] == ids[n];
      assert forall m :: 0 <= m < n ==> ids[..n][m] == ids[m];
    }
  }

  /** A list of ids is accepted if and only if it repeats none and names only sentences the
      packet offers. */
  lemma AcceptedIff(ids: seq<string>, bs: seq<Block>)
    requires DistinctIds(bs)
    ensures Choose(ids, Available(bs)).Success? <==>
            NoRepeats(ids) && forall n :: 0 <= n < |ids| ==> Names(bs, ids[n])
  {
    ChooseIff(ids, Available(bs));
    forall n | 0 <= n < |ids| ensures ids[n] in Available(bs) <==> Names(bs, ids[n]) {
      AvailableIffNamed(bs, ids[n]);
    }
  }
}
