/**
 The claim prefilter: classify blocks, keep those with a lexical signal, and pack them
 greedily into packets under a target count and a byte cap. The size of a packet is any
 function of its targets; nothing additive or monotone is assumed of it.
 */
module Prefilter {
  import opened Wrappers
  import opened Text

  const MAX_PACKET_BYTES: nat := 11000
  const MAX_TARGETS: nat := 8

  datatype Kind = Paragraph | Heading | Caption | ListItem | OtherKind

  datatype Quality = Verified | Unverified | Conflicted | Unreadable | OtherQuality

  datatype Block = Block(id: string, page: int, kind: Kind, quality: Quality, hasWinner: bool, text: string)

  datatype Reason = BadQuality | StructureReview | EmptyText | NoLexicalSignal | PacketTooLarge

  datatype Deferral = Deferral(block: Block, reason: Reason)

  // ---------------------------------------------------------------- classification

  function Unfit(b: Block): Option<Reason> {
    if !(b.quality.Verified? || b.quality.Unverified?) || !b.hasWinner then Some(BadQuality)
    else if b.kind.OtherKind? then Some(StructureReview)
    else if Strip(b.text) == "" then Some(EmptyText)
    else None
  }

  /** The blocks a test keeps, and the ones it defers with its reason. */
  function Kept(blocks: seq<Block>, test: Block -> Option<Reason>): seq<Block> {
    if blocks == [] then [] else Kept(blocks[..|blocks|-1], test) + IfKept(blocks[|blocks|-1], test(blocks[|blocks|-1]))
  }

  function Put(blocks: seq<Block>, test: Block -> Option<Reason>): seq<Deferral> {
    if blocks == [] then [] else Put(blocks[..|blocks|-1], test) + IfPut(blocks[|blocks|-1], test(blocks[|blocks|-1]))
  }

  function IfKept(b: Block, r: Option<Reason>): seq<Block> {
    if r.None? then [b] else []
  }

  function IfPut(b: Block, r: Option<Reason>): seq<Deferral> {
    if r.Some? then [Deferral(b, r.value)] else []
  }

  function Eligible(blocks: seq<Block>): seq<Block> {
    Kept(blocks, Unfit)
  }

  function Silent(signal: string -> bool): Block -> Option<Reason> {
    (b: Block) => if signal(b.text) then None else Some(NoLexicalSignal)
  }

  function Signalled(eligible: seq<Block>, signal: string -> bool): seq<Block> {
    Kept(eligible, Silent(signal))
  }

  // ---------------------------------------------------------------- packing

  datatype Pack = Pack(packets: seq<seq<Block>>, current: seq<Block>, tooLarge: seq<Block>)

  predicate Overflows(current: seq<Block>, b: Block, size: seq<Block> -> nat) {
    |current| == MAX_TARGETS || size(current + [b]) > MAX_PACKET_BYTES
  }

  function Closed(k: Pack): seq<seq<Block>> {
    if k.current == [] then k.packets else k.packets + [k.current]
  }

  /** One turn of the packing loop. */
  function PackOne(k: Pack, b: Block, size: seq<Block> -> nat): Pack {
    if Overflows(k.current, b, size) then
      if size([b]) > MAX_PACKET_BYTES then Pack(Closed(k), [], k.tooLarge + [b])
      else Pack(Closed(k), [b], k.tooLarge)
    else k.(current := k.current + [b])
  }

  function PackAll(blocks: seq<Block>, size: seq<Block> -> nat): Pack {
    if blocks == [] then Pack([], [], [])
    else PackOne(PackAll(blocks[..|blocks|-1], size), blocks[|blocks|-1], size)
  }

  datatype Prepared = Prepared(packets: seq<seq<Block>>, deferred: seq<Deferral>)

  function TooLargeDeferrals(blocks: seq<Block>): (ds: seq<Deferral>)
    ensures |ds| == |blocks| && forall i :: 0 <= i < |ds| ==> ds[i] == Deferral(blocks[i], PacketTooLarge)
  {
    seq(|blocks|, i requires 0 <= i < |blocks| => Deferral(blocks[i], PacketTooLarge))
  }

  function Plan(blocks: seq<Block>, signal: string -> bool, size: seq<Block> -> nat): Prepared {
    var eligible := Eligible(blocks);
    var packed := PackAll(Signalled(eligible, signal), size);
    Prepared(Closed(packed),
             Put(blocks, Unfit) + Put(eligible, Silent(signal)) + TooLargeDeferrals(packed.tooLarge))
  }

  /** The classification loop. */
  method Classify(blocks: seq<Block>) returns (eligible: seq<Block>, deferred: seq<Deferral>)
    ensures eligible == Eligible(blocks) && deferred == Put(blocks, Unfit)
  {
    deferred, eligible := [], [];
    for i := 0 to |blocks|
      invariant eligible == Eligible(blocks[..i])
      invariant deferred == Put(blocks[..i], Unfit)
    {
      assert blocks[..i+1][..i] == blocks[..i];
      var b := blocks[i];
      var reason := Unfit(b);
      if reason.Some? {
        deferred := deferred + [Deferral(b, reason.value)];
      } else {
        eligible := eligible + [b];
      }
    }
    assert blocks[..|blocks|] == blocks;
  }

  /** The lexical selection loop. */
  method Select(eligible: seq<Block>, signal: string -> bool) returns (selected: seq<Block>, deferred: seq<Deferral>)
    ensures selected == Signalled(eligible, signal) && deferred == Put(eligible, Silent(signal))
  {
    selected, deferred := [], [];
    for i := 0 to |eligible|
      invariant selected == Signalled(eligible[..i], signal)
      invariant deferred == Put(eligible[..i], Silent(signal))
    {
      assert eligible[..i+1][..i] == eligible[..i];
      var b := eligible[i];
      if signal(b.text) {
        selected := selected + [b];
      } else {
        deferred := deferred + [Deferral(b, NoLexicalSignal)];
      }
    }
    assert eligible[..|eligible|] == eligible;
  }

  /** The packing loop. */
  method PackLoop(selected: seq<Block>, size: seq<Block> -> nat)
      returns (packets: seq<seq<Block>>, tooLarge: seq<Block>)
    ensures packets == Closed(PackAll(selected, size)) && tooLarge == PackAll(selected, size).tooLarge
  {
    var current := [];
    packets, tooLarge := [], [];
    for i := 0 to |selected|
      invariant Pack(packets, current, tooLarge) == PackAll(selected[..i], size)
    {
      assert selected[..i+1][..i] == selected[..i];
      var b := selected[i];
      if |current| == MAX_TARGETS || size(current + [b]) > MAX_PACKET_BYTES {
        if current != [] {
          packets := packets + [current];
          current := [];
        }
        if size([b]) > MAX_PACKET_BYTES {
          tooLarge := tooLarge + [b];
          continue;
        }
        assert current + [b] == [b];
      }
      current := current + [b];
    }
    assert selected[..|selected|] == selected;
    if current != [] {
      packets := packets + [current];
    }
  }

  /** `prepare` over the sorted blocks of the selected pages. In mode all_text the signal is
      constantly true. */
  method Prepare(blocks: seq<Block>, signal: string -> bool, size: seq<Block> -> nat) returns (r: Prepared)
    ensures r == Plan(blocks, signal, size)
  {
    var eligible, unfit := Classify(blocks);
    var selected, silent := Select(eligible, signal);
    var packets, tooLarge := PackLoop(selected, size);
    r := Prepared(packets, unfit + silent + TooLargeDeferrals(tooLarge));
  }

  // ---------------------------------------------------------------- conservation

  function Flatten(packets: seq<seq<Block>>): seq<Block> {
    if packets == [] then [] else Flatten(packets[..|packets|-1]) + packets[|packets|-1]
  }

  function Blocks(ds: seq<Deferral>): (bs: seq<Block>)
    ensures |bs| == |ds| && forall i :: 0 <= i < |bs| ==> bs[i] == ds[i].block
  {
    seq(|ds|, i requires 0 <= i < |ds| => ds[i].block)
  }

  /** `part` is `whole` with some elements left out. */
  predicate Subsequence(part: seq<Block>, whole: seq<Block>) {
    if part == [] then true
    else if whole == [] then false
    else if part[|part|-1] == whole[|whole|-1] then Subsequence(part[..|part|-1], whole[..|whole|-1])
    else Subsequence(part, whole[..|whole|-1])
  }

  lemma BlocksConcat(a: seq<Deferral>, b: seq<Deferral>)
    ensures Blocks(a + b) == Blocks(a) + Blocks(b)
  {
  }

  lemma FlattenClosed(k: Pack)
    ensures Flatten(Closed(k)) == Flatten(k.packets) + k.current
  {
    if k.current != [] {
      assert (k.packets + [k.current])[..|k.packets|] == k.packets;
    }
  }

  /** Read in order, the packets lose nothing and gain the block unless it is too large. */
  lemma PackOneFlat(k: Pack, b: Block, size: seq<Block> -> nat)
    ensures var next, done := PackOne(k, b, size), Flatten(k.packets) + k.current;
            if Overflows(k.current, b, size) && size([b]) > MAX_PACKET_BYTES
            then Flatten(next.packets) + next.current == done && next.tooLarge == k.tooLarge + [b]
            else Flatten(next.packets) + next.current == done + [b] && next.tooLarge == k.tooLarge
  {
    FlattenClosed(k);
  }

  lemma PackOneConserves(k: Pack, b: Block, size: seq<Block> -> nat)
    ensures var next := PackOne(k, b, size);
            multiset(Flatten(next.packets) + next.current) + multiset(next.tooLarge)
            == multiset(Flatten(k.packets) + k.current) + multiset(k.tooLarge) + multiset{b}
  {
    PackOneFlat(k, b, size);
  }

  lemma {:induction false} PackConserves(blocks: seq<Block>, size: seq<Block> -> nat)
    ensures var k := PackAll(blocks, size);
            multiset(Flatten(k.packets) + k.current) + multiset(k.tooLarge) == multiset(blocks)
  {
    if blocks != [] {
      var n := |blocks| - 1;
      PackConserves(blocks[..n], size);
      assert blocks == blocks[..n] + [blocks[n]];
      PackOneConserves(PackAll(blocks[..n], size), blocks[n], size);
    }
  }

  lemma BlocksSnoc(ds: seq<Deferral>, d: Deferral)
    ensures Blocks(ds + [d]) == Blocks(ds) + [d.block]
  {
  }

  /** A block that is kept, or deferred, is counted once. */
  lemma EitherWay(kept: seq<Block>, deferred: seq<Deferral>, blocks: seq<Block>, b: Block, r: Option<Reason>)
    requires multiset(kept) + multiset(Blocks(deferred)) == multiset(blocks)
    ensures multiset(kept + IfKept(b, r)) + multiset(Blocks(deferred + IfPut(b, r))) == multiset(blocks + [b])
  {
    if r.Some? {
      BlocksSnoc(deferred, Deferral(b, r.value));
      assert kept + [] == kept;
    } else {
      assert deferred + [] == deferred;
    }
  }

  lemma SplitSnoc(before: seq<Block>, b: Block, test: Block -> Option<Reason>)
    ensures Kept(before + [b], test) == Kept(before, test) + IfKept(b, test(b))
    ensures Put(before + [b], test) == Put(before, test) + IfPut(b, test(b))
  {
    assert (before + [b])[..|before|] == before;
  }

  lemma {:induction false} TestConserves(blocks: seq<Block>, test: Block -> Option<Reason>)
    ensures multiset(Kept(blocks, test)) + multiset(Blocks(Put(blocks, test))) == multiset(blocks)
    decreases |blocks|
  {
    if blocks != [] {
      var before, b := Unsnoc(blocks);
      TestConserves(before, test);
      SplitSnoc(before, b, test);
      EitherWay(Kept(before, test), Put(before, test), before, b, test(b));
    }
  }

  /** Every block of the scope is a target of one packet or is deferred, each as often as it
      occurs in the scope: nothing is lost, repeated or invented. */
  lemma Conservation(blocks: seq<Block>, signal: string -> bool, size: seq<Block> -> nat)
    ensures var p := Plan(blocks, signal, size);
            multiset(Flatten(p.packets)) + multiset(Blocks(p.deferred)) == multiset(blocks)
  {
    var eligible := Eligible(blocks);
    var selected := Signalled(eligible, signal);
    var k := PackAll(selected, size);
    TestConserves(blocks, Unfit);
    TestConserves(eligible, Silent(signal));
    PackConserves(selected, size);
    FlattenClosed(k);
    var a, b, c := Put(blocks, Unfit), Put(eligible, Silent(signal)), TooLargeDeferrals(k.tooLarge);
    BlocksConcat(a + b, c);
    BlocksConcat(a, b);
    assert Blocks(c) == k.tooLarge;
  }

  // ---------------------------------------------------------------- order

  lemma SubsequenceSnoc(part: seq<Block>, whole: seq<Block>, b: Block)
    requires Subsequence(part, whole)
    ensures Subsequence(part + [b], whole + [b])
  {
    assert (part + [b])[..|part|] == part && (whole + [b])[..|whole|] == whole;
  }

  lemma {:induction false} SubsequenceSkip(part: seq<Block>, whole: seq<Block>, b: Block)
    requires Subsequence(part, whole)
    ensures Subsequence(part, whole + [b])
    decreases |whole|, 1
  {
    assert (whole + [b])[..|whole|] == whole;
    if part != [] && part[|part|-1] == b {
      ShorterSubsequence(part, whole);
    }
  }

  lemma {:induction false} ShorterSubsequence(part: seq<Block>, whole: seq<Block>)
    requires part != [] && Subsequence(part, whole)
    ensures Subsequence(part[..|part|-1], whole)
    decreases |whole|, 0
  {
    var m, n := |part| - 1, |whole| - 1;
    if part[m] == whole[n] {
      assert whole == whole[..n] + [whole[n]];
      SubsequenceSkip(part[..m], whole[..n], whole[n]);
    } else {
      ShorterSubsequence(part, whole[..n]);
      assert whole == whole[..n] + [whole[n]];
      SubsequenceSkip(part[..m], whole[..n], whole[n]);
    }
  }

  lemma {:induction false} SubsequenceTrans(a: seq<Block>, b: seq<Block>, c: seq<Block>)
    requires Subsequence(a, b) && Subsequence(b, c)
    ensures Subsequence(a, c)
    decreases |c|
  {
    if a != [] {
      var n := |c| - 1;
      assert c == c[..n] + [c[n]];
      if b[|b|-1] == c[n] {
        if a[|a|-1] == b[|b|-1] {
          SubsequenceTrans(a[..|a|-1], b[..|b|-1], c[..n]);
        } else {
          SubsequenceTrans(a, b[..|b|-1], c[..n]);
        }
      } else {
        SubsequenceTrans(a, b, c[..n]);
        SubsequenceSkip(a, c[..n], c[n]);
      }
    }
  }

  lemma {:induction false} KeptInOrder(blocks: seq<Block>, test: Block -> Option<Reason>)
    ensures Subsequence(Kept(blocks, test), blocks)
  {
    if blocks != [] {
      var before, b := blocks[..|blocks|-1], blocks[|blocks|-1];
      KeptInOrder(before, test);
      InOrderStep(Kept(before, test), before, b, test(b));
      assert blocks == before + [b];
    }
  }

  lemma InOrderStep(part: seq<Block>, whole: seq<Block>, b: Block, r: Option<Reason>)
    requires Subsequence(part, whole)
    ensures Subsequence(part + IfKept(b, r), whole + [b])
  {
    if r.None? {
      SubsequenceSnoc(part, whole, b);
    } else {
      SubsequenceSkip(part, whole, b);
      assert part + [] == part;
    }
  }

  lemma {:induction false} PackedInOrder(blocks: seq<Block>, size: seq<Block> -> nat)
    ensures var k := PackAll(blocks, size); Subsequence(Flatten(k.packets) + k.current, blocks)
  {
    if blocks != [] {
      var n := |blocks| - 1;
      PackedInOrder(blocks[..n], size);
      assert blocks == blocks[..n] + [blocks[n]];
      var k := PackAll(blocks[..n], size);
      var done := Flatten(k.packets) + k.current;
      PackOneFlat(k, blocks[n], size);
      SubsequenceSkip(done, blocks[..n], blocks[n]);
      SubsequenceSnoc(done, blocks[..n], blocks[n]);
    }
  }

  /** The targets of all packets, read in order, keep the order of the scope. */
  lemma TargetsInOrder(blocks: seq<Block>, signal: string -> bool, size: seq<Block> -> nat)
    ensures Subsequence(Flatten(Plan(blocks, signal, size).packets), blocks)
  {
    var eligible := Eligible(blocks);
    var selected := Signalled(eligible, signal);
    KeptInOrder(blocks, Unfit);
    KeptInOrder(eligible, Silent(signal));
    PackedInOrder(selected, size);
    FlattenClosed(PackAll(selected, size));
    SubsequenceTrans(selected, eligible, blocks);
    SubsequenceTrans(Flatten(Plan(blocks, signal, size).packets), selected, blocks);
  }

  // ---------------------------------------------------------------- caps and greed

  predicate Legal(packet: seq<Block>, size: seq<Block> -> nat) {
    1 <= |packet| <= 8 && size(packet) <= 11000
  }

  predicate NoRoom(packet: seq<Block>, b: Block, size: seq<Block> -> nat) {
    |packet| == 8 || size(packet + [b]) > 11000
  }

  /** The next selected block after a closed packet would not have fitted into it. */
  predicate Full(packet: seq<Block>, blocks: seq<Block>, size: seq<Block> -> nat) {
    exists i :: 0 < i < |blocks| && packet != [] && packet[|packet|-1] == blocks[i-1] && NoRoom(packet, blocks[i], size)
  }

  predicate AllClosed(packets: seq<seq<Block>>, blocks: seq<Block>, size: seq<Block> -> nat) {
    forall j :: 0 <= j < |packets| ==> Legal(packets[j], size) && Full(packets[j], blocks, size)
  }

  predicate PackInv(k: Pack, blocks: seq<Block>, size: seq<Block> -> nat) {
    && AllClosed(k.packets, blocks, size)
    && (k.current != [] ==> Legal(k.current, size) && blocks != [] && k.current[|k.current|-1] == blocks[|blocks|-1])
    && (forall j :: 0 <= j < |k.tooLarge| ==> size([k.tooLarge[j]]) > MAX_PACKET_BYTES)
  }

  lemma FullGrows(packet: seq<Block>, blocks: seq<Block>, b: Block, size: seq<Block> -> nat)
    requires Full(packet, blocks, size)
    ensures Full(packet, blocks + [b], size)
  {
    var i :| 0 < i < |blocks| && packet != [] && packet[|packet|-1] == blocks[i-1] && NoRoom(packet, blocks[i], size);
    assert (blocks + [b])[i] == blocks[i] && (blocks + [b])[i-1] == blocks[i-1];
  }

  lemma FullNow(packet: seq<Block>, blocks: seq<Block>, b: Block, size: seq<Block> -> nat)
    requires packet != [] && blocks != [] && packet[|packet|-1] == blocks[|blocks|-1] && Overflows(packet, b, size)
    ensures Full(packet, blocks + [b], size)
  {
    var i := |blocks|;
    assert (blocks + [b])[i] == b && (blocks + [b])[i-1] == blocks[i-1];
  }

  lemma {:induction false} PackKeepsInv(blocks: seq<Block>, size: seq<Block> -> nat)
    ensures PackInv(PackAll(blocks, size), blocks, size)
  {
    if blocks != [] {
      var n := |blocks| - 1;
      PackKeepsInv(blocks[..n], size);
      PackOneKeepsInv(PackAll(blocks[..n], size), blocks[..n], blocks[n], size);
      assert blocks == blocks[..n] + [blocks[n]];
    }
  }

  lemma PackOneKeepsInv(k: Pack, blocks: seq<Block>, b: Block, size: seq<Block> -> nat)
    requires PackInv(k, blocks, size)
    ensures PackInv(PackOne(k, b, size), blocks + [b], size)
  {
    AllFullGrow(k.packets, blocks, b, size);
    if Overflows(k.current, b, size) {
      ClosedKeeps(k, blocks, b, size);
    } else {
      assert (k.current + [b])[|k.current|] == b;
    }
  }

  lemma ClosedKeeps(k: Pack, blocks: seq<Block>, b: Block, size: seq<Block> -> nat)
    requires PackInv(k, blocks, size) && Overflows(k.current, b, size)
    ensures AllClosed(Closed(k), blocks + [b], size)
  {
    AllFullGrow(k.packets, blocks, b, size);
    if k.current != [] {
      FullNow(k.current, blocks, b, size);
    }
  }

  lemma AllFullGrow(packets: seq<seq<Block>>, blocks: seq<Block>, b: Block, size: seq<Block> -> nat)
    requires AllClosed(packets, blocks, size)
    ensures AllClosed(packets, blocks + [b], size)
  {
    forall j | 0 <= j < |packets| ensures Full(packets[j], blocks + [b], size) {
      FullGrows(packets[j], blocks, b, size);
    }
  }

  /** Every packet is legal, and is full or the last one, which ends with the last block. */
  predicate Greedy(packets: seq<seq<Block>>, selected: seq<Block>, size: seq<Block> -> nat) {
    forall j :: 0 <= j < |packets| ==>
      && Legal(packets[j], size)
      && (|| Full(packets[j], selected, size)
          || (j == |packets| - 1 && selected != [] && packets[j][|packets[j]|-1] == selected[|selected|-1]))
  }

  lemma PackedGreedy(selected: seq<Block>, size: seq<Block> -> nat)
    ensures Greedy(Closed(PackAll(selected, size)), selected, size)
  {
    PackKeepsInv(selected, size);
  }

  /** Every packet holds one to eight targets within the byte cap, every packet but the last
      was closed because the next block would not fit, and a block is deferred as too large
      only if it is too large alone. */
  lemma PacketsLegalAndGreedy(blocks: seq<Block>, signal: string -> bool, size: seq<Block> -> nat)
    ensures Greedy(Plan(blocks, signal, size).packets, Signalled(Eligible(blocks), signal), size)
    ensures forall d :: d in Plan(blocks, signal, size).deferred && d.reason.PacketTooLarge? ==> size([d.block]) > 11000
  {
    PackedGreedy(Signalled(Eligible(blocks), signal), size);
    forall d | d in Plan(blocks, signal, size).deferred && d.reason.PacketTooLarge?
      ensures size([d.block]) > 11000
    {
      DeferralJustified(blocks, signal, size, d);
    }
  }

  // ---------------------------------------------------------------- why a block is where it is

  /** Read without conflict, of a kind that is searched, and not blank. */
  predicate Readable(b: Block) {
    && (b.quality == Verified || b.quality == Unverified) && b.hasWinner
    && b.kind in {Paragraph, Heading, Caption, ListItem}
    && !BlankRange(b.text, 0, |b.text|)
  }

  /** What the reason of a deferral says about its block. */
  predicate Justified(d: Deferral, signal: string -> bool, size: seq<Block> -> nat) {
    var b := d.block;
    match d.reason
    case BadQuality => b.quality in {Conflicted, Unreadable, OtherQuality} || !b.hasWinner
    case StructureReview => b.quality in {Verified, Unverified} && b.hasWinner && b.kind == OtherKind
    case EmptyText => b.quality in {Verified, Unverified} && b.hasWinner && b.kind != OtherKind && BlankRange(b.text, 0, |b.text|)
    case NoLexicalSignal => Readable(b) && !signal(b.text)
    case PacketTooLarge => Readable(b) && signal(b.text) && size([b]) > 11000
  }

  lemma {:induction false} KeptPass(blocks: seq<Block>, test: Block -> Option<Reason>)
    ensures forall b :: b in Kept(blocks, test) <==> b in blocks && test(b).None?
    decreases |blocks|
  {
    if blocks != [] {
      var before, b := Unsnoc(blocks);
      KeptPass(before, test);
      SplitSnoc(before, b, test);
    }
  }

  lemma {:induction false} PackedAreSelected(blocks: seq<Block>, size: seq<Block> -> nat)
    ensures var k := PackAll(blocks, size); forall b :: b in Flatten(Closed(k)) || b in k.tooLarge <==> b in blocks
  {
    var k := PackAll(blocks, size);
    PackConserves(blocks, size);
    FlattenClosed(k);
    forall b ensures b in Flatten(Closed(k)) || b in k.tooLarge <==> b in blocks {
      assert b in blocks <==> b in multiset(Flatten(k.packets) + k.current) + multiset(k.tooLarge);
    }
  }

  lemma SelectedAre(blocks: seq<Block>, signal: string -> bool)
    ensures forall b :: b in Signalled(Eligible(blocks), signal) <==> b in blocks && Readable(b) && signal(b.text)
  {
    KeptPass(blocks, Unfit);
    KeptPass(Eligible(blocks), Silent(signal));
    forall b ensures Unfit(b).None? <==> Readable(b) {
    }
  }

  /** Every target is readable and has a lexical signal, and every deferral is for its reason;
      with conservation this decides for each block of the scope where it goes, except that a
      block which is too large alone may still fit beside others. */
  lemma EverythingJustified(blocks: seq<Block>, signal: string -> bool, size: seq<Block> -> nat)
    ensures var p := Plan(blocks, signal, size);
            && (forall b :: b in Flatten(p.packets) ==> b in blocks && Readable(b) && signal(b.text))
            && (forall d :: d in p.deferred ==> d.block in blocks && Justified(d, signal, size))
            && (forall b :: b in blocks && Readable(b) && signal(b.text) ==>
                  b in Flatten(p.packets) || Deferral(b, PacketTooLarge) in p.deferred)
  {
    var selected := Signalled(Eligible(blocks), signal);
    var k := PackAll(selected, size);
    SelectedAre(blocks, signal);
    PackedAreSelected(selected, size);
    forall d | d in Plan(blocks, signal, size).deferred ensures d.block in blocks && Justified(d, signal, size) {
      DeferralJustified(blocks, signal, size, d);
    }
    forall b | b in k.tooLarge ensures Deferral(b, PacketTooLarge) in TooLargeDeferrals(k.tooLarge) {
      var i :| 0 <= i < |k.tooLarge| && k.tooLarge[i] == b;
      assert TooLargeDeferrals(k.tooLarge)[i] == Deferral(b, PacketTooLarge);
    }
  }

  lemma UnfitJustified(blocks: seq<Block>, signal: string -> bool, size: seq<Block> -> nat, d: Deferral)
    requires d in Put(blocks, Unfit)
    ensures d.block in blocks && Justified(d, signal, size)
  {
    PutReasons(blocks, Unfit);
  }

  lemma SilentJustified(blocks: seq<Block>, signal: string -> bool, size: seq<Block> -> nat, d: Deferral)
    requires d in Put(Eligible(blocks), Silent(signal))
    ensures d.block in blocks && Justified(d, signal, size)
  {
    PutReasons(Eligible(blocks), Silent(signal));
    KeptPass(blocks, Unfit);
  }

  lemma TooLargeJustified(blocks: seq<Block>, signal: string -> bool, size: seq<Block> -> nat, d: Deferral)
    requires d in TooLargeDeferrals(PackAll(Signalled(Eligible(blocks), signal), size).tooLarge)
    ensures d.block in blocks && Justified(d, signal, size)
  {
    var selected := Signalled(Eligible(blocks), signal);
    var tooLarge := PackAll(selected, size).tooLarge;
    SelectedAre(blocks, signal);
    PackedAreSelected(selected, size);
    PackKeepsInv(selected, size);
    var i :| 0 <= i < |tooLarge| && d == TooLargeDeferrals(tooLarge)[i];
    assert tooLarge[i] in tooLarge;
  }

  lemma DeferralJustified(blocks: seq<Block>, signal: string -> bool, size: seq<Block> -> nat, d: Deferral)
    requires d in Plan(blocks, signal, size).deferred
    ensures d.block in blocks && Justified(d, signal, size)
  {
    if d in Put(blocks, Unfit) {
      UnfitJustified(blocks, signal, size, d);
    } else if d in Put(Eligible(blocks), Silent(signal)) {
      SilentJustified(blocks, signal, size, d);
    } else {
      TooLargeJustified(blocks, signal, size, d);
    }
  }

  lemma {:induction false} PutReasons(blocks: seq<Block>, test: Block -> Option<Reason>)
    ensures forall d :: d in Put(blocks, test) ==> d.block in blocks && test(d.block) == Some(d.reason)
  {
    if blocks != [] {
      PutReasons(blocks[..|blocks|-1], test);
    }
  }
}
