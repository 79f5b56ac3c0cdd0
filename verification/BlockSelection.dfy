/**
 Choosing the paragraphs of a report that are sent for extraction: one candidate per page and
 round, under a number of blocks and a number of characters.
 */
module BlockSelection {

  const MAX_BLOCKS: nat := 16

  type Queues = seq<seq<string>>

  /** Page `page`'s candidate number `round`, which is its turn in that round. */
  datatype Turn = Turn(page: nat, round: nat)

  predicate HasTurn(q: Queues, t: Turn) {
    t.page < |q| && t.round < |q[t.page]|
  }

  function Text(q: Queues, t: Turn): string {
    if HasTurn(q, t) then q[t.page][t.round] else ""
  }

  // ---------------------------------------------------------------- the order of turns

  function OwnTurn(q: Queues, round: nat, page: nat): seq<Turn>
    requires page < |q|
  {
    if round < |q[page]| then [Turn(page, round)] else []
  }

  /** All turns before page `page` of round `round`. */
  function TurnsBefore(q: Queues, round: nat, page: nat): seq<Turn>
    requires page <= |q|
    decreases round, page
  {
    if page > 0 then TurnsBefore(q, round, page - 1) + OwnTurn(q, round, page - 1)
    else if round > 0 then TurnsBefore(q, round - 1, |q|)
    else []
  }

  /** Length of the longest queue. */
  function Longest(q: Queues): (n: nat) {
    if q == [] then 0
    else if |q[0]| > Longest(q[1..]) then |q[0]| else Longest(q[1..])
  }

  lemma {:induction false} LongestBounds(q: Queues, p: nat)
    requires p < |q|
    ensures |q[p]| <= Longest(q)
  {
    if p > 0 {
      LongestBounds(q[1..], p - 1);
    }
  }

  /** Every turn, in order. */
  function Schedule(q: Queues): seq<Turn> {
    TurnsBefore(q, Longest(q), 0)
  }

  predicate Earlier(s: Turn, t: Turn) {
    s.round < t.round || (s.round == t.round && s.page < t.page)
  }

  ghost predicate Ascending(turns: seq<Turn>) {
    forall i, j :: 0 <= i < j < |turns| ==> Earlier(turns[i], turns[j])
  }

  lemma AscendingSnoc(turns: seq<Turn>, t: Turn)
    requires Ascending(turns) && forall s :: s in turns ==> Earlier(s, t)
    ensures Ascending(turns + [t])
  {
    forall i | 0 <= i < |turns| ensures Earlier(turns[i], t) {
      assert turns[i] in turns;
    }
  }

  /** The turns before a point are exactly those of earlier rounds and of earlier pages of this
      round, each once, in ascending order. */
  lemma {:induction false} TurnsBeforeAre(q: Queues, round: nat, page: nat)
    requires page <= |q|
    ensures Ascending(TurnsBefore(q, round, page))
    ensures forall t :: t in TurnsBefore(q, round, page) <==> HasTurn(q, t) && Earlier(t, Turn(page, round))
    decreases round, page
  {
    if page > 0 {
      TurnsBeforeAre(q, round, page - 1);
      if round < |q[page-1]| {
        AscendingSnoc(TurnsBefore(q, round, page - 1), Turn(page - 1, round));
      }
    } else if round > 0 {
      TurnsBeforeAre(q, round - 1, |q|);
    }
  }

  /** The schedule gives every candidate exactly one turn. */
  lemma ScheduleIsComplete(q: Queues)
    ensures Ascending(Schedule(q)) && forall t :: t in Schedule(q) <==> HasTurn(q, t)
  {
    TurnsBeforeAre(q, Longest(q), 0);
    forall t | HasTurn(q, t) ensures t in Schedule(q) {
      LongestBounds(q, t.page);
      assert Earlier(t, Turn(0, Longest(q)));
    }
  }

  // ---------------------------------------------------------------- fairness

  /** How many candidates a page has lost by these turns. */
  function Popped(turns: seq<Turn>, page: nat): nat {
    |set t | t in turns && t.page == page|
  }

  function Taken(q: Queues, round: nat, page: nat, p: nat): nat
    requires p < |q|
  {
    var turns := round + (if p < page then 1 else 0);
    if turns < |q[p]| then turns else |q[p]|
  }

  function FirstTurns(p: nat, n: nat): set<Turn> {
    if n == 0 then {} else FirstTurns(p, n - 1) + {Turn(p, n - 1)}
  }

  lemma {:induction false} FirstTurnsAre(p: nat, n: nat)
    ensures |FirstTurns(p, n)| == n && forall t :: t in FirstTurns(p, n) <==> t.page == p && t.round < n
  {
    if n > 0 {
      FirstTurnsAre(p, n - 1);
    }
  }

  /** Before page `page` of round `round`, a page has lost one candidate per round it was in. */
  lemma PoppedIsTaken(q: Queues, round: nat, page: nat, p: nat)
    requires page <= |q| && p < |q|
    ensures Popped(TurnsBefore(q, round, page), p) == Taken(q, round, page, p)
  {
    TurnsBeforeAre(q, round, page);
    FirstTurnsAre(p, Taken(q, round, page, p));
    assert (set t | t in TurnsBefore(q, round, page) && t.page == p) == FirstTurns(p, Taken(q, round, page, p));
  }

  lemma TurnsStep(q: Queues, round: nat, page: nat)
    requires page < |q|
    ensures TurnsBefore(q, round, page + 1) == TurnsBefore(q, round, page) + OwnTurn(q, round, page)
  {
  }

  lemma TurnSkipped(q: Queues, round: nat, page: nat)
    requires page < |q| && round >= |q[page]|
    ensures TurnsBefore(q, round, page + 1) == TurnsBefore(q, round, page)
  {
  }

  lemma TurnTaken(q: Queues, round: nat, page: nat)
    requires page < |q| && round < |q[page]|
    ensures TurnsBefore(q, round, page + 1) == TurnsBefore(q, round, page) + [Turn(page, round)]
  {
  }

  lemma TurnsWrap(q: Queues, round: nat)
    ensures TurnsBefore(q, round + 1, 0) == TurnsBefore(q, round, |q|)
  {
  }

  /** Every prefix of the schedule is the list of turns before some point. */
  lemma {:induction false} PrefixPoint(q: Queues, round: nat, page: nat, m: nat) returns (r: nat, p: nat)
    requires page <= |q| && m <= |TurnsBefore(q, round, page)|
    ensures p <= |q| && TurnsBefore(q, round, page)[..m] == TurnsBefore(q, r, p)
    decreases round, page
  {
    if m == |TurnsBefore(q, round, page)| {
      r, p := round, page;
    } else if page > 0 {
      TurnsStep(q, round, page - 1);
      r, p := PrefixPoint(q, round, page - 1, m);
    } else {
      TurnsWrap(q, round - 1);
      r, p := PrefixPoint(q, round - 1, |q|, m);
    }
  }

  /** At every moment of the selection, the numbers of candidates taken from two pages that
      still have candidates differ by at most one. */
  lemma Fair(q: Queues, m: nat, p: nat, r: nat)
    requires m <= |Schedule(q)| && p < |q| && r < |q|
    requires Popped(Schedule(q)[..m], p) < |q[p]| && Popped(Schedule(q)[..m], r) < |q[r]|
    ensures -1 <= Popped(Schedule(q)[..m], p) - Popped(Schedule(q)[..m], r) <= 1
  {
    var round, page := PrefixPoint(q, Longest(q), 0, m);
    PoppedIsTaken(q, round, page, p);
    PoppedIsTaken(q, round, page, r);
  }

  // ---------------------------------------------------------------- the choice

  function Total(q: Queues, turns: seq<Turn>): nat
  {
    if turns == [] then 0
    else Total(q, turns[..|turns|-1]) + |Text(q, turns[|turns|-1])|
  }

  lemma TotalSnoc(q: Queues, turns: seq<Turn>, t: Turn)
    ensures Total(q, turns + [t]) == Total(q, turns) + |Text(q, t)|
  {
    assert (turns + [t])[..|turns|] == turns;
  }

  /** A candidate is kept at its turn when there is room for one more block and for its text. */
  function Pick(q: Queues, before: seq<Turn>, t: Turn, budget: nat): (picked: seq<Turn>)
  {
    if |before| < MAX_BLOCKS && Total(q, before) + |Text(q, t)| <= budget then before + [t] else before
  }

  function Chosen(q: Queues, turns: seq<Turn>, budget: nat): (chosen: seq<Turn>)
  {
    if turns == [] then []
    else
      Pick(q, Chosen(q, turns[..|turns|-1], budget), turns[|turns|-1], budget)
  }

  lemma ChosenSnoc(q: Queues, turns: seq<Turn>, t: Turn, budget: nat)
    ensures Chosen(q, turns + [t], budget) == Pick(q, Chosen(q, turns, budget), t, budget)
  {
    assert (turns + [t])[..|turns|] == turns;
  }

  /** The caps. */
  lemma {:induction false} Capped(q: Queues, turns: seq<Turn>, budget: nat)
    ensures |Chosen(q, turns, budget)| <= MAX_BLOCKS && Total(q, Chosen(q, turns, budget)) <= budget
  {
    if turns != [] {
      var before := turns[..|turns|-1];
      Capped(q, before, budget);
      TotalSnoc(q, Chosen(q, before, budget), turns[|turns|-1]);
    }
  }

  /** The choice keeps the order of the turns. */
  lemma {:induction false} KeepsOrder(q: Queues, turns: seq<Turn>, budget: nat)
    requires Ascending(turns)
    ensures Ascending(Chosen(q, turns, budget))
    ensures forall t :: t in Chosen(q, turns, budget) ==> t in turns
  {
    if turns != [] {
      var before, t := turns[..|turns|-1], turns[|turns|-1];
      KeepsOrder(q, before, budget);
      var chosen := Chosen(q, before, budget);
      forall i | 0 <= i < |chosen| ensures Earlier(chosen[i], t) {
        assert chosen[i] in before;
      }
    }
  }

  /** With fewer than the maximal number of blocks chosen, no candidate left out would still
      fit beside the final choice. */
  lemma {:induction false} LeftOutDoesNotFit(q: Queues, turns: seq<Turn>, budget: nat, t: Turn)
    requires t in turns && t !in Chosen(q, turns, budget)
    requires |Chosen(q, turns, budget)| < MAX_BLOCKS
    ensures Total(q, Chosen(q, turns, budget)) + |Text(q, t)| > budget
  {
    var before, last := turns[..|turns|-1], turns[|turns|-1];
    TotalSnoc(q, Chosen(q, before, budget), last);
    if t in before {
      LeftOutDoesNotFit(q, before, budget, t);
    }
  }

  /** Once the maximal number is chosen, later turns change nothing. */
  lemma {:induction false} FullStays(q: Queues, turns: seq<Turn>, all: seq<Turn>, budget: nat)
    requires turns <= all && |Chosen(q, turns, budget)| >= MAX_BLOCKS
    ensures Chosen(q, all, budget) == Chosen(q, turns, budget)
    decreases |all|
  {
    if |turns| < |all| {
      FullStays(q, turns, all[..|all|-1], budget);
    } else {
      assert turns == all;
    }
  }

  lemma {:induction false} TurnsGrow(q: Queues, round: nat, page: nat, round': nat, page': nat)
    requires page <= |q| && page' <= |q| && (round < round' || (round == round' && page <= page'))
    ensures TurnsBefore(q, round, page) <= TurnsBefore(q, round', page')
    decreases round', page'
  {
    if round == round' && page == page' {
    } else if page' > 0 {
      TurnsGrow(q, round, page, round', page' - 1);
    } else {
      TurnsGrow(q, round, page, round' - 1, |q|);
    }
  }

  /** The blocks chosen from these queues. */
  function Selection(q: Queues, budget: nat): seq<Turn> {
    Chosen(q, Schedule(q), budget)
  }

  function Texts(q: Queues, turns: seq<Turn>): (texts: seq<string>)
  {
    if turns == [] then [] else Texts(q, turns[..|turns|-1]) + [Text(q, turns[|turns|-1])]
  }

  function Length(blocks: seq<string>): nat {
    if blocks == [] then 0 else Length(blocks[..|blocks|-1]) + |blocks[|blocks|-1]|
  }

  lemma {:induction false} LengthIsTotal(q: Queues, turns: seq<Turn>)
    ensures Length(Texts(q, turns)) == Total(q, turns) && |Texts(q, turns)| == |turns|
  {
    if turns != [] {
      LengthIsTotal(q, turns[..|turns|-1]);
      var texts := Texts(q, turns[..|turns|-1]);
      assert (texts + [Text(q, turns[|turns|-1])])[..|texts|] == texts;
    }
  }

  /** What is left of the queues before page `page` of round `round`. */
  ghost predicate Left(q: Queues, rest: Queues, round: nat, page: nat) {
    |rest| == |q| && forall p {:trigger rest[p]} :: 0 <= p < |q| ==> rest[p] == q[p][Taken(q, round, page, p)..]
  }

  ghost predicate Holds(q: Queues, blocks: seq<string>, turns: seq<Turn>, budget: nat) {
    blocks == Texts(q, Chosen(q, turns, budget))
  }

  ghost predicate At(q: Queues, rest: Queues, blocks: seq<string>, round: nat, page: nat, budget: nat) {
    page <= |q| && Left(q, rest, round, page) && Holds(q, blocks, TurnsBefore(q, round, page), budget)
  }

  lemma HoldsCapped(q: Queues, blocks: seq<string>, turns: seq<Turn>, budget: nat)
    requires Holds(q, blocks, turns, budget)
    ensures |blocks| == |Chosen(q, turns, budget)| <= MAX_BLOCKS
    ensures Length(blocks) == Total(q, Chosen(q, turns, budget))
  {
    Capped(q, turns, budget);
    LengthIsTotal(q, Chosen(q, turns, budget));
  }

  function Offered(blocks: seq<string>, candidate: string, budget: nat): seq<string> {
    if Length(blocks) + |candidate| <= budget then blocks + [candidate] else blocks
  }

  lemma TextsSnoc(q: Queues, turns: seq<Turn>, t: Turn)
    ensures Texts(q, turns + [t]) == Texts(q, turns) + [Text(q, t)]
  {
    assert (turns + [t])[..|turns|] == turns;
  }

  lemma PickText(q: Queues, before: seq<Turn>, t: Turn, budget: nat)
    requires |before| < MAX_BLOCKS
    ensures Texts(q, Pick(q, before, t, budget)) == Offered(Texts(q, before), Text(q, t), budget)
  {
    LengthIsTotal(q, before);
    TextsSnoc(q, before, t);
  }

  lemma OfferStep(q: Queues, blocks: seq<string>, turns: seq<Turn>, t: Turn, budget: nat)
    requires Holds(q, blocks, turns, budget) && |blocks| < MAX_BLOCKS
    ensures Holds(q, Offered(blocks, Text(q, t), budget), turns + [t], budget)
  {
    LengthIsTotal(q, Chosen(q, turns, budget));
    ChosenSnoc(q, turns, t, budget);
    PickText(q, Chosen(q, turns, budget), t, budget);
  }

  lemma SkipLeft(q: Queues, rest: Queues, round: nat, page: nat)
    requires Left(q, rest, round, page) && page < |q| && rest[page] == []
    ensures Left(q, rest, round, page + 1) && round >= |q[page]|
  {
  }

  lemma TakeLeft(q: Queues, rest: Queues, round: nat, page: nat)
    requires Left(q, rest, round, page) && page < |q| && rest[page] != []
    ensures Left(q, rest[page := rest[page][1..]], round, page + 1)
    ensures round < |q[page]| && rest[page][0] == Text(q, Turn(page, round))
  {
  }

  /** A page without candidates left is passed over. */
  lemma SkipTurn(q: Queues, rest: Queues, blocks: seq<string>, round: nat, page: nat, budget: nat)
    requires At(q, rest, blocks, round, page, budget) && page < |q| && rest[page] == []
    ensures At(q, rest, blocks, round, page + 1, budget)
  {
    SkipLeft(q, rest, round, page);
    TurnSkipped(q, round, page);
  }

  /** A page with candidates left loses its first one, which is kept when it fits. */
  lemma TakeTurn(q: Queues, rest: Queues, blocks: seq<string>, round: nat, page: nat, budget: nat)
    requires At(q, rest, blocks, round, page, budget) && page < |q| && |blocks| < MAX_BLOCKS && rest[page] != []
    ensures At(q, rest[page := rest[page][1..]], Offered(blocks, rest[page][0], budget), round, page + 1, budget)
  {
    TakeLeft(q, rest, round, page);
    TurnTaken(q, round, page);
    OfferStep(q, blocks, TurnsBefore(q, round, page), Turn(page, round), budget);
  }

  predicate AnyLeft(rest: Queues) {
    exists p :: 0 <= p < |rest| && rest[p] != []
  }

  lemma EmptyMeansOver(q: Queues, rest: Queues, round: nat)
    requires Left(q, rest, round, 0)
    ensures AnyLeft(rest) <==> round < Longest(q)
  {
    if round < Longest(q) {
      var p := LongestAt(q);
      assert rest[p] != [];
    } else {
      forall p | 0 <= p < |q| ensures rest[p] == [] {
        LongestBounds(q, p);
      }
    }
  }

  lemma {:induction false} LongestAt(q: Queues) returns (p: nat)
    requires Longest(q) > 0
    ensures p < |q| && |q[p]| == Longest(q)
  {
    if |q[0]| > Longest(q[1..]) {
      p := 0;
    } else {
      p := LongestAt(q[1..]);
      p := p + 1;
    }
  }

  /** Where the loop stands: full, with the selection made, or at the turn of a page. */
  ghost predicate Going(q: Queues, rest: Queues, blocks: seq<string>, round: nat, page: nat, budget: nat) {
    |rest| == |q| && if |blocks| < MAX_BLOCKS then At(q, rest, blocks, round, page, budget) else Done(q, blocks, budget)
  }

  ghost predicate Done(q: Queues, blocks: seq<string>, budget: nat) {
    Holds(q, blocks, Schedule(q), budget)
  }

  lemma Filled(q: Queues, blocks: seq<string>, round: nat, page: nat, budget: nat)
    requires page <= |q| && round < Longest(q) && |blocks| >= MAX_BLOCKS
    requires Holds(q, blocks, TurnsBefore(q, round, page), budget)
    ensures Done(q, blocks, budget)
  {
    HoldsCapped(q, blocks, TurnsBefore(q, round, page), budget);
    TurnsGrow(q, round, page, Longest(q), 0);
    FullStays(q, TurnsBefore(q, round, page), Schedule(q), budget);
  }

  lemma Start(q: Queues, budget: nat)
    ensures Going(q, q, [], 0, 0, budget)
  {
  }

  /** One page of one round. */
  lemma Advance(q: Queues, rest: Queues, blocks: seq<string>, round: nat, page: nat, budget: nat)
    requires Going(q, rest, blocks, round, page, budget) && page < |q| && round < Longest(q)
    ensures rest[page] != [] && |blocks| < MAX_BLOCKS ==>
              Going(q, rest[page := rest[page][1..]], Offered(blocks, rest[page][0], budget), round, page + 1, budget)
    ensures rest[page] == [] || |blocks| >= MAX_BLOCKS ==> Going(q, rest, blocks, round, page + 1, budget)
  {
    if |blocks| < MAX_BLOCKS {
      if rest[page] == [] {
        SkipTurn(q, rest, blocks, round, page, budget);
      } else {
        TakeTurn(q, rest, blocks, round, page, budget);
        var more := Offered(blocks, rest[page][0], budget);
        if |more| >= MAX_BLOCKS {
          Filled(q, more, round, page + 1, budget);
        }
      }
    }
  }

  lemma Wrap(q: Queues, rest: Queues, blocks: seq<string>, round: nat, budget: nat)
    requires Going(q, rest, blocks, round, |q|, budget)
    ensures Going(q, rest, blocks, round + 1, 0, budget)
  {
    TurnsWrap(q, round);
  }

  lemma Finish(q: Queues, rest: Queues, blocks: seq<string>, round: nat, budget: nat)
    requires Going(q, rest, blocks, round, 0, budget)
    ensures |blocks| >= MAX_BLOCKS || !AnyLeft(rest) ==> Done(q, blocks, budget)
    ensures |blocks| < MAX_BLOCKS && AnyLeft(rest) ==> round < Longest(q)
  {
    if |blocks| < MAX_BLOCKS {
      EmptyMeansOver(q, rest, round);
      if !AnyLeft(rest) {
        Exhausted(q, round, 0);
      }
    }
  }

  /** The loop over the pages in one round. */
  method OneRound(q: Queues, queues: Queues, blocks: seq<string>, ghost round: nat, budget: nat)
    returns (rest: Queues, more: seq<string>)
    requires Going(q, queues, blocks, round, 0, budget) && round < Longest(q)
    ensures Going(q, rest, more, round, |q|, budget)
  {
    rest, more := queues, blocks;
    for page := 0 to |q|
      invariant Going(q, rest, more, round, page, budget)
    {
      Advance(q, rest, more, round, page, budget);
      if rest[page] != [] && |more| < MAX_BLOCKS {
        var candidate := rest[page][0];
        rest := rest[page := rest[page][1..]];
        if Length(more) + |candidate| <= budget {
          more := more + [candidate];
        }
      }
    }
  }

  /** The loop over the rounds: it stops, and it keeps exactly the selection. */
  method SelectBlocks(q: Queues, budget: nat) returns (blocks: seq<string>)
    ensures Done(q, blocks, budget)
  {
    var queues := q;
    blocks := [];
    ghost var round: nat := 0;
    Start(q, budget);
    while |blocks| < MAX_BLOCKS && AnyLeft(queues)
      invariant Going(q, queues, blocks, round, 0, budget)
      decreases Longest(q) - round
    {
      Finish(q, queues, blocks, round, budget);
      queues, blocks := OneRound(q, queues, blocks, round, budget);
      Wrap(q, queues, blocks, round, budget);
      round := round + 1;
    }
    Finish(q, queues, blocks, round, budget);
  }

  lemma {:induction false} Exhausted(q: Queues, round: nat, page: nat)
    requires round >= Longest(q) && page <= |q|
    ensures TurnsBefore(q, round, page) == Schedule(q)
    decreases round, page
  {
    if page > 0 {
      Exhausted(q, round, page - 1);
      LongestBounds(q, page - 1);
    } else if round > Longest(q) {
      Exhausted(q, round - 1, |q|);
    }
  }

  // ---------------------------------------------------------------- what was selected

  /** The selection respects both caps and takes the candidates of a page in their order. */
  lemma SelectionIsCappedAndOrdered(q: Queues, budget: nat)
    ensures var s := Selection(q, budget);
            && |s| <= 16 && Total(q, s) <= budget
            && forall i, j :: 0 <= i < j < |s| && s[i].page == s[j].page ==> s[i].round < s[j].round
  {
    ScheduleIsComplete(q);
    Capped(q, Schedule(q), budget);
    KeepsOrder(q, Schedule(q), budget);
    var s := Selection(q, budget);
    forall i, j | 0 <= i < j < |s| && s[i].page == s[j].page ensures s[i].round < s[j].round {
      assert Earlier(s[i], s[j]);
    }
  }

  /** Below the maximal number of blocks, a candidate is selected or does not fit any more. */
  lemma SelectionIsMaximal(q: Queues, budget: nat, t: Turn)
    requires HasTurn(q, t) && t !in Selection(q, budget) && |Selection(q, budget)| < 16
    ensures Total(q, Selection(q, budget)) + |Text(q, t)| > budget
  {
    ScheduleIsComplete(q);
    LeftOutDoesNotFit(q, Schedule(q), budget, t);
  }

  /** With paragraphs of admitted length, nothing is selected only when there is no candidate. */
  lemma EmptyOnlyWithoutCandidates(q: Queues, unattended: bool)
    requires forall p, k :: 0 <= p < |q| && 0 <= k < |q[p]| ==> |q[p][k]| <= 1800
    ensures Selection(q, if unattended then 3500 else 9000) == [] <==> forall p :: 0 <= p < |q| ==> q[p] == []
  {
    ScheduleIsComplete(q);
    var budget := if unattended then 3500 else 9000;
    var s := Selection(q, budget);
    if s == [] {
      forall p | 0 <= p < |q| ensures q[p] == [] {
        if q[p] != [] {
          SelectionIsMaximal(q, budget, Turn(p, 0));
          assert false;
        }
      }
    } else {
      KeepsOrder(q, Schedule(q), budget);
      assert s[0] in Schedule(q);
      assert HasTurn(q, s[0]);
    }
  }
}
