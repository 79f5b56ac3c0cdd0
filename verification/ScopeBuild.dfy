/**
 The caps of the scope plan that the compact planner starts from: at most one executive page,
 spare claim slots, and evidence pages evicted down to thirty. Together with the compact
 planner they give the guarantee of profile S18.
 */
module ScopeBuild {
  import opened ScopePlan

  const CLAIM_SLOTS: nat := 10

  /** What the ranking hands over: selected claim pages, executive pages, selected evidence
      pages, and the spare claim candidates in the order of their rank. */
  datatype Draft = Draft(claims: set<int>, executive: set<int>, evidence: set<int>, spare: seq<int>)

  // ---------------------------------------------------------------- the specification

  /** Of the executive pages among the claims only the first is kept. */
  function KeptClaims(d: Draft, n: nat): set<int> {
    var executive := Ascending(d.claims * d.executive, n);
    (d.claims - d.executive) + (if executive == [] then {} else {executive[0]})
  }

  function Slots(taken: nat): nat {
    if taken >= CLAIM_SLOTS then 0 else CLAIM_SLOTS - taken
  }

  function Prefix(xs: seq<int>, m: nat): seq<int> {
    if m <= |xs| then xs[..m] else xs
  }

  function ScopeClaims(d: Draft, n: nat): set<int> {
    KeptClaims(d, n) + ToSet(Prefix(d.spare, Slots(|KeptClaims(d, n)|)))
  }

  /** The evidence pages beyond the claims, the ones to keep first in front. */
  function Extras(d: Draft, n: nat, ahead: (int, int) -> bool): seq<int> {
    Ranked(Ascending((d.evidence + ScopeClaims(d, n)) - ScopeClaims(d, n), n), ahead)
  }

  /** Lower priority evidence is evicted only beyond thirty pages. */
  function Remaining(claims: set<int>, all: set<int>, extras: seq<int>): set<int> {
    if |all| <= RESTORED then all
    else claims + ToSet(Prefix(extras, if |claims| <= RESTORED then RESTORED - |claims| else 0))
  }

  function ScopeEvidence(d: Draft, n: nat, ahead: (int, int) -> bool): set<int> {
    Remaining(ScopeClaims(d, n), d.evidence + ScopeClaims(d, n), Extras(d, n, ahead))
  }

  function PutIn(p: int, xs: seq<int>, ahead: (int, int) -> bool): (ys: seq<int>)
    ensures forall q :: q in ys <==> q == p || q in xs
  {
    if xs == [] || ahead(p, xs[0]) then [p] + xs else [xs[0]] + PutIn(p, xs[1..], ahead)
  }

  function Ranked(xs: seq<int>, ahead: (int, int) -> bool): (ys: seq<int>)
    ensures forall q :: q in ys <==> q in xs
  {
    if xs == [] then [] else PutIn(xs[0], Ranked(xs[1..], ahead), ahead)
  }

  // ---------------------------------------------------------------- the loops

  /** Spare slots are filled one page at a time. */
  method FillSlots(kept: set<int>, spare: seq<int>) returns (claims: set<int>)
    ensures claims == kept + ToSet(Prefix(spare, Slots(|kept|)))
  {
    var ranked := Prefix(spare, Slots(|kept|));
    claims := kept;
    for i := 0 to |ranked|
      invariant claims == kept + ToSet(ranked[..i])
    {
      ToSetSnoc(ranked, i);
      claims := claims + {ranked[i]};
    }
    assert ranked[..|ranked|] == ranked;
  }

  /** The claims of `build_scope`, after the ranking. */
  method BuildClaims(d: Draft, n: nat) returns (claims: set<int>)
    ensures claims == ScopeClaims(d, n)
  {
    var executive := Ascending(d.claims * d.executive, n);
    claims := d.claims - d.executive;
    if executive != [] {
      claims := claims + {executive[0]};
    }
    assert claims == KeptClaims(d, n);
    claims := FillSlots(claims, d.spare);
  }

  // ---------------------------------------------------------------- the caps

  predicate OnPaper(d: Draft, n: nat) {
    OnPages(n, d.claims) && OnPages(n, d.evidence) && InRange(n, d.spare)
  }

  lemma PrefixSize(xs: seq<int>, m: nat)
    ensures |ToSet(Prefix(xs, m))| <= m
  {
    SmallSet(Prefix(xs, m));
  }

  lemma UnionSize(a: set<int>, b: set<int>)
    ensures |a + b| <= |a| + |b|
  {
    assert a + b == a + (b - a);
    Subset(b - a, b);
  }

  lemma KeptAreClaims(d: Draft, n: nat)
    ensures KeptClaims(d, n) <= d.claims
  {
    var executive := Ascending(d.claims * d.executive, n);
    if executive != [] {
      assert executive[0] in executive;
    }
  }

  /** Claims stay within the draft's claims and the ten slots. */
  lemma ClaimsCapped(d: Draft, n: nat)
    requires |d.claims| <= CLAIM_SLOTS
    ensures |ScopeClaims(d, n)| <= CLAIM_SLOTS
  {
    var kept := KeptClaims(d, n);
    KeptAreClaims(d, n);
    Subset(kept, d.claims);
    var spare := ToSet(Prefix(d.spare, Slots(|kept|)));
    PrefixSize(d.spare, Slots(|kept|));
    UnionSize(kept, spare);
  }

  lemma PrefixMembers(xs: seq<int>, m: nat)
    ensures ToSet(Prefix(xs, m)) <= ToSet(xs)
  {
  }

  lemma ExtrasInEvidence(d: Draft, n: nat, ahead: (int, int) -> bool)
    ensures ToSet(Extras(d, n, ahead)) <= d.evidence
  {
  }

  lemma RemainingCapped(claims: set<int>, evidence: set<int>, extras: seq<int>)
    requires ToSet(extras) <= evidence && |claims| <= RESTORED
    ensures claims <= Remaining(claims, evidence + claims, extras) <= evidence + claims
    ensures |Remaining(claims, evidence + claims, extras)| <= RESTORED
  {
    var m := RESTORED - |claims|;
    PrefixSize(extras, m);
    PrefixMembers(extras, m);
    UnionSize(claims, ToSet(Prefix(extras, m)));
  }

  /** No claim is ever evicted, and at most thirty evidence pages remain. */
  lemma EvidenceCapped(d: Draft, n: nat, ahead: (int, int) -> bool)
    requires |ScopeClaims(d, n)| <= RESTORED
    ensures ScopeClaims(d, n) <= ScopeEvidence(d, n, ahead) <= d.evidence + ScopeClaims(d, n)
    ensures |ScopeEvidence(d, n, ahead)| <= RESTORED
  {
    ExtrasInEvidence(d, n, ahead);
    RemainingCapped(ScopeClaims(d, n), d.evidence, Extras(d, n, ahead));
  }

  // ---------------------------------------------------------------- what exactly is kept

  /** The claims kept are those of the draft, and of its executive pages only the first. */
  lemma KeptIff(d: Draft, n: nat, p: int)
    requires OnPages(n, d.claims)
    ensures p in KeptClaims(d, n) <==>
            p in d.claims && (p in d.executive ==> forall q :: q in d.claims && q in d.executive ==> p <= q)
  {
    var executive := Ascending(d.claims * d.executive, n);
    if executive != [] {
      assert executive[0] in executive;
      forall q | q in d.claims && q in d.executive ensures executive[0] <= q {
        assert q in executive;
      }
    }
    assert p in executive <==> p in d.claims && p in d.executive;
  }

  /** The spare slots are filled in rank order: with spare pages that are no claims yet, the
      i-th is taken exactly if it is within the slots left, and the slots are used up unless
      the spare pages run out. */
  lemma ClaimsFilled(d: Draft, n: nat)
    requires Distinct(d.spare) && NoneIn(d.spare, KeptClaims(d, n)) && |KeptClaims(d, n)| <= 10
    ensures KeptClaims(d, n) <= ScopeClaims(d, n) <= KeptClaims(d, n) + ToSet(d.spare)
    ensures forall i :: 0 <= i < |d.spare| ==> (d.spare[i] in ScopeClaims(d, n) <==> i < 10 - |KeptClaims(d, n)|)
    ensures |ScopeClaims(d, n)| == if |KeptClaims(d, n)| + |d.spare| <= 10 then |KeptClaims(d, n)| + |d.spare| else 10
  {
    var kept := KeptClaims(d, n);
    var taken := Prefix(d.spare, Slots(|kept|));
    ToSetSize(kept, taken);
    forall i | 0 <= i < |d.spare| ensures d.spare[i] in ToSet(taken) <==> i < |taken| {
      if i < |taken| {
        assert taken[i] == d.spare[i];
      }
    }
  }

  /** A strict total order of the pages up to n. */
  ghost predicate Orders(ahead: (int, int) -> bool, n: nat) {
    && (forall p, q :: 1 <= p <= n && 1 <= q <= n && p != q ==> (ahead(p, q) <==> !ahead(q, p)))
    && (forall p, q, r :: 1 <= p <= n && 1 <= q <= n && 1 <= r <= n && ahead(p, q) && ahead(q, r) ==> ahead(p, r))
  }

  ghost predicate InRank(xs: seq<int>, ahead: (int, int) -> bool) {
    forall i, j :: 0 <= i < j < |xs| ==> ahead(xs[i], xs[j])
  }

  lemma InRankCons(p: int, xs: seq<int>, ahead: (int, int) -> bool)
    requires InRank(xs, ahead) && forall q :: q in xs ==> ahead(p, q)
    ensures InRank([p] + xs, ahead)
  {
    var all := [p] + xs;
    forall i, j | 0 <= i < j < |all| ensures ahead(all[i], all[j]) {
      assert all[j] == xs[j-1] && xs[j-1] in xs;
      assert i > 0 ==> all[i] == xs[i-1];
    }
  }

  lemma InRankHead(xs: seq<int>, ahead: (int, int) -> bool, q: int)
    requires xs != [] && InRank(xs, ahead) && q in xs[1..]
    ensures ahead(xs[0], q)
  {
    var k :| 0 <= k < |xs| - 1 && xs[1..][k] == q;
    assert xs[k+1] == q;
  }

  lemma {:induction false} PutInRank(p: int, xs: seq<int>, ahead: (int, int) -> bool, n: nat)
    requires Orders(ahead, n) && InRank(xs, ahead) && InRange(n, xs) && 1 <= p <= n && p !in xs
    ensures InRank(PutIn(p, xs, ahead), ahead)
  {
    if xs != [] {
      assert xs[0] in xs;
      forall q | q in xs[1..] ensures ahead(xs[0], q) && 1 <= q <= n {
        InRankHead(xs, ahead, q);
        assert q in xs;
      }
      if ahead(p, xs[0]) {
        InRankCons(p, xs, ahead);
      } else {
        PutInRank(p, xs[1..], ahead, n);
        InRankCons(xs[0], PutIn(p, xs[1..], ahead), ahead);
      }
    } else {
      InRankCons(p, [], ahead);
    }
  }

  lemma {:induction false} RankedInRank(xs: seq<int>, ahead: (int, int) -> bool, n: nat)
    requires Orders(ahead, n) && InRange(n, xs) && Distinct(xs)
    ensures InRank(Ranked(xs, ahead), ahead)
    ensures Distinct(Ranked(xs, ahead)) && InRange(n, Ranked(xs, ahead))
  {
    if xs != [] {
      RankedInRank(xs[1..], ahead, n);
      PutInRank(xs[0], Ranked(xs[1..], ahead), ahead, n);
      var ys := Ranked(xs, ahead);
      forall i | 0 <= i < |ys| ensures 1 <= ys[i] <= n {
        assert ys[i] in xs;
      }
      DistinctPut(xs[0], Ranked(xs[1..], ahead), ahead);
    }
  }

  lemma {:induction false} DistinctPut(p: int, xs: seq<int>, ahead: (int, int) -> bool)
    requires Distinct(xs) && p !in xs
    ensures Distinct(PutIn(p, xs, ahead))
  {
    if xs != [] && !ahead(p, xs[0]) {
      DistinctPut(p, xs[1..], ahead);
      var ys := PutIn(p, xs[1..], ahead);
      assert xs[0] !in ys;
    }
  }

  /** Without need nothing is evicted. Otherwise exactly thirty pages remain, the claims and
      then the others by rank: a page evicted comes after every one that remains. */
  ghost predicate EvictsByRank(claims: set<int>, all: set<int>, evidence: set<int>, ahead: (int, int) -> bool) {
    if |all| <= 30 then evidence == all
    else
      && |evidence| == 30
      && forall p, q :: p in evidence && p !in claims && q in all && q !in evidence ==> ahead(p, q)
  }

  lemma TakenInRank(claims: set<int>, extras: seq<int>, cap: nat, ahead: (int, int) -> bool)
    requires InRank(extras, ahead) && Distinct(extras) && NoneIn(extras, claims) && |claims| <= cap == 30
    requires |claims + ToSet(extras)| > cap
    ensures EvictsByRank(claims, claims + ToSet(extras), claims + ToSet(Prefix(extras, cap - |claims|)), ahead)
  {
    ToSetSize(claims, extras);
    var m := cap - |claims|;
    ToSetSize(claims, extras[..m]);
    forall p, q | p in ToSet(extras[..m]) && q in ToSet(extras) && q !in ToSet(extras[..m]) ensures ahead(p, q) {
      var i, j := Straddle(extras, m, p, q);
    }
  }

  lemma RemainingByRank(claims: set<int>, all: set<int>, extras: seq<int>, ahead: (int, int) -> bool)
    requires InRank(extras, ahead) && Distinct(extras) && NoneIn(extras, claims) && |claims| <= 30
    requires claims + ToSet(extras) == all
    ensures EvictsByRank(claims, all, Remaining(claims, all, extras), ahead)
  {
    if |all| > 30 {
      TakenInRank(claims, extras, 30, ahead);
    }
  }

  lemma EvidenceByRank(d: Draft, n: nat, ahead: (int, int) -> bool)
    requires OnPaper(d, n) && |ScopeClaims(d, n)| <= 30 && Orders(ahead, n)
    ensures EvictsByRank(ScopeClaims(d, n), d.evidence + ScopeClaims(d, n), ScopeEvidence(d, n, ahead), ahead)
  {
    ExtrasAre(d, n, ahead);
    RemainingByRank(ScopeClaims(d, n), d.evidence + ScopeClaims(d, n), Extras(d, n, ahead), ahead);
  }

  lemma ExtrasAre(d: Draft, n: nat, ahead: (int, int) -> bool)
    requires OnPaper(d, n) && Orders(ahead, n)
    ensures var extras := Extras(d, n, ahead);
            && InRank(extras, ahead) && Distinct(extras) && NoneIn(extras, ScopeClaims(d, n))
            && ToSet(extras) == d.evidence - ScopeClaims(d, n)
  {
    var claims := ScopeClaims(d, n);
    RankedInRank(Ascending((d.evidence + claims) - claims, n), ahead, n);
    var extras := Extras(d, n, ahead);
    forall i | 0 <= i < |extras| ensures extras[i] !in claims {
      assert extras[i] in extras;
    }
  }

  /** Assurance pages stay longest, then the denser, then the earlier page. */
  predicate Stays(rows: seq<Row>, p: int, q: int) {
    && 1 <= p <= |rows| && 1 <= q <= |rows|
    && var a, b := rows[p-1], rows[q-1];
       if a.category.Assurance? != b.category.Assurance? then a.category.Assurance?
       else if a.density != b.density then a.density > b.density
       else p < q
  }

  function Staying(rows: seq<Row>): (int, int) -> bool {
    (p, q) => Stays(rows, p, q)
  }

  lemma StayingOrders(rows: seq<Row>)
    ensures Orders(Staying(rows), |rows|)
  {
  }

  lemma EvictedAfter(claims: set<int>, all: set<int>, evidence: set<int>, ahead: (int, int) -> bool, p: int, q: int)
    requires EvictsByRank(claims, all, evidence, ahead)
    requires p in evidence && p !in claims && q in all && q !in evidence
    ensures ahead(p, q)
  {
  }

  /** In the order of the source a page is evicted only after every assurance page is in, and
      among pages that are both assurance, or both not, only after the denser and then the
      earlier ones. */
  lemma EvictedLast(d: Draft, rows: seq<Row>, p: int, q: int)
    requires OnPaper(d, |rows|) && |ScopeClaims(d, |rows|)| <= 30
    requires p in ScopeEvidence(d, |rows|, Staying(rows)) && p !in ScopeClaims(d, |rows|)
    requires q in d.evidence + ScopeClaims(d, |rows|) && q !in ScopeEvidence(d, |rows|, Staying(rows))
    ensures 1 <= p <= |rows| && 1 <= q <= |rows|
    ensures rows[q-1].category.Assurance? ==> rows[p-1].category.Assurance?
    ensures rows[p-1].category.Assurance? == rows[q-1].category.Assurance? ==>
              rows[p-1].density > rows[q-1].density || (rows[p-1].density == rows[q-1].density && p < q)
  {
    StayingOrders(rows);
    EvidenceByRank(d, |rows|, Staying(rows));
    EvictedAfter(ScopeClaims(d, |rows|), d.evidence + ScopeClaims(d, |rows|), ScopeEvidence(d, |rows|, Staying(rows)),
                 Staying(rows), p, q);
    assert Stays(rows, p, q);
  }

  // ---------------------------------------------------------------- the guarantee of S18

  /** A base plan as `build_scope` leaves it. */
  predicate Built(b: Base, d: Draft, ahead: (int, int) -> bool) {
    && OnPaper(d, |b.rows|) && |d.claims| <= CLAIM_SLOTS
    && ToSet(b.claims) == ScopeClaims(d, |b.rows|) && b.evidence == ScopeEvidence(d, |b.rows|, ahead)
  }

  lemma BuiltWellFormed(b: Base, d: Draft, ahead: (int, int) -> bool)
    requires Built(b, d, ahead)
    ensures WellFormed(b) && Claims(b, S18) <= b.evidence
    ensures |Claims(b, S18)| <= CLAIM_SLOTS && |b.evidence| <= RESTORED
  {
    var n := |b.rows|;
    ClaimsCapped(d, n);
    EvidenceCapped(d, n, ahead);
    KeptAreClaims(d, n);
    forall p | p in ScopeClaims(d, n) ensures 1 <= p <= n {
      assert p in d.claims || p in d.spare;
    }
    forall i | 0 <= i < |b.claims| ensures 1 <= b.claims[i] <= n {
      assert b.claims[i] in ToSet(b.claims);
    }
  }

  /** What S18 keeps, and within how many pages. */
  predicate Keeps(b: Base, required: seq<int>, bundles: seq<seq<int>>, selected: set<int>, cap: nat) {
    MustKeep(b, S18, required, bundles) <= selected && |selected| <= cap
  }

  /** On any plan of `build_scope`, S18 reports failure, or keeps all claims, required pages and
      bundle pages within eighteen pages, or after a restore within thirty. Which one is decided
      by the number of pages to keep: at most eighteen, at most thirty, or more. */
  lemma GuaranteeOfS18(b: Base, d: Draft, ahead: (int, int) -> bool, required: seq<int>, bundles: seq<seq<int>>)
    requires Built(b, d, ahead) && WellFormed(b) && ValidPages(b, required, bundles)
    ensures var plan := Compact(b, S18, required, bundles).value;
            var must, selected := |MustKeep(b, S18, required, bundles)|, plan.choice.selected;
            && (plan.failed <==> b.failed || must > 30)
            && (plan.choice.rejected <==> must > 18)
            && (must <= 18 ==> Keeps(b, required, bundles, selected, 18))
            && (18 < must <= 30 ==> Keeps(b, required, bundles, selected, 30))
            && (must > 30 ==> selected == b.evidence)
  {
    BuiltWellFormed(b, d, ahead);
    VerdictBySize(b, required, bundles);
    KeptUnlessFailing(b, required, bundles);
    SelectionSize(b, required, bundles);
  }

  lemma KeptUnlessFailing(b: Base, required: seq<int>, bundles: seq<seq<int>>)
    requires WellFormed(b) && ValidPages(b, required, bundles) && Claims(b, S18) <= b.evidence
    ensures var c := Compact(b, S18, required, bundles).value.choice;
            && (!c.failing ==> MustKeep(b, S18, required, bundles) <= c.selected)
            && (c.failing <==> |MustKeep(b, S18, required, bundles)| > Max(30, |Claims(b, S18)|))
            && (c.short ==> !c.rejected)
  {
    var calm := b.(failed := false);
    NothingSilentlyLost(calm, required, bundles);
    VerdictBySize(calm, required, bundles);
    ShortScope(b, required, bundles);
  }
}
