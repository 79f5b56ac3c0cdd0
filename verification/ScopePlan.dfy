/**
 The compact scope plan: whole assurance bundles first, then single pages in priority
 order, under a page cap; if anything required would be lost the larger cap is restored,
 and if even that cannot hold it the plan is marked failed.
 */
module ScopePlan {
  import opened Wrappers

  datatype Profile = S18 | S14

  datatype Category = EnvironmentalData | Assurance | Unreadable | Conflict | OtherCategory

  datatype Row = Row(category: Category, density: real, reasons: seq<string>,
                     claimSelected: bool, evidenceSelected: bool)

  /** `rows[p - 1]` describes physical page p. */
  datatype Base = Base(rows: seq<Row>, claims: seq<int>, evidence: set<int>,
                       evidenceCandidates: set<int>, failed: bool)

  /** The page sets and verdicts of a plan. */
  datatype Choice = Choice(proposed: set<int>, missing: set<int>, short: bool, rejected: bool,
                           failing: bool, selected: set<int>)

  datatype Plan = Plan(rows: seq<Row>, claims: set<int>, choice: Choice,
                       missingBundlePages: set<int>, incomplete: bool, failed: bool)

  datatype Error = InvalidPage

  const RESTORED: nat := 30

  function Cap(profile: Profile): nat {
    if profile.S18? then 18 else 14
  }

  function ToSet(xs: seq<int>): set<int> {
    set p | p in xs
  }

  function Claims(b: Base, profile: Profile): set<int> {
    ToSet(if profile.S18? || |b.claims| <= 8 then b.claims else b.claims[..8])
  }

  predicate OnPages(n: nat, s: set<int>) {
    forall p :: p in s ==> 1 <= p <= n
  }

  predicate InRange(n: nat, xs: seq<int>) {
    forall i :: 0 <= i < |xs| ==> 1 <= xs[i] <= n
  }

  predicate WellFormed(b: Base) {
    OnPages(|b.rows|, b.evidence) && InRange(|b.rows|, b.claims)
  }

  // ---------------------------------------------------------------- assurance bundles

  /** Maximal runs of consecutive pages, in order. */
  predicate Consecutive(run: seq<int>) {
    run != [] && forall i :: 0 < i < |run| ==> run[i] == run[i-1] + 1
  }

  function Flatten(runs: seq<seq<int>>): seq<int> {
    if runs == [] then [] else Flatten(runs[..|runs|-1]) + runs[|runs|-1]
  }

  predicate MaximalRuns(runs: seq<seq<int>>) {
    && (forall k :: 0 <= k < |runs| ==> Consecutive(runs[k]))
    && (forall k {:trigger runs[k]} :: 0 < k < |runs| ==> Apart(runs[k-1], runs[k]))
  }

  predicate Apart(a: seq<int>, b: seq<int>) {
    a != [] && b != [] && a[|a|-1] + 1 < b[0]
  }

  predicate Increasing(xs: seq<int>) {
    forall i, j :: 0 <= i < j < |xs| ==> xs[i] < xs[j]
  }

  function LastPage(runs: seq<seq<int>>): int
    requires MaximalRuns(runs) && runs != []
  {
    var run := runs[|runs|-1];
    assert Consecutive(run);
    run[|run|-1]
  }

  lemma ExtendLast(runs: seq<seq<int>>, p: int)
    requires MaximalRuns(runs) && runs != [] && LastPage(runs) == p - 1
    ensures var longer := runs[|runs|-1 := runs[|runs|-1] + [p]];
            MaximalRuns(longer) && LastPage(longer) == p && Flatten(longer) == Flatten(runs) + [p]
  {
    LongerRuns(runs, p);
    FlattenLonger(runs, p);
  }

  lemma FlattenLonger(runs: seq<seq<int>>, p: int)
    requires runs != []
    ensures Flatten(runs[|runs|-1 := runs[|runs|-1] + [p]]) == Flatten(runs) + [p]
  {
    var m := |runs| - 1;
    assert runs[m := runs[m] + [p]][..m] == runs[..m];
  }

  lemma LongerRuns(runs: seq<seq<int>>, p: int)
    requires MaximalRuns(runs) && runs != [] && LastPage(runs) == p - 1
    ensures MaximalRuns(runs[|runs|-1 := runs[|runs|-1] + [p]])
  {
    var m := |runs| - 1;
    var longer := runs[m := runs[m] + [p]];
    assert Consecutive(runs[m]) && longer[m][0] == runs[m][0];
    forall k | 0 <= k < |longer| ensures Consecutive(longer[k]) {
      assert k < m ==> longer[k] == runs[k] && Consecutive(runs[k]);
    }
    forall k | 0 < k < |longer| ensures Apart(longer[k-1], longer[k]) {
      assert Apart(runs[k-1], runs[k]) && longer[k-1] == runs[k-1];
    }
  }

  lemma AddRun(runs: seq<seq<int>>, p: int)
    requires MaximalRuns(runs) && (runs != [] ==> LastPage(runs) + 1 < p)
    ensures var longer := runs + [[p]];
            MaximalRuns(longer) && LastPage(longer) == p && Flatten(longer) == Flatten(runs) + [p]
  {
    MoreRuns(runs, p);
    assert (runs + [[p]])[..|runs|] == runs;
  }

  lemma MoreRuns(runs: seq<seq<int>>, p: int)
    requires MaximalRuns(runs) && (runs != [] ==> LastPage(runs) + 1 < p)
    ensures MaximalRuns(runs + [[p]])
  {
    var longer := runs + [[p]];
    assert Consecutive([p]);
    forall k | 0 <= k < |longer| ensures Consecutive(longer[k]) {
      assert k < |runs| ==> longer[k] == runs[k] && Consecutive(runs[k]);
    }
    forall k | 0 < k < |longer| ensures Apart(longer[k-1], longer[k]) {
      assert longer[k-1] == runs[k-1];
      assert k < |runs| ==> longer[k] == runs[k] && Apart(runs[k-1], runs[k]);
    }
  }

  /** The first i pages are divided into runs, the last of them ending at the last page. */
  ghost predicate Divided(pages: seq<int>, i: nat, runs: seq<seq<int>>)
    requires i <= |pages|
  {
    && Flatten(runs) == pages[..i] && MaximalRuns(runs)
    && if i == 0 then runs == [] else runs != [] && LastPage(runs) == pages[i-1]
  }

  lemma DividedStep(pages: seq<int>, i: nat, runs: seq<seq<int>>)
    requires i < |pages| && Increasing(pages) && Divided(pages, i, runs)
    ensures if runs != [] && LastPage(runs) == pages[i] - 1 then Divided(pages, i + 1, runs[|runs|-1 := runs[|runs|-1] + [pages[i]]])
            else Divided(pages, i + 1, runs + [[pages[i]]])
  {
    assert pages[..i+1] == pages[..i] + [pages[i]];
    if runs != [] && LastPage(runs) == pages[i] - 1 {
      ExtendLast(runs, pages[i]);
    } else {
      AddRun(runs, pages[i]);
    }
  }

  /** The bundling loop over the sorted assurance pages. */
  method AssuranceBundles(pages: seq<int>) returns (runs: seq<seq<int>>)
    requires Increasing(pages)
    ensures Flatten(runs) == pages
    ensures MaximalRuns(runs)
  {
    runs := [];
    for i := 0 to |pages|
      invariant Divided(pages, i, runs)
    {
      DividedStep(pages, i, runs);
      if runs != [] && LastPage(runs) == pages[i] - 1 {
        runs := runs[|runs|-1 := runs[|runs|-1] + [pages[i]]];
      } else {
        runs := runs + [[pages[i]]];
      }
    }
    assert pages[..|pages|] == pages;
  }

  /** Two runs never share a page, so a set of pages has one division into bundles. */
  lemma {:induction false} RunsApart(runs: seq<seq<int>>, j: nat, k: nat)
    requires MaximalRuns(runs) && j < k < |runs|
    ensures Apart(runs[j], runs[k]) && ToSet(runs[j]) !! ToSet(runs[k])
    ensures forall p, q :: p in runs[j] && q in runs[k] ==> p + 1 < q
    decreases k
  {
    RunBounds(runs[j]);
    RunBounds(runs[k]);
    if j < k - 1 {
      RunsApart(runs, j, k - 1);
      RunBounds(runs[k-1]);
    }
  }

  lemma {:induction false} RunBounds(run: seq<int>)
    requires Consecutive(run)
    ensures forall i :: 0 <= i < |run| ==> run[i] == run[0] + i
  {
    if |run| > 1 {
      var n := |run| - 1;
      RunBounds(run[..n]);
      assert run[n] == run[n-1] + 1 && run[..n][n-1] == run[n-1];
    }
  }

  // ---------------------------------------------------------------- marking bundle pages

  const BUNDLED: string := "discovered_assurance_bundle;coverage_undetermined"

  function MarkPage(rows: seq<Row>, p: int): (r: seq<Row>)
    requires 1 <= p <= |rows|
    ensures |r| == |rows|
  {
    var row := rows[p-1];
    if row.category.Unreadable? || row.category.Conflict? then rows
    else rows[p-1 := row.(category := Assurance,
                          reasons := row.reasons + [BUNDLED])]
  }

  function MarkAll(rows: seq<Row>, pages: seq<int>): (r: seq<Row>)
    requires InRange(|rows|, pages)
    ensures |r| == |rows|
  {
    if pages == [] then rows
    else
      var n := |pages| - 1;
      MarkPage(MarkAll(rows, pages[..n]), pages[n])
  }

  lemma {:induction false} MarkedCategory(rows: seq<Row>, pages: seq<int>, p: int)
    requires InRange(|rows|, pages) && 1 <= p <= |rows|
    ensures var c := rows[p-1].category;
            MarkAll(rows, pages)[p-1].category ==
            if p in pages && !c.Unreadable? && !c.Conflict? then Assurance else c
    ensures MarkAll(rows, pages)[p-1].density == rows[p-1].density
  {
    if pages != [] {
      var n := |pages| - 1;
      assert p in pages <==> p in pages[..n] || p == pages[n];
      MarkedCategory(rows, pages[..n], p);
    }
  }

  lemma {:induction false} MarkedReasons(rows: seq<Row>, pages: seq<int>, p: int, reason: string)
    requires InRange(|rows|, pages) && 1 <= p <= |rows|
    ensures var row := rows[p-1];
            reason in MarkAll(rows, pages)[p-1].reasons <==>
            || reason in row.reasons
            || (reason == BUNDLED && p in pages && !row.category.Unreadable? && !row.category.Conflict?)
  {
    if pages != [] {
      var n := |pages| - 1;
      assert p in pages <==> p in pages[..n] || p == pages[n];
      MarkedReasons(rows, pages[..n], p, reason);
      MarkedCategory(rows, pages[..n], p);
    }
  }

  // ---------------------------------------------------------------- priority order

  /** Required pages, then environmental data, then density, then page number. */
  predicate Before(rows: seq<Row>, required: set<int>, p: int, q: int)
    requires 1 <= p <= |rows| && 1 <= q <= |rows|
  {
    var a, b := rows[p-1], rows[q-1];
    if (p in required) != (q in required) then p in required
    else if a.category.EnvironmentalData? != b.category.EnvironmentalData? then a.category.EnvironmentalData?
    else if a.density != b.density then a.density > b.density
    else p < q
  }

  /** Environmental data goes before other pages, then the denser page, then the earlier one. */
  predicate Preferred(rows: seq<Row>, p: int, q: int)
    requires 1 <= p <= |rows| && 1 <= q <= |rows|
  {
    var a, b := rows[p-1], rows[q-1];
    var alike := a.category.EnvironmentalData? <==> b.category.EnvironmentalData?;
    && (b.category.EnvironmentalData? ==> a.category.EnvironmentalData?)
    && (alike ==> a.density >= b.density)
    && (alike && a.density == b.density ==> p < q)
  }

  /** Of two pages the order puts a required one first, and the preferred one among equals; it
      puts exactly one of them first. */
  lemma BeforeIff(rows: seq<Row>, required: set<int>, p: int, q: int)
    requires 1 <= p <= |rows| && 1 <= q <= |rows| && p != q
    ensures Before(rows, required, p, q) <==>
            (q in required ==> p in required) && (p !in required || q in required ==> Preferred(rows, p, q))
    ensures Before(rows, required, p, q) <==> !Before(rows, required, q, p)
  {
  }

  function Ascending(s: set<int>, n: nat): (xs: seq<int>)
    ensures forall p :: p in xs <==> p in s && 1 <= p <= n
    ensures InRange(n, xs) && Increasing(xs)
  {
    if n == 0 then [] else Ascending(s, n - 1) + (if n in s then [n] else [])
  }

  function InsertBy(rows: seq<Row>, required: set<int>, p: int, xs: seq<int>): (ys: seq<int>)
    requires InRange(|rows|, xs) && 1 <= p <= |rows|
    ensures InRange(|rows|, ys)
    ensures forall q :: q in ys <==> q == p || q in xs
  {
    if xs == [] then [p]
    else if Before(rows, required, p, xs[0]) then [p] + xs
    else [xs[0]] + InsertBy(rows, required, p, xs[1..])
  }

  function SortBy(rows: seq<Row>, required: set<int>, xs: seq<int>): (ys: seq<int>)
    requires InRange(|rows|, xs)
    ensures InRange(|rows|, ys)
    ensures forall q :: q in ys <==> q in xs
  {
    if xs == [] then [] else InsertBy(rows, required, xs[0], SortBy(rows, required, xs[1..]))
  }

  predicate SortedBy(rows: seq<Row>, required: set<int>, xs: seq<int>)
    requires InRange(|rows|, xs)
  {
    forall i, j :: 0 <= i < j < |xs| ==> Before(rows, required, xs[i], xs[j])
  }

  lemma SortedCons(rows: seq<Row>, required: set<int>, p: int, xs: seq<int>)
    requires InRange(|rows|, xs) && 1 <= p <= |rows| && SortedBy(rows, required, xs)
    requires forall q :: q in xs ==> Before(rows, required, p, q)
    ensures SortedBy(rows, required, [p] + xs)
  {
    var all := [p] + xs;
    forall i, j | 0 <= i < j < |all| ensures Before(rows, required, all[i], all[j]) {
      assert all[j] == xs[j-1] && xs[j-1] in xs;
      assert i > 0 ==> all[i] == xs[i-1];
    }
  }

  lemma HeadFirst(rows: seq<Row>, required: set<int>, xs: seq<int>, q: int)
    requires InRange(|rows|, xs) && xs != [] && SortedBy(rows, required, xs) && q in xs[1..]
    ensures Before(rows, required, xs[0], q)
  {
    var k :| 0 <= k < |xs| - 1 && xs[1..][k] == q;
    assert xs[k+1] == q;
  }

  lemma {:induction false} InsertSorted(rows: seq<Row>, required: set<int>, p: int, xs: seq<int>)
    requires InRange(|rows|, xs) && 1 <= p <= |rows| && p !in xs && SortedBy(rows, required, xs)
    ensures SortedBy(rows, required, InsertBy(rows, required, p, xs))
  {
    if xs != [] {
      var rest := xs[1..];
      forall q | q in rest ensures Before(rows, required, xs[0], q) {
        HeadFirst(rows, required, xs, q);
      }
      if Before(rows, required, p, xs[0]) {
        SortedCons(rows, required, p, xs);
      } else {
        InsertSorted(rows, required, p, rest);
        assert xs[0] in xs;
        SortedCons(rows, required, xs[0], InsertBy(rows, required, p, rest));
      }
    }
  }

  lemma {:induction false} SortSorted(rows: seq<Row>, required: set<int>, xs: seq<int>)
    requires InRange(|rows|, xs) && Increasing(xs)
    ensures SortedBy(rows, required, SortBy(rows, required, xs))
  {
    if xs != [] {
      SortSorted(rows, required, xs[1..]);
      InsertSorted(rows, required, xs[0], SortBy(rows, required, xs[1..]));
    }
  }

  // ---------------------------------------------------------------- the greedy pass

  function Greedy(selected: set<int>, units: seq<set<int>>, cap: nat): set<int> {
    if units == [] then selected
    else
      var n := |units| - 1;
      var before := Greedy(selected, units[..n], cap);
      if |before + units[n]| <= cap then before + units[n] else before
  }

  method Fill(start: set<int>, units: seq<set<int>>, cap: nat) returns (selected: set<int>)
    ensures selected == Greedy(start, units, cap)
  {
    selected := start;
    for i := 0 to |units|
      invariant selected == Greedy(start, units[..i], cap)
    {
      assert units[..i+1][..i] == units[..i];
      if |selected + units[i]| <= cap {
        selected := selected + units[i];
      }
    }
    assert units[..|units|] == units;
  }

  function Singles(xs: seq<int>): (units: seq<set<int>>)
    ensures |units| == |xs| && forall i :: 0 <= i < |xs| ==> units[i] == {xs[i]}
  {
    seq(|xs|, i requires 0 <= i < |xs| => {xs[i]})
  }

  function Union(units: seq<set<int>>): set<int> {
    if units == [] then {} else Union(units[..|units|-1]) + units[|units|-1]
  }

  // ---------------------------------------------------------------- the whole plan

  /** The inputs of the greedy pass, as the source computes them. */
  datatype Inputs = Inputs(rows: seq<Row>, claims: set<int>, required: set<int>, bundlePages: set<int>,
                           candidates: set<int>, bundles: seq<set<int>>, ordered: seq<int>)

  function Units(x: Inputs): seq<set<int>> {
    x.bundles + Singles(x.ordered)
  }

  function BundleSets(bundles: seq<seq<int>>): (s: seq<set<int>>)
    ensures |s| == |bundles| && forall i :: 0 <= i < |s| ==> s[i] == ToSet(bundles[i])
  {
    seq(|bundles|, i requires 0 <= i < |bundles| => ToSet(bundles[i]))
  }

  function NonEmpty(units: seq<set<int>>): (r: seq<set<int>>)
    ensures Union(r) == Union(units)
    ensures forall i :: 0 <= i < |r| ==> r[i] in units && r[i] != {}
  {
    if units == [] then []
    else
      var n := |units| - 1;
      if units[n] == {} then NonEmpty(units[..n])
      else
        assert (NonEmpty(units[..n]) + [units[n]])[..|NonEmpty(units[..n])|] == NonEmpty(units[..n]);
        NonEmpty(units[..n]) + [units[n]]
  }

  /** Each bundle as a sorted list without duplicates. */
  function Canonical(bundles: seq<seq<int>>, n: nat): (c: seq<seq<int>>)
    ensures |c| == |bundles|
    ensures forall k :: 0 <= k < |c| ==> c[k] == Ascending(ToSet(bundles[k]), n) && InRange(n, c[k])
  {
    seq(|bundles|, i requires 0 <= i < |bundles| => Ascending(ToSet(bundles[i]), n))
  }

  predicate ValidPages(b: Base, required: seq<int>, bundles: seq<seq<int>>) {
    && InRange(|b.rows|, required)
    && forall k :: 0 <= k < |bundles| ==> InRange(|b.rows|, bundles[k])
  }

  lemma {:induction false} FlatInRange(n: nat, bundles: seq<seq<int>>)
    requires forall k :: 0 <= k < |bundles| ==> InRange(n, bundles[k])
    ensures InRange(n, Flatten(bundles))
  {
    if bundles != [] {
      FlatInRange(n, bundles[..|bundles|-1]);
    }
  }

  lemma {:induction false} UnionOfBundles(bundles: seq<seq<int>>)
    ensures Union(BundleSets(bundles)) == ToSet(Flatten(bundles))
  {
    if bundles != [] {
      var n := |bundles| - 1;
      UnionOfBundles(bundles[..n]);
      assert BundleSets(bundles)[..n] == BundleSets(bundles[..n]);
    }
  }

  function Prepare(b: Base, profile: Profile, required: seq<int>, bundles: seq<seq<int>>): Inputs
    requires WellFormed(b) && ValidPages(b, required, bundles)
  {
    var n := |b.rows|;
    var canonical := Canonical(bundles, n);
    FlatInRange(n, canonical);
    var pages := Flatten(canonical);
    var rows := MarkAll(b.rows, pages);
    var candidates := b.evidence + ToSet(required) + ToSet(pages);
    var loose := candidates - ToSet(pages) - Claims(b, profile);
    Inputs(rows, Claims(b, profile), ToSet(required), ToSet(pages), candidates,
           NonEmpty(BundleSets(canonical)), SortBy(rows, ToSet(required), Ascending(loose, n)))
  }

  /** What the greedy pass may rely on. */
  predicate Prepared(x: Inputs) {
    && Union(x.bundles) == x.bundlePages
    && ToSet(x.ordered) == x.candidates - x.bundlePages - x.claims
    && x.required <= x.candidates && x.bundlePages <= x.candidates
    && InRange(|x.rows|, x.ordered) && SortedBy(x.rows, x.required, x.ordered)
  }

  lemma PrepareIsPrepared(b: Base, profile: Profile, required: seq<int>, bundles: seq<seq<int>>)
    requires WellFormed(b) && ValidPages(b, required, bundles)
    ensures Prepared(Prepare(b, profile, required, bundles))
  {
    var x, n := Prepare(b, profile, required, bundles), |b.rows|;
    var canonical := Canonical(bundles, n);
    FlatInRange(n, canonical);
    UnionOfBundles(canonical);
    assert OnPages(n, ToSet(required)) && OnPages(n, ToSet(Flatten(canonical)));
    var loose := x.candidates - x.bundlePages - x.claims;
    SortSorted(x.rows, x.required, Ascending(loose, n));
  }

  /** What must not be lost. */
  function Must(x: Inputs): set<int> {
    x.claims + x.required + x.bundlePages
  }

  function Proposal(x: Inputs, profile: Profile): set<int> {
    Greedy(x.claims, Units(x), Cap(profile))
  }

  function Choose(x: Inputs, evidence: set<int>, profile: Profile): Choice {
    var proposed := Proposal(x, profile);
    var missing := (x.required + x.bundlePages) - proposed;
    var short := profile.S18? && |x.candidates| <= Cap(profile);
    var rejected := profile.S18? && missing != {};
    var restored := Greedy(Must(x), Units(x), RESTORED);
    var failing := rejected && |restored| > RESTORED;
    var kept := if !rejected then proposed else if failing then evidence else restored;
    Choice(proposed, missing, short, rejected, failing, if short then x.candidates else kept)
  }

  predicate Incomplete(bundles: seq<seq<int>>, selected: set<int>) {
    exists k :: 0 <= k < |bundles| && !(ToSet(bundles[k]) <= selected)
  }

  function Compact(b: Base, profile: Profile, required: seq<int>, bundles: seq<seq<int>>): (r: Result<Plan, Error>)
    requires WellFormed(b)
    ensures r.Failure? <==> !ValidPages(b, required, bundles)
  {
    if !ValidPages(b, required, bundles) then Failure(InvalidPage)
    else
      var x := Prepare(b, profile, required, bundles);
      var choice := Choose(x, b.evidence, profile);
      Success(Plan(Reselected(x.rows, b.evidenceCandidates + x.candidates, x.claims, choice.selected),
                   x.claims, choice, x.bundlePages - choice.selected,
                   Incomplete(bundles, choice.selected), b.failed || choice.failing))
  }

  method CompactPlan(b: Base, profile: Profile, required: seq<int>, bundles: seq<seq<int>>)
      returns (r: Result<Plan, Error>)
    requires WellFormed(b)
    ensures r == Compact(b, profile, required, bundles)
  {
    if !ValidPages(b, required, bundles) {
      return Failure(InvalidPage);
    }
    var x := Prepare(b, profile, required, bundles);
    var failing := false;
    var selected := Fill(x.claims, Units(x), Cap(profile));
    var missing := (x.required + x.bundlePages) - selected;
    var short := profile.S18? && |x.candidates| <= Cap(profile);
    var proposed := selected;
    var rejected := profile.S18? && missing != {};
    if rejected {
      selected := Fill(x.claims + x.required + x.bundlePages, Units(x), RESTORED);
      if |selected| > RESTORED {
        selected := b.evidence;
        failing := true;
      }
    }
    if short {
      selected := x.candidates;
    }
    var choice := Choice(proposed, missing, short, rejected, failing, selected);
    var rows := UpdateSelection(x.rows, b.evidenceCandidates + x.candidates, x.claims, selected);
    r := Success(Plan(rows, x.claims, choice, x.bundlePages - selected,
                      Incomplete(bundles, selected), b.failed || failing));
  }

  // ---------------------------------------------------------------- what the greedy pass does

  lemma {:induction false} GreedyConcat(selected: set<int>, a: seq<set<int>>, b: seq<set<int>>, cap: nat)
    ensures Greedy(selected, a + b, cap) == Greedy(Greedy(selected, a, cap), b, cap)
  {
    if b == [] {
      assert a + b == a;
    } else {
      var n := |b| - 1;
      assert (a + b)[..|a + b| - 1] == a + b[..n];
      GreedyConcat(selected, a, b[..n], cap);
    }
  }

  lemma {:induction false} UnionConcat(a: seq<set<int>>, b: seq<set<int>>)
    ensures Union(a + b) == Union(a) + Union(b)
  {
    if b == [] {
      assert a + b == a;
    } else {
      assert (a + b)[..|a + b| - 1] == a + b[..|b|-1];
      UnionConcat(a, b[..|b|-1]);
    }
  }

  lemma {:induction false} UnionOfSingles(xs: seq<int>)
    ensures Union(Singles(xs)) == ToSet(xs)
  {
    if xs != [] {
      assert Singles(xs)[..|xs|-1] == Singles(xs[..|xs|-1]);
      UnionOfSingles(xs[..|xs|-1]);
    }
  }

  lemma {:induction false} GreedyBounds(selected: set<int>, units: seq<set<int>>, cap: nat)
    ensures selected <= Greedy(selected, units, cap) <= selected + Union(units)
    ensures |Greedy(selected, units, cap)| <= cap || Greedy(selected, units, cap) == selected
  {
    if units != [] {
      GreedyBounds(selected, units[..|units|-1], cap);
    }
  }

  /** When everything fits, everything is taken. */
  lemma {:induction false} GreedyTakesAll(selected: set<int>, units: seq<set<int>>, cap: nat)
    requires |selected + Union(units)| <= cap
    ensures Greedy(selected, units, cap) == selected + Union(units)
  {
    if units != [] {
      var n := |units| - 1;
      Subset(selected + Union(units[..n]), selected + Union(units));
      GreedyTakesAll(selected, units[..n], cap);
      assert selected + Union(units) == selected + Union(units[..n]) + units[n];
    }
  }

  lemma Subset(a: set<int>, b: set<int>)
    requires a <= b
    ensures |a| <= |b| && (|a| == |b| ==> a == b)
  {
    assert b == a + (b - a);
    assert |b| == |a| + |b - a|;
  }

  /** How many of n single pages fit beside a selection of the given size. */
  function Room(size: nat, n: nat, cap: nat): (m: nat)
    ensures m <= n
  {
    if size >= cap then 0 else if cap - size < n then cap - size else n
  }

  lemma TakeOne(s: set<int>, p: int)
    requires p !in s
    ensures |s + {p}| == |s| + 1
  {
  }

  predicate Distinct(xs: seq<int>) {
    forall i, j :: 0 <= i < j < |xs| ==> xs[i] != xs[j]
  }

  lemma {:induction false} ToSetSize(s: set<int>, xs: seq<int>)
    requires Distinct(xs) && forall i :: 0 <= i < |xs| ==> xs[i] !in s
    ensures |s + ToSet(xs)| == |s| + |xs|
  {
    if xs == [] {
      assert s + ToSet(xs) == s;
    } else {
      var n := |xs| - 1;
      ToSetSize(s, xs[..n]);
      assert s + ToSet(xs) == (s + ToSet(xs[..n])) + {xs[n]};
      TakeOne(s + ToSet(xs[..n]), xs[n]);
    }
  }

  lemma GreedySnoc(selected: set<int>, units: seq<set<int>>, u: set<int>, cap: nat)
    ensures var before := Greedy(selected, units, cap);
            Greedy(selected, units + [u], cap) == if |before + u| <= cap then before + u else before
  {
    assert (units + [u])[..|units|] == units;
  }

  function WithOne(selected: set<int>, p: int, cap: nat): set<int> {
    if |selected + {p}| <= cap then selected + {p} else selected
  }

  lemma SinglesStep(selected: set<int>, xs: seq<int>, n: nat, cap: nat)
    requires n < |xs|
    ensures Greedy(selected, Singles(xs[..n+1]), cap) == WithOne(Greedy(selected, Singles(xs[..n]), cap), xs[n], cap)
  {
    assert Singles(xs[..n+1]) == Singles(xs[..n]) + [{xs[n]}];
    GreedySnoc(selected, Singles(xs[..n]), {xs[n]}, cap);
  }

  lemma ToSetSnoc(xs: seq<int>, n: nat)
    requires n < |xs|
    ensures ToSet(xs[..n+1]) == ToSet(xs[..n]) + {xs[n]}
  {
    assert xs[..n+1][..n] == xs[..n];
  }

  lemma NotYet(xs: seq<int>, n: nat, m: nat)
    requires m <= n < |xs| && Distinct(xs)
    ensures xs[n] !in ToSet(xs[..m])
  {
  }

  /** The selection with the pages there is room for. */
  function Filled(selected: set<int>, xs: seq<int>, n: nat, cap: nat): set<int>
    requires n <= |xs|
  {
    selected + ToSet(xs[..Room(|selected|, n, cap)])
  }

  predicate NoneIn(xs: seq<int>, selected: set<int>) {
    forall i :: 0 <= i < |xs| ==> xs[i] !in selected
  }

  lemma FilledSize(selected: set<int>, xs: seq<int>, n: nat, cap: nat)
    requires n < |xs| && Distinct(xs) && NoneIn(xs, selected)
    ensures |Filled(selected, xs, n, cap)| == |selected| + Room(|selected|, n, cap)
    ensures xs[n] !in Filled(selected, xs, n, cap)
  {
    ToSetSize(selected, xs[..Room(|selected|, n, cap)]);
    NotYet(xs, n, Room(|selected|, n, cap));
  }

  lemma FilledMore(selected: set<int>, xs: seq<int>, n: nat, cap: nat)
    requires n < |xs| && |selected| + n < cap
    ensures Filled(selected, xs, n + 1, cap) == Filled(selected, xs, n, cap) + {xs[n]}
  {
    ToSetSnoc(xs, n);
  }

  lemma RoomForOne(selected: set<int>, xs: seq<int>, n: nat, cap: nat)
    requires n < |xs| && Distinct(xs) && NoneIn(xs, selected)
    ensures WithOne(Filled(selected, xs, n, cap), xs[n], cap) == Filled(selected, xs, n + 1, cap)
  {
    FilledSize(selected, xs, n, cap);
    TakeOne(Filled(selected, xs, n, cap), xs[n]);
    if |selected| + n < cap {
      FilledMore(selected, xs, n, cap);
    } else {
      assert Room(|selected|, n, cap) == Room(|selected|, n + 1, cap);
    }
  }

  function OneByOne(selected: set<int>, xs: seq<int>, n: nat, cap: nat): set<int>
    requires n <= |xs|
  {
    if n == 0 then selected else WithOne(OneByOne(selected, xs, n - 1, cap), xs[n-1], cap)
  }

  lemma {:induction false} GreedyIsOneByOne(selected: set<int>, xs: seq<int>, n: nat, cap: nat)
    requires n <= |xs|
    ensures Greedy(selected, Singles(xs[..n]), cap) == OneByOne(selected, xs, n, cap)
    decreases n
  {
    if n > 0 {
      GreedyIsOneByOne(selected, xs, n - 1, cap);
      SinglesStep(selected, xs, n - 1, cap);
    }
  }

  /** Whatever advances as the single pages do is what they lead to. */
  lemma {:induction false} Chain(f: nat -> set<int>, selected: set<int>, xs: seq<int>, n: nat, cap: nat)
    requires n <= |xs| && f(0) == selected
    requires forall k: nat {:trigger WithOne(f(k), xs[k], cap)} :: k < n ==> WithOne(f(k), xs[k], cap) == f(k + 1)
    ensures OneByOne(selected, xs, n, cap) == f(n)
    decreases n
  {
    if n > 0 {
      Chain(f, selected, xs, n - 1, cap);
      assert WithOne(f(n - 1), xs[n-1], cap) == f(n);
    }
  }

  lemma OneByOneFills(selected: set<int>, xs: seq<int>, n: nat, cap: nat)
    requires n <= |xs| && Distinct(xs) && NoneIn(xs, selected)
    ensures OneByOne(selected, xs, n, cap) == Filled(selected, xs, n, cap)
  {
    var f: nat -> set<int> := (k: nat) => if k <= |xs| then Filled(selected, xs, k, cap) else {};
    forall k: nat | k < n ensures WithOne(f(k), xs[k], cap) == f(k + 1) {
      RoomForOne(selected, xs, k, cap);
    }
    FilledStart(selected, xs, cap);
    Chain(f, selected, xs, n, cap);
  }

  lemma FilledStart(selected: set<int>, xs: seq<int>, cap: nat)
    ensures Filled(selected, xs, 0, cap) == selected
  {
    assert xs[..0] == [];
  }

  /** Single pages are taken from the front of the order until the cap is reached. */
  lemma GreedySingles(selected: set<int>, xs: seq<int>, n: nat, cap: nat)
    requires n <= |xs| && Distinct(xs) && NoneIn(xs, selected)
    ensures Greedy(selected, Singles(xs[..n]), cap) == Filled(selected, xs, n, cap)
  {
    GreedyIsOneByOne(selected, xs, n, cap);
    OneByOneFills(selected, xs, n, cap);
  }

  lemma {:induction false} BundlesWhole(selected: set<int>, units: seq<set<int>>, cap: nat, k: nat)
    requires forall i, j :: 0 <= i < j < |units| ==> units[i] !! units[j]
    requires k < |units|
    ensures units[k] <= Greedy(selected, units, cap) || units[k] * Greedy(selected, units, cap) <= selected
  {
    var n := |units| - 1;
    var before := Greedy(selected, units[..n], cap);
    if k < n {
      BundlesWhole(selected, units[..n], cap, k);
      assert units[k] !! units[n];
    } else {
      DisjointUnion(units[..n], units[n]);
      GreedyBounds(selected, units[..n], cap);
    }
  }

  lemma {:induction false} DisjointUnion(units: seq<set<int>>, u: set<int>)
    requires forall i :: 0 <= i < |units| ==> units[i] !! u
    ensures Union(units) !! u
  {
    if units != [] {
      DisjointUnion(units[..|units|-1], u);
    }
  }

  /** Required pages come first in the priority order. */
  lemma SplitRequired(x: Inputs) returns (k: nat)
    requires Prepared(x)
    ensures k <= |x.ordered|
    ensures forall i :: 0 <= i < |x.ordered| ==> (x.ordered[i] in x.required <==> i < k)
  {
    k := 0;
    while k < |x.ordered| && x.ordered[k] in x.required
      invariant k <= |x.ordered|
      invariant forall i :: 0 <= i < k ==> x.ordered[i] in x.required
    {
      k := k + 1;
    }
    forall i | k < i < |x.ordered| ensures x.ordered[i] !in x.required {
      assert Before(x.rows, x.required, x.ordered[k], x.ordered[i]);
    }
  }

  /** If everything that must be kept fits the cap, the greedy pass keeps it. */
  lemma MustFits(x: Inputs, cap: nat)
    requires Prepared(x) && |Must(x)| <= cap
    ensures Must(x) <= Greedy(x.claims, Units(x), cap)
  {
    var k := SplitRequired(x);
    var first := Singles(x.ordered[..k]);
    var rest := Singles(x.ordered[k..]);
    assert Units(x) == (x.bundles + first) + rest;
    UnionConcat(x.bundles, first);
    UnionOfSingles(x.ordered[..k]);
    var wanted := x.claims + Union(x.bundles + first);
    forall p | p in x.required ensures p in wanted {
      if p !in x.bundlePages && p !in x.claims {
        assert p in ToSet(x.ordered);
        var i :| 0 <= i < |x.ordered| && x.ordered[i] == p;
        assert x.ordered[..k][i] == p;
      }
    }
    assert wanted <= Must(x);
    Subset(wanted, Must(x));
    GreedyTakesAll(x.claims, x.bundles + first, cap);
    GreedyConcat(x.claims, x.bundles + first, rest, cap);
    GreedyBounds(Greedy(x.claims, x.bundles + first, cap), rest, cap);
  }

  // ---------------------------------------------------------------- main results

  /** The pages a plan must keep, from its arguments. */
  function MustKeep(b: Base, profile: Profile, required: seq<int>, bundles: seq<seq<int>>): set<int> {
    Claims(b, profile) + ToSet(required) + ToSet(Flatten(bundles))
  }

  lemma {:induction false} FlatCanonical(bundles: seq<seq<int>>, n: nat)
    requires forall k :: 0 <= k < |bundles| ==> InRange(n, bundles[k])
    ensures ToSet(Flatten(Canonical(bundles, n))) == ToSet(Flatten(bundles))
  {
    if bundles != [] {
      var m := |bundles| - 1;
      FlatCanonical(bundles[..m], n);
      assert Canonical(bundles, n)[..m] == Canonical(bundles[..m], n);
      assert ToSet(Canonical(bundles, n)[m]) == ToSet(bundles[m]);
      ToSetConcat(Flatten(bundles[..m]), bundles[m]);
      ToSetConcat(Flatten(Canonical(bundles, n)[..m]), Canonical(bundles, n)[m]);
    }
  }

  lemma ToSetConcat(a: seq<int>, b: seq<int>)
    ensures ToSet(a + b) == ToSet(a) + ToSet(b)
  {
  }

  /** The prepared inputs of a plan, and what they mean in terms of its arguments. */
  lemma Explain(b: Base, profile: Profile, required: seq<int>, bundles: seq<seq<int>>) returns (x: Inputs)
    requires WellFormed(b) && ValidPages(b, required, bundles)
    ensures x == Prepare(b, profile, required, bundles) && Prepared(x)
    ensures Compact(b, profile, required, bundles).value.choice == Choose(x, b.evidence, profile)
    ensures Compact(b, profile, required, bundles).value.failed == (b.failed || Choose(x, b.evidence, profile).failing)
    ensures x.claims == Claims(b, profile) && x.required == ToSet(required)
    ensures x.bundlePages == ToSet(Flatten(bundles))
    ensures x.candidates == b.evidence + x.required + x.bundlePages
  {
    x := Prepare(b, profile, required, bundles);
    PrepareIsPrepared(b, profile, required, bundles);
    FlatCanonical(bundles, |b.rows|);
  }

  function Max(a: nat, b: nat): nat { if a < b then b else a }

  lemma RejectedBySize(x: Inputs, evidence: set<int>)
    requires Prepared(x)
    ensures Choose(x, evidence, S18).rejected <==> |Must(x)| > Max(18, |x.claims|)
  {
    var must, proposed := Must(x), Proposal(x, S18);
    GreedyBounds(x.claims, Units(x), 18);
    Subset(x.claims, must);
    assert must == x.claims + (x.required + x.bundlePages) && x.claims <= proposed;
    assert must <= proposed <==> (x.required + x.bundlePages) - proposed == {};
    if |must| <= 18 {
      MustFits(x, 18);
    } else if must <= proposed {
      Subset(must, proposed);
    }
  }

  /** The verdict of profile S18 is decided by one number, the count of pages that must be
      kept: above the cap (or the claims, if they alone exceed it) the proposal is rejected,
      and above thirty the plan is failed. */
  lemma VerdictBySize(b: Base, required: seq<int>, bundles: seq<seq<int>>)
    requires WellFormed(b) && ValidPages(b, required, bundles)
    ensures var plan := Compact(b, S18, required, bundles).value;
            var must := |MustKeep(b, S18, required, bundles)|;
            && (plan.choice.rejected <==> must > Max(18, |Claims(b, S18)|))
            && (plan.failed <==> b.failed || must > Max(30, |Claims(b, S18)|))
  {
    var x := Explain(b, S18, required, bundles);
    RejectedBySize(x, b.evidence);
    GreedyBounds(Must(x), Units(x), RESTORED);
    Subset(Must(x), Greedy(Must(x), Units(x), RESTORED));
    Subset(x.claims, Must(x));
  }

  /** The candidates of a plan, from its arguments. */
  function Candidates(b: Base, required: seq<int>, bundles: seq<seq<int>>): set<int> {
    b.evidence + ToSet(required) + ToSet(Flatten(bundles))
  }

  lemma ChoiceKeeps(x: Inputs, evidence: set<int>)
    requires Prepared(x) && !Choose(x, evidence, S18).failing
    ensures x.required + x.bundlePages <= Choose(x, evidence, S18).selected
    ensures x.claims <= Choose(x, evidence, S18).selected <==> |x.candidates| > 18 || x.claims <= x.candidates
  {
    GreedyBounds(x.claims, Units(x), 18);
    GreedyBounds(Must(x), Units(x), RESTORED);
  }

  /** Nothing required is silently lost: unless S18 reports failure, every required page and
      every bundle page is selected; and so is every claim if and only if the candidates are
      more than eighteen or contain every claim. */
  lemma NothingSilentlyLost(b: Base, required: seq<int>, bundles: seq<seq<int>>)
    requires WellFormed(b) && ValidPages(b, required, bundles)
    ensures var plan := Compact(b, S18, required, bundles).value;
            var selected := plan.choice.selected;
            plan.failed ||
            (&& ToSet(required) + ToSet(Flatten(bundles)) <= selected
             && (Claims(b, S18) <= selected <==>
                   |Candidates(b, required, bundles)| > 18 || Claims(b, S18) <= Candidates(b, required, bundles)))
  {
    var x := Explain(b, S18, required, bundles);
    if !Choose(x, b.evidence, S18).failing {
      ChoiceKeeps(x, b.evidence);
    }
  }

  /** A short scope whose claim is no evidence page loses the claim and does not fail. */
  lemma LostClaimExample()
    ensures var row := Row(OtherCategory, 0.0, [], false, false);
            var b := Base([row, row], [1], {2}, {}, false);
            var plan := Compact(b, S18, [], []).value;
            !plan.failed && 1 in Claims(b, S18) && 1 !in plan.choice.selected
  {
    var row := Row(OtherCategory, 0.0, [], false, false);
    var b := Base([row, row], [1], {2}, {}, false);
    assert Flatten([]) == [] && Claims(b, S18) == {1};
    assert Candidates(b, [], []) == {2} && MustKeep(b, S18, [], []) == {1};
    NothingSilentlyLost(b, [], []);
    VerdictBySize(b, [], []);
  }

  /** What S18 selects, by its own verdicts. */
  lemma SelectionByVerdict(b: Base, required: seq<int>, bundles: seq<seq<int>>)
    requires WellFormed(b) && ValidPages(b, required, bundles)
    ensures var c := Compact(b, S18, required, bundles).value.choice;
            if |Candidates(b, required, bundles)| <= 18 then c.selected == Candidates(b, required, bundles)
            else if !c.rejected then |c.selected| <= 18 <==> |Claims(b, S18)| <= 18
            else if !c.failing then |c.selected| <= RESTORED
            else c.selected == b.evidence
  {
    var x := Explain(b, S18, required, bundles);
    GreedyBounds(x.claims, Units(x), 18);
    Subset(x.claims, Proposal(x, S18));
  }

  /** Sizes under S18: up to eighteen candidates are selected as they are; beyond that, with at
      most eighteen pages to keep, or only claims to keep, the selection is within eighteen
      exactly when the claims are; with at most thirty to keep it is within thirty; and with
      more it is the base selection. */
  lemma SelectionSize(b: Base, required: seq<int>, bundles: seq<seq<int>>)
    requires WellFormed(b) && ValidPages(b, required, bundles)
    ensures var selected := Compact(b, S18, required, bundles).value.choice.selected;
            var (must, claims) := (|MustKeep(b, S18, required, bundles)|, |Claims(b, S18)|);
            if |Candidates(b, required, bundles)| <= 18 then selected == Candidates(b, required, bundles)
            else if must <= Max(18, claims) then |selected| <= 18 <==> claims <= 18
            else if must <= 30 then |selected| <= 30
            else selected == b.evidence
  {
    var calm := b.(failed := false);
    SelectionByVerdict(calm, required, bundles);
    VerdictBySize(calm, required, bundles);
  }

  /** A plan that is not rejected is above the cap if and only if the claims alone are, there
      are more than eighteen candidates, and nothing but claims must be kept. */
  lemma AboveCapIff(b: Base, required: seq<int>, bundles: seq<seq<int>>)
    requires WellFormed(b) && ValidPages(b, required, bundles)
    ensures var c := Compact(b, S18, required, bundles).value.choice;
            !c.rejected && |c.selected| > 18 <==>
            && |Claims(b, S18)| > 18 && |Candidates(b, required, bundles)| > 18
            && ToSet(required) + ToSet(Flatten(bundles)) <= Claims(b, S18)
  {
    SelectionByVerdict(b, required, bundles);
    VerdictBySize(b, required, bundles);
    OnlyClaimsIff(Claims(b, S18), ToSet(required), ToSet(Flatten(bundles)));
  }

  lemma OnlyClaimsIff(claims: set<int>, required: set<int>, pages: set<int>)
    ensures |claims| <= |claims + required + pages|
    ensures |claims + required + pages| == |claims| <==> required + pages <= claims
  {
    Subset(claims, claims + required + pages);
    if required + pages <= claims {
      assert claims + required + pages == claims;
    }
  }

  /** Nineteen claims that are all evidence are selected above the cap, and not rejected. */
  lemma NineteenClaimsExample()
    ensures var row := Row(OtherCategory, 0.0, [], false, false);
            var b := Base(seq(19, _ => row), Pages(19), ToSet(Pages(19)), {}, false);
            var plan := Compact(b, S18, [], []).value;
            !plan.failed && !plan.choice.rejected && |plan.choice.selected| > 18
  {
    var row := Row(OtherCategory, 0.0, [], false, false);
    var b := Base(seq(19, _ => row), Pages(19), ToSet(Pages(19)), {}, false);
    ToSetSize({}, Pages(19));
    assert Claims(b, S18) == {} + ToSet(Pages(19));
    assert Flatten([]) == [] && Candidates(b, [], []) == MustKeep(b, S18, [], []) == Claims(b, S18);
    AboveCapIff(b, [], []);
    VerdictBySize(b, [], []);
  }

  /** The pages 1 to n. */
  function Pages(n: nat): (xs: seq<int>)
    ensures |xs| == n && forall i :: 0 <= i < n ==> xs[i] == i + 1
  {
    seq(n, i => i + 1)
  }

  lemma AllFit(x: Inputs, evidence: set<int>)
    requires Prepared(x) && x.claims <= x.candidates && |x.candidates| <= 18
    ensures Proposal(x, S18) == x.candidates
  {
    UnionConcat(x.bundles, Singles(x.ordered));
    UnionOfSingles(x.ordered);
    assert x.claims + Union(Units(x)) == x.candidates;
    GreedyTakesAll(x.claims, Units(x), 18);
  }

  /** A short scope is never reduced: when the claims are evidence of the base plan, the
      greedy pass has already taken every candidate. */
  lemma ShortScope(b: Base, required: seq<int>, bundles: seq<seq<int>>)
    requires WellFormed(b) && ValidPages(b, required, bundles)
    requires Claims(b, S18) <= b.evidence
    ensures var c := Compact(b, S18, required, bundles).value.choice;
            var all := b.evidence + ToSet(required) + ToSet(Flatten(bundles));
            && (c.short <==> |all| <= 18)
            && (c.short ==> !c.rejected && c.proposed == c.selected == all)
  {
    var x := Explain(b, S18, required, bundles);
    if |x.candidates| <= 18 {
      AllFit(x, b.evidence);
    }
  }

  lemma NoneTaken(x: Inputs, cap: nat)
    requires Prepared(x)
    ensures NoneIn(x.ordered, Greedy(x.claims, x.bundles, cap))
  {
    GreedyBounds(x.claims, x.bundles, cap);
    forall i | 0 <= i < |x.ordered| ensures x.ordered[i] !in x.claims + x.bundlePages {
      assert x.ordered[i] in ToSet(x.ordered);
    }
  }

  /** The shape of the proposal: the pages outside claims and bundles are a prefix of the
      priority order that stops only at the cap. */
  lemma SinglesPrefix(x: Inputs, cap: nat) returns (m: nat)
    requires Prepared(x)
    ensures var proposed := Greedy(x.claims, Units(x), cap);
            && m <= |x.ordered|
            && proposed - x.claims - x.bundlePages == ToSet(x.ordered[..m])
            && (m < |x.ordered| ==> |proposed| >= cap)
  {
    var taken := Greedy(x.claims, x.bundles, cap);
    m := Room(|taken|, |x.ordered|, cap);
    ProposedIs(x, cap);
    GreedyBounds(x.claims, x.bundles, cap);
    Beside(taken, ToSet(x.ordered[..m]), x.claims, x.bundlePages);
  }

  lemma Beside(taken: set<int>, singles: set<int>, claims: set<int>, pages: set<int>)
    requires taken <= claims + pages && singles !! claims && singles !! pages
    ensures taken + singles - claims - pages == singles
  {
  }

  /** The proposal of a plan: its pages that are neither claims nor bundle pages are a prefix of
      the priority order of such candidates, and the prefix ends only at the cap. */
  lemma ProposalPrefix(b: Base, profile: Profile, required: seq<int>, bundles: seq<seq<int>>) returns (m: nat)
    requires WellFormed(b) && ValidPages(b, required, bundles)
    ensures var x := Prepare(b, profile, required, bundles);
            var proposed := Compact(b, profile, required, bundles).value.choice.proposed;
            && m <= |x.ordered| && InRange(|x.rows|, x.ordered) && SortedBy(x.rows, ToSet(required), x.ordered)
            && ToSet(x.ordered) == Candidates(b, required, bundles) - ToSet(Flatten(bundles)) - Claims(b, profile)
            && proposed - Claims(b, profile) - ToSet(Flatten(bundles)) == ToSet(x.ordered[..m])
            && (m < |x.ordered| ==> |proposed| >= Cap(profile))
  {
    var x := Explain(b, profile, required, bundles);
    m := SinglesPrefix(x, Cap(profile));
  }

  lemma CandidatesOnPages(b: Base, required: seq<int>, bundles: seq<seq<int>>)
    requires WellFormed(b) && ValidPages(b, required, bundles)
    ensures OnPages(|b.rows|, Claims(b, S18) + Candidates(b, required, bundles))
  {
    FlatInRange(|b.rows|, bundles);
  }

  /** A required page goes first, and the preferred one of two that are both required or both not. */
  predicate Ranks(rows: seq<Row>, required: set<int>, p: int, q: int) {
    && 1 <= p <= |rows| && 1 <= q <= |rows|
    && (q in required ==> p in required)
    && (p !in required || q in required ==> Preferred(rows, p, q))
  }

  /** The single pages of a plan have the category and density of the base plan. */
  predicate Unmarked(x: Inputs, rows: seq<Row>) {
    && |x.rows| == |rows|
    && forall p :: p in x.ordered && 1 <= p <= |rows| ==>
         x.rows[p-1].category == rows[p-1].category && x.rows[p-1].density == rows[p-1].density
  }

  lemma MarkedElsewhere(x: Inputs, rows: seq<Row>, pages: seq<int>)
    requires Prepared(x) && InRange(|rows|, pages) && x.rows == MarkAll(rows, pages) && ToSet(pages) == x.bundlePages
    ensures Unmarked(x, rows)
  {
    forall p | p in x.ordered && 1 <= p <= |rows|
      ensures x.rows[p-1].category == rows[p-1].category && x.rows[p-1].density == rows[p-1].density
    {
      assert p in ToSet(x.ordered);
      MarkedCategory(rows, pages, p);
    }
  }

  lemma PrepareUnmarked(b: Base, profile: Profile, required: seq<int>, bundles: seq<seq<int>>)
    requires WellFormed(b) && ValidPages(b, required, bundles)
    ensures Unmarked(Prepare(b, profile, required, bundles), b.rows)
  {
    var x := Prepare(b, profile, required, bundles);
    var canonical := Canonical(bundles, |b.rows|);
    FlatInRange(|b.rows|, canonical);
    PrepareIsPrepared(b, profile, required, bundles);
    MarkedElsewhere(x, b.rows, Flatten(canonical));
  }

  /** The order of the single pages of a plan, in terms of the rows of the base plan. */
  lemma InOrder(x: Inputs, rows: seq<Row>, i: nat, j: nat)
    requires Prepared(x) && Unmarked(x, rows) && i < j < |x.ordered|
    ensures Ranks(rows, x.required, x.ordered[i], x.ordered[j])
  {
    var p, q := x.ordered[i], x.ordered[j];
    assert p in x.ordered && q in x.ordered;
    assert Before(x.rows, x.required, p, q);
    SameOrder(x.rows, rows, x.required, p, q);
  }

  lemma SameOrder(marked: seq<Row>, rows: seq<Row>, required: set<int>, p: int, q: int)
    requires |marked| == |rows| && 1 <= p <= |rows| && 1 <= q <= |rows|
    requires marked[p-1].category == rows[p-1].category && marked[p-1].density == rows[p-1].density
    requires marked[q-1].category == rows[q-1].category && marked[q-1].density == rows[q-1].density
    requires Before(marked, required, p, q)
    ensures Ranks(rows, required, p, q)
  {
  }

  lemma Straddle(xs: seq<int>, m: nat, p: int, q: int) returns (i: nat, j: nat)
    requires m <= |xs| && p in ToSet(xs[..m]) && q in ToSet(xs) && q !in ToSet(xs[..m])
    ensures i < m <= j < |xs| && xs[i] == p && xs[j] == q
  {
    i :| 0 <= i < m && xs[..m][i] == p;
    j :| 0 <= j < |xs| && xs[j] == q;
    forall n | 0 <= n < m ensures xs[n] in ToSet(xs[..m]) {
      assert xs[..m][n] == xs[n];
    }
  }

  lemma SinglesRank(x: Inputs, rows: seq<Row>, cap: nat, p: int, q: int)
    requires Prepared(x) && Unmarked(x, rows)
    requires p in x.candidates - x.bundlePages - x.claims && q in x.candidates - x.bundlePages - x.claims
    requires p in Greedy(x.claims, Units(x), cap) && q !in Greedy(x.claims, Units(x), cap)
    ensures |Greedy(x.claims, Units(x), cap)| >= cap && Ranks(rows, x.required, p, q)
  {
    var m := SinglesPrefix(x, cap);
    assert p in ToSet(x.ordered[..m]) && q !in ToSet(x.ordered[..m]);
    var i, j := Straddle(x.ordered, m, p, q);
    InOrder(x, rows, i, j);
  }

  /** Single pages are proposed in priority order: a page left out comes, by the rows of the
      base plan, after every one that is proposed, and only the cap leaves one out. */
  lemma ProposalPriority(b: Base, profile: Profile, required: seq<int>, bundles: seq<seq<int>>, p: int, q: int)
    requires WellFormed(b) && ValidPages(b, required, bundles)
    requires var loose := Candidates(b, required, bundles) - ToSet(Flatten(bundles)) - Claims(b, profile);
             p in loose && q in loose
    requires var proposed := Compact(b, profile, required, bundles).value.choice.proposed;
             p in proposed && q !in proposed
    ensures |Compact(b, profile, required, bundles).value.choice.proposed| >= Cap(profile)
    ensures Ranks(b.rows, ToSet(required), p, q)
  {
    var x := Explain(b, profile, required, bundles);
    PrepareUnmarked(b, profile, required, bundles);
    SinglesRank(x, b.rows, Cap(profile), p, q);
  }

  // ---------------------------------------------------------------- the restored selection

  lemma {:induction false} GreedyOfMembers(selected: set<int>, units: seq<set<int>>, cap: nat)
    requires Union(units) <= selected
    ensures Greedy(selected, units, cap) == selected
  {
    if units != [] {
      GreedyOfMembers(selected, units[..|units|-1], cap);
      assert selected + units[|units|-1] == selected;
    }
  }

  lemma RestParts(x: Inputs, k: nat)
    requires Prepared(x) && k <= |x.ordered|
    requires forall i :: 0 <= i < |x.ordered| ==> (x.ordered[i] in x.required <==> i < k)
    ensures Distinct(x.ordered[k..]) && NoneIn(x.ordered[k..], Must(x))
    ensures Union(x.bundles + Singles(x.ordered[..k])) <= Must(x)
  {
    OrderedDistinct(x);
    UnionConcat(x.bundles, Singles(x.ordered[..k]));
    UnionOfSingles(x.ordered[..k]);
    forall i | k <= i < |x.ordered| ensures x.ordered[i] !in Must(x) {
      assert x.ordered[i] in ToSet(x.ordered);
    }
  }

  lemma UnitsSplit(x: Inputs, k: nat)
    requires k <= |x.ordered|
    ensures Units(x) == (x.bundles + Singles(x.ordered[..k])) + Singles(x.ordered[k..])
  {
  }

  lemma SinglesFill(selected: set<int>, xs: seq<int>, cap: nat)
    requires Distinct(xs) && NoneIn(xs, selected)
    ensures Greedy(selected, Singles(xs), cap) == Filled(selected, xs, |xs|, cap)
  {
    GreedySingles(selected, xs, |xs|, cap);
    assert xs[..|xs|] == xs;
  }

  /** Starting from all that must be kept, the greedy pass adds the other single pages in
      priority order while there is room. */
  lemma RestoredIs(x: Inputs, k: nat, cap: nat)
    requires Prepared(x) && k <= |x.ordered|
    requires forall i :: 0 <= i < |x.ordered| ==> (x.ordered[i] in x.required <==> i < k)
    ensures Greedy(Must(x), Units(x), cap) == Filled(Must(x), x.ordered[k..], |x.ordered[k..]|, cap)
  {
    var first, rest := x.bundles + Singles(x.ordered[..k]), x.ordered[k..];
    RestParts(x, k);
    UnitsSplit(x, k);
    GreedyConcat(Must(x), first, Singles(rest), cap);
    GreedyOfMembers(Must(x), first, cap);
    SinglesFill(Must(x), rest, cap);
  }

  lemma RestoredRank(x: Inputs, rows: seq<Row>, k: nat, cap: nat, p: int, q: int)
    requires Prepared(x) && Unmarked(x, rows) && k <= |x.ordered|
    requires forall i :: 0 <= i < |x.ordered| ==> (x.ordered[i] in x.required <==> i < k)
    requires var rest := x.ordered[k..];
             && p in Filled(Must(x), rest, |rest|, cap) && p !in Must(x)
             && q in ToSet(rest) && q !in Filled(Must(x), rest, |rest|, cap)
    ensures 1 <= p <= |rows| && 1 <= q <= |rows| && Preferred(rows, p, q)
  {
    var rest := x.ordered[k..];
    var i, j := Straddle(rest, Room(|Must(x)|, |rest|, cap), p, q);
    assert rest[i] == x.ordered[k+i] && rest[j] == x.ordered[k+j];
    InOrder(x, rows, k + i, k + j);
  }

  lemma FilledIs(must: set<int>, rest: seq<int>, cap: nat)
    requires Distinct(rest) && NoneIn(rest, must) && |must| <= cap
    ensures var filled := Filled(must, rest, |rest|, cap);
            && must <= filled <= must + ToSet(rest)
            && (|must + ToSet(rest)| <= cap ==> filled == must + ToSet(rest))
            && (|must + ToSet(rest)| > cap ==> |filled| == cap)
  {
    var m := Room(|must|, |rest|, cap);
    ToSetSize(must, rest);
    ToSetSize(must, rest[..m]);
    assert m == |rest| ==> rest[..m] == rest;
  }

  /** Within thirty pages everything is selected; otherwise exactly thirty pages are, all that
      must be kept and then the others in priority order. */
  ghost predicate Restores(rows: seq<Row>, must: set<int>, all: set<int>, selected: set<int>) {
    && OnPages(|rows|, all) && must <= selected <= all
    && (|all| <= 30 ==> selected == all)
    && (|all| > 30 ==> |selected| == 30)
    && forall p, q :: p in selected && p !in must && q in all && q !in selected ==> Preferred(rows, p, q)
  }

  /** The prepared inputs of a plan whose proposal is rejected and can be restored. */
  lemma RestoreInputs(b: Base, required: seq<int>, bundles: seq<seq<int>>) returns (x: Inputs)
    requires WellFormed(b) && ValidPages(b, required, bundles)
    requires Max(18, |Claims(b, S18)|) < |MustKeep(b, S18, required, bundles)|
    ensures Prepared(x) && Unmarked(x, b.rows) && OnPages(|b.rows|, x.claims + x.candidates)
    ensures Must(x) == MustKeep(b, S18, required, bundles)
    ensures x.candidates == Candidates(b, required, bundles) && x.claims == Claims(b, S18)
    ensures Compact(b, S18, required, bundles).value.choice == Choose(x, b.evidence, S18)
    ensures Choose(x, b.evidence, S18).rejected
  {
    x := Explain(b, S18, required, bundles);
    PrepareUnmarked(b, S18, required, bundles);
    CandidatesOnPages(b, required, bundles);
    VerdictBySize(b, required, bundles);
  }

  /** A rejected proposal that can be restored selects from the claims and candidates all that
      must be kept and fills up to thirty pages in priority order. */
  lemma RestoredSelection(b: Base, required: seq<int>, bundles: seq<seq<int>>)
    requires WellFormed(b) && ValidPages(b, required, bundles)
    requires |Candidates(b, required, bundles)| > 18
    requires Max(18, |Claims(b, S18)|) < |MustKeep(b, S18, required, bundles)| <= 30
    ensures var selected := Compact(b, S18, required, bundles).value.choice.selected;
            Restores(b.rows, MustKeep(b, S18, required, bundles), Claims(b, S18) + Candidates(b, required, bundles), selected)
  {
    var x := RestoreInputs(b, required, bundles);
    RestoredChoice(x, b.evidence, b.rows);
  }

  lemma RestoredChoice(x: Inputs, evidence: set<int>, rows: seq<Row>)
    requires Prepared(x) && Unmarked(x, rows) && OnPages(|rows|, x.claims + x.candidates)
    requires Choose(x, evidence, S18).rejected && |x.candidates| > 18 && |Must(x)| <= 30
    ensures Restores(rows, Must(x), x.claims + x.candidates, Choose(x, evidence, S18).selected)
  {
    var k := SplitRequired(x);
    var rest := x.ordered[k..];
    RestParts(x, k);
    RestoredIs(x, k, RESTORED);
    FilledIs(Must(x), rest, RESTORED);
    RestIs(x, k);
    var selected, all := Filled(Must(x), rest, |rest|, RESTORED), x.claims + x.candidates;
    forall p, q | p in selected && p !in Must(x) && q in all && q !in selected ensures Preferred(rows, p, q) {
      RestoredRank(x, rows, k, RESTORED, p, q);
    }
  }

  lemma RestIs(x: Inputs, k: nat)
    requires Prepared(x) && k <= |x.ordered|
    requires forall i :: 0 <= i < |x.ordered| ==> (x.ordered[i] in x.required <==> i < k)
    ensures Must(x) + ToSet(x.ordered[k..]) == x.claims + x.candidates
  {
    forall p | p in x.candidates - Must(x) ensures p in ToSet(x.ordered[k..]) {
      assert p in ToSet(x.ordered);
      var i :| 0 <= i < |x.ordered| && x.ordered[i] == p;
      assert x.ordered[k..][i-k] == p;
    }
    forall p | p in ToSet(x.ordered[k..]) ensures p in x.candidates {
      assert p in ToSet(x.ordered);
    }
  }

  // ---------------------------------------------------------------- bundles in turn

  lemma {:induction false} NonEmptyGreedy(selected: set<int>, units: seq<set<int>>, cap: nat)
    ensures Greedy(selected, NonEmpty(units), cap) == Greedy(selected, units, cap)
  {
    if units != [] {
      var n := |units| - 1;
      NonEmptyGreedy(selected, units[..n], cap);
      if units[n] == {} {
        assert Greedy(selected, units[..n], cap) + {} == Greedy(selected, units[..n], cap);
      } else {
        GreedySnoc(selected, NonEmpty(units[..n]), units[n], cap);
      }
    }
  }

  lemma {:induction false} TurnOf(selected: set<int>, units: seq<set<int>>, cap: nat, k: nat)
    requires k < |units| && !(units[k] <= Greedy(selected, units, cap))
    ensures |selected + Greedy(selected, units, cap) * Union(units[..k]) + units[k]| > cap
  {
    var final, before := Greedy(selected, units, cap), Greedy(selected, units[..k], cap);
    assert units[..k+1][..k] == units[..k];
    assert units == units[..k+1] + units[k+1..];
    GreedyConcat(selected, units[..k+1], units[k+1..], cap);
    GreedyBounds(Greedy(selected, units[..k+1], cap), units[k+1..], cap);
    GreedyBounds(selected, units[..k], cap);
    assert before <= final;
    Subset(before + units[k], selected + final * Union(units[..k]) + units[k]);
  }

  lemma TurnOfUnits(x: Inputs, units: seq<set<int>>, cap: nat, k: nat)
    requires Prepared(x) && x.bundles == NonEmpty(units) && k < |units|
    ensures var proposed := Greedy(x.claims, Units(x), cap);
            units[k] <= proposed || |x.claims + proposed * Union(units[..k]) + units[k]| > cap
  {
    var taken, proposed := Greedy(x.claims, units, cap), Greedy(x.claims, Units(x), cap);
    NonEmptyGreedy(x.claims, units, cap);
    ProposedIs(x, cap);
    if !(units[k] <= taken) {
      TurnOf(x.claims, units, cap, k);
      Subset(x.claims + taken * Union(units[..k]) + units[k], x.claims + proposed * Union(units[..k]) + units[k]);
    }
  }

  lemma EarlierPages(b: Base, bundles: seq<seq<int>>, k: nat)
    requires k < |bundles| && forall i :: 0 <= i < |bundles| ==> InRange(|b.rows|, bundles[i])
    ensures var units := BundleSets(Canonical(bundles, |b.rows|));
            && |units| == |bundles| && units[k] == ToSet(bundles[k])
            && Union(units[..k]) == ToSet(Flatten(bundles[..k]))
  {
    var canonical := Canonical(bundles, |b.rows|);
    UnionOfBundles(canonical[..k]);
    assert BundleSets(canonical)[..k] == BundleSets(canonical[..k]);
    assert canonical[..k] == Canonical(bundles[..k], |b.rows|);
    FlatCanonical(bundles[..k], |b.rows|);
  }

  /** Bundles are taken in turn: one that is not wholly proposed did not fit beside the claims
      and the proposed pages of the bundles before it. */
  lemma BundleTurn(b: Base, profile: Profile, required: seq<int>, bundles: seq<seq<int>>, k: nat)
    requires WellFormed(b) && ValidPages(b, required, bundles) && k < |bundles|
    ensures var proposed := Compact(b, profile, required, bundles).value.choice.proposed;
            ToSet(bundles[k]) <= proposed
            || |Claims(b, profile) + proposed * ToSet(Flatten(bundles[..k])) + ToSet(bundles[k])| > Cap(profile)
  {
    var x := Explain(b, profile, required, bundles);
    EarlierPages(b, bundles, k);
    TurnOfUnits(x, BundleSets(Canonical(bundles, |b.rows|)), Cap(profile), k);
  }

  /** The verdict fields of a plan: the pages its proposal misses, whether the scope is short,
      and whether the proposal is rejected or the plan failing. */
  lemma VerdictFields(b: Base, profile: Profile, required: seq<int>, bundles: seq<seq<int>>)
    requires WellFormed(b) && ValidPages(b, required, bundles)
    ensures var plan := Compact(b, profile, required, bundles).value;
            var c := plan.choice;
            && plan.claims == Claims(b, profile) && Claims(b, profile) <= c.proposed
            && c.missing == ToSet(required) + ToSet(Flatten(bundles)) - c.proposed
            && (c.short <==> profile.S18? && |Candidates(b, required, bundles)| <= 18)
            && (c.rejected <==> profile.S18? && c.missing != {})
            && (c.failing ==> c.rejected) && (plan.failed <==> b.failed || c.failing)
  {
    var x := Explain(b, profile, required, bundles);
    GreedyBounds(x.claims, Units(x), Cap(profile));
  }

  /** What is selected without a restore: every candidate of a short scope, else the proposal. */
  lemma SelectedIsProposed(b: Base, profile: Profile, required: seq<int>, bundles: seq<seq<int>>)
    requires WellFormed(b) && ValidPages(b, required, bundles)
    requires profile.S14? || |MustKeep(b, S18, required, bundles)| <= Max(18, |Claims(b, S18)|)
    ensures var c := Compact(b, profile, required, bundles).value.choice;
            c.selected == if profile.S18? && |Candidates(b, required, bundles)| <= 18
                          then Candidates(b, required, bundles) else c.proposed
  {
    var x := Explain(b, profile, required, bundles);
    if profile.S18? {
      RejectedBySize(x, b.evidence);
    }
  }

  /** Disjoint bundles are taken whole, or not at all but for their claim pages. */
  lemma WholeOrNot(x: Inputs, cap: nat, k: nat)
    requires Prepared(x) && k < |x.bundles|
    requires forall i, j :: 0 <= i < j < |x.bundles| ==> x.bundles[i] !! x.bundles[j]
    ensures var proposed := Greedy(x.claims, Units(x), cap);
            x.bundles[k] <= proposed || x.bundles[k] * proposed <= x.claims
  {
    var taken := Greedy(x.claims, x.bundles, cap);
    ProposedIs(x, cap);
    BundlesWhole(x.claims, x.bundles, cap, k);
    UnionContains(x.bundles, k);
    BundleBeside(x.bundles[k], taken, ToSet(x.ordered[..Room(|taken|, |x.ordered|, cap)]), x.claims);
  }

  lemma BundleBeside(bundle: set<int>, taken: set<int>, singles: set<int>, claims: set<int>)
    requires bundle !! singles && (bundle <= taken || bundle * taken <= claims)
    ensures bundle <= taken + singles || bundle * (taken + singles) <= claims
  {
  }

  /** The greedy pass is its pass over the bundles, and then as many single pages from the
      front of the order as there is room for. */
  lemma ProposedIs(x: Inputs, cap: nat)
    requires Prepared(x)
    ensures var taken, singles := Greedy(x.claims, x.bundles, cap), x.ordered;
            var m := Room(|taken|, |singles|, cap);
            && Greedy(x.claims, Units(x), cap) == taken + ToSet(singles[..m])
            && |taken + ToSet(singles[..m])| == |taken| + m
            && ToSet(singles[..m]) <= ToSet(singles)
  {
    var taken := Greedy(x.claims, x.bundles, cap);
    GreedyConcat(x.claims, x.bundles, Singles(x.ordered), cap);
    OrderedDistinct(x);
    NoneTaken(x, cap);
    GreedySingles(taken, x.ordered, |x.ordered|, cap);
    assert x.ordered[..|x.ordered|] == x.ordered;
    ToSetSize(taken, x.ordered[..Room(|taken|, |x.ordered|, cap)]);
  }

  lemma {:induction false} NonEmptyKeepsAll(units: seq<set<int>>)
    requires forall i :: 0 <= i < |units| ==> units[i] != {}
    ensures NonEmpty(units) == units
  {
    if units != [] {
      NonEmptyKeepsAll(units[..|units|-1]);
    }
  }

  lemma CanonicalSets(n: nat, bundles: seq<seq<int>>)
    requires forall k :: 0 <= k < |bundles| ==> InRange(n, bundles[k]) && bundles[k] != []
    ensures NonEmpty(BundleSets(Canonical(bundles, n))) == BundleSets(bundles)
  {
    var sets := BundleSets(Canonical(bundles, n));
    forall i | 0 <= i < |bundles| ensures sets[i] == ToSet(bundles[i]) && sets[i] != {} {
      assert InRange(n, bundles[i]) && bundles[i][0] in ToSet(bundles[i]);
    }
    NonEmptyKeepsAll(sets);
  }

  lemma RunsNonEmpty(bundles: seq<seq<int>>, i: nat)
    requires MaximalRuns(bundles) && i < |bundles|
    ensures bundles[i] != []
  {
    assert Consecutive(bundles[i]);
  }

  /** The discovered assurance bundles are disjoint, so the proposal of a plan that uses them
      takes each one whole, or none of it beyond the claims. */
  lemma DiscoveredBundlesWhole(b: Base, profile: Profile, required: seq<int>, bundles: seq<seq<int>>, k: nat)
    requires WellFormed(b) && ValidPages(b, required, bundles)
    requires MaximalRuns(bundles) && k < |bundles|
    ensures var c := Compact(b, profile, required, bundles).value.choice;
            ToSet(bundles[k]) <= c.proposed || ToSet(bundles[k]) * c.proposed <= Claims(b, profile)
  {
    var x := Explain(b, profile, required, bundles);
    forall i | 0 <= i < |bundles| ensures bundles[i] != [] {
      RunsNonEmpty(bundles, i);
    }
    CanonicalSets(|b.rows|, bundles);
    WholeBundle(x, bundles, Cap(profile), k);
  }

  lemma WholeBundle(x: Inputs, bundles: seq<seq<int>>, cap: nat, k: nat)
    requires Prepared(x) && MaximalRuns(bundles) && x.bundles == BundleSets(bundles) && k < |bundles|
    ensures var proposed := Greedy(x.claims, Units(x), cap);
            ToSet(bundles[k]) <= proposed || ToSet(bundles[k]) * proposed <= x.claims
  {
    forall i, j | 0 <= i < j < |x.bundles| ensures x.bundles[i] !! x.bundles[j] {
      RunsApart(bundles, i, j);
    }
    WholeOrNot(x, cap, k);
    assert x.bundles[k] == ToSet(bundles[k]);
  }

  lemma OrderedDistinct(x: Inputs)
    requires Prepared(x)
    ensures Distinct(x.ordered)
  {
    forall i, j | 0 <= i < j < |x.ordered| ensures x.ordered[i] != x.ordered[j] {
      assert Before(x.rows, x.required, x.ordered[i], x.ordered[j]);
    }
  }

  lemma {:induction false} UnionContains(units: seq<set<int>>, k: nat)
    requires k < |units|
    ensures units[k] <= Union(units)
  {
    if k < |units| - 1 {
      UnionContains(units[..|units|-1], k);
    }
  }

  lemma Outsider(a: set<int>, b: set<int>) returns (p: int)
    requires !(a <= b)
    ensures p in a && p !in b
  {
    if forall q :: q in a ==> q in b {
      assert false;
    }
    p :| p in a && p !in b;
  }

  lemma IncompleteIff(bundles: seq<seq<int>>, selected: set<int>)
    ensures Incomplete(bundles, selected) <==> ToSet(Flatten(bundles)) - selected != {}
  {
    if Incomplete(bundles, selected) {
      var k :| 0 <= k < |bundles| && !(ToSet(bundles[k]) <= selected);
      var p := Outsider(ToSet(bundles[k]), selected);
      FlatContains(bundles, k, p);
      assert p in ToSet(Flatten(bundles)) - selected;
    }
    if p :| p in ToSet(Flatten(bundles)) - selected {
      var k := FlatIndex(bundles, p);
      assert p in ToSet(bundles[k]);
    }
  }

  /** The incomplete flag is set if and only if a bundle page is reported missing. */
  lemma IncompleteIffPagesMissing(b: Base, profile: Profile, required: seq<int>, bundles: seq<seq<int>>)
    requires WellFormed(b) && ValidPages(b, required, bundles)
    ensures var plan := Compact(b, profile, required, bundles).value;
            && plan.missingBundlePages == ToSet(Flatten(bundles)) - plan.choice.selected
            && (plan.incomplete <==> plan.missingBundlePages != {})
  {
    var x := Explain(b, profile, required, bundles);
    IncompleteIff(bundles, Choose(x, b.evidence, profile).selected);
  }

  /** S14 never restores: it stays within fourteen pages and reports exactly the required and
      bundle pages it leaves out. */
  lemma SmallProfile(b: Base, required: seq<int>, bundles: seq<seq<int>>)
    requires WellFormed(b) && ValidPages(b, required, bundles)
    ensures var plan := Compact(b, S14, required, bundles).value;
            && plan.choice.missing == (ToSet(required) + ToSet(Flatten(bundles))) - plan.choice.selected
            && plan.failed == b.failed && |plan.choice.selected| <= 14
            && Claims(b, S14) <= plan.choice.selected
  {
    var x := Explain(b, S14, required, bundles);
    GreedyBounds(x.claims, Units(x), 14);
    SmallSet(if |b.claims| <= 8 then b.claims else b.claims[..8]);
  }

  lemma {:induction false} FlatContains(bundles: seq<seq<int>>, k: nat, p: int)
    requires k < |bundles| && p in bundles[k]
    ensures p in Flatten(bundles)
  {
    if k < |bundles| - 1 {
      FlatContains(bundles[..|bundles|-1], k, p);
    }
  }

  lemma {:induction false} FlatIndex(bundles: seq<seq<int>>, p: int) returns (k: nat)
    requires p in Flatten(bundles)
    ensures k < |bundles| && p in bundles[k]
  {
    var n := |bundles| - 1;
    if p in bundles[n] {
      k := n;
    } else {
      k := FlatIndex(bundles[..n], p);
    }
  }

  lemma {:induction false} SmallSet(xs: seq<int>)
    ensures |ToSet(xs)| <= |xs|
  {
    if xs != [] {
      var n := |xs| - 1;
      SmallSet(xs[..n]);
      assert ToSet(xs) == ToSet(xs[..n]) + {xs[n]};
    }
  }

  // ---------------------------------------------------------------- the rows of a selection

  const MARK: string := "excluded_by_declared_cap;unsearched_by_precision_parser"
  const OLD_MARK: string := "excluded_by_declared_cap"

  function Without(reasons: seq<string>, r: string): (kept: seq<string>)
    ensures forall q :: q in kept <==> q in reasons && q != r
  {
    if reasons == [] then []
    else Without(reasons[..|reasons|-1], r) + (if reasons[|reasons|-1] == r then [] else [reasons[|reasons|-1]])
  }

  function ReselectedRow(row: Row, p: int, candidates: set<int>, claims: set<int>, evidence: set<int>): Row {
    row.(claimSelected := p in claims, evidenceSelected := p in evidence,
         reasons := Without(row.reasons, OLD_MARK) + (if p in candidates && p !in evidence then [MARK] else []))
  }

  function Reselected(rows: seq<Row>, candidates: set<int>, claims: set<int>, evidence: set<int>): seq<Row> {
    seq(|rows|, i requires 0 <= i < |rows| => ReselectedRow(rows[i], i + 1, candidates, claims, evidence))
  }

  /** The loop of `_update_selection` over the rows. */
  method UpdateSelection(rows: seq<Row>, candidates: set<int>, claims: set<int>, evidence: set<int>)
      returns (updated: seq<Row>)
    ensures updated == Reselected(rows, candidates, claims, evidence)
  {
    updated := rows;
    for i := 0 to |rows|
      invariant |updated| == |rows|
      invariant forall k :: 0 <= k < i ==> updated[k] == ReselectedRow(rows[k], k + 1, candidates, claims, evidence)
      invariant forall k :: i <= k < |rows| ==> updated[k] == rows[k]
    {
      updated := updated[i := ReselectedRow(updated[i], i + 1, candidates, claims, evidence)];
    }
  }

  predicate Bundled(before: Row, p: int, pages: set<int>) {
    p in pages && !before.category.Unreadable? && !before.category.Conflict?
  }

  /** The reasons a row of a plan carries: those of the base plan but for the old marker, the
      bundle reason on readable bundle pages, and the marker on candidates not selected. */
  predicate Carries(before: Row, p: int, pages: set<int>, candidates: set<int>, selected: set<int>, reason: string) {
    || (reason in before.reasons && reason != OLD_MARK)
    || (reason == BUNDLED && Bundled(before, p, pages))
    || (reason == MARK && p in candidates && p !in selected)
  }

  ghost predicate CarriesExactly(before: Row, p: int, pages: set<int>, candidates: set<int>, selected: set<int>, row: Row) {
    forall reason :: reason in row.reasons <==> Carries(before, p, pages, candidates, selected, reason)
  }

  /** The flags, the category and the density of a row of a plan. */
  predicate RowOf(before: Row, p: int, pages: set<int>, claims: set<int>, selected: set<int>, row: Row) {
    && (row.claimSelected <==> p in claims) && (row.evidenceSelected <==> p in selected)
    && row.category == (if Bundled(before, p, pages) then Assurance else before.category) && row.density == before.density
  }

  lemma MarksDiffer()
    ensures OLD_MARK != MARK && OLD_MARK != BUNDLED
  {
    assert |OLD_MARK| != |MARK| && |OLD_MARK| != |BUNDLED|;
  }

  lemma ReasonIn(row: Row, p: int, candidates: set<int>, claims: set<int>, selected: set<int>, reason: string)
    ensures reason in ReselectedRow(row, p, candidates, claims, selected).reasons <==>
            (reason != OLD_MARK && reason in row.reasons) || (reason == MARK && p in candidates && p !in selected)
  {
  }

  lemma ReasonOf(rows: seq<Row>, pages: seq<int>, p: int, candidates: set<int>, claims: set<int>, selected: set<int>, reason: string)
    requires InRange(|rows|, pages) && 1 <= p <= |rows|
    ensures reason in ReselectedRow(MarkAll(rows, pages)[p-1], p, candidates, claims, selected).reasons <==>
            Carries(rows[p-1], p, ToSet(pages), candidates, selected, reason)
  {
    MarksDiffer();
    MarkedReasons(rows, pages, p, reason);
    ReasonIn(MarkAll(rows, pages)[p-1], p, candidates, claims, selected, reason);
  }

  lemma ReasonsOf(rows: seq<Row>, pages: seq<int>, p: int, candidates: set<int>, claims: set<int>, selected: set<int>, row: Row)
    requires InRange(|rows|, pages) && 1 <= p <= |rows|
    requires row == ReselectedRow(MarkAll(rows, pages)[p-1], p, candidates, claims, selected)
    ensures CarriesExactly(rows[p-1], p, ToSet(pages), candidates, selected, row)
  {
    forall reason ensures reason in row.reasons <==> Carries(rows[p-1], p, ToSet(pages), candidates, selected, reason) {
      ReasonOf(rows, pages, p, candidates, claims, selected, reason);
    }
  }

  lemma FlagsOf(rows: seq<Row>, pages: seq<int>, p: int, candidates: set<int>, claims: set<int>, selected: set<int>, row: Row)
    requires InRange(|rows|, pages) && 1 <= p <= |rows|
    requires row == ReselectedRow(MarkAll(rows, pages)[p-1], p, candidates, claims, selected)
    ensures RowOf(rows[p-1], p, ToSet(pages), claims, selected, row)
  {
    MarkedCategory(rows, pages, p);
  }

  lemma RowAt(rows: seq<Row>, candidates: set<int>, claims: set<int>, selected: set<int>, p: int)
    requires 1 <= p <= |rows|
    ensures var updated := Reselected(rows, candidates, claims, selected);
            |updated| == |rows| && updated[p-1] == ReselectedRow(rows[p-1], p, candidates, claims, selected)
  {
  }

  lemma PlanRows(b: Base, profile: Profile, required: seq<int>, bundles: seq<seq<int>>, x: Inputs)
    requires WellFormed(b) && ValidPages(b, required, bundles) && x == Prepare(b, profile, required, bundles)
    ensures var plan := Compact(b, profile, required, bundles).value;
            plan.rows == Reselected(x.rows, b.evidenceCandidates + x.candidates, x.claims, plan.choice.selected)
  {
  }

  lemma PrepareRows(b: Base, profile: Profile, required: seq<int>, bundles: seq<seq<int>>) returns (pages: seq<int>)
    requires WellFormed(b) && ValidPages(b, required, bundles)
    ensures InRange(|b.rows|, pages) && ToSet(pages) == ToSet(Flatten(bundles))
    ensures Prepare(b, profile, required, bundles).rows == MarkAll(b.rows, pages)
    ensures Prepare(b, profile, required, bundles).claims == Claims(b, profile)
    ensures Prepare(b, profile, required, bundles).candidates == Candidates(b, required, bundles)
  {
    pages := Flatten(Canonical(bundles, |b.rows|));
    FlatInRange(|b.rows|, Canonical(bundles, |b.rows|));
    FlatCanonical(bundles, |b.rows|);
  }

  /** Every row of a plan, in terms of its arguments and its selection. */
  lemma RowsOfPlan(b: Base, profile: Profile, required: seq<int>, bundles: seq<seq<int>>, p: int)
    requires WellFormed(b) && ValidPages(b, required, bundles) && 1 <= p <= |b.rows|
    ensures var plan := Compact(b, profile, required, bundles).value;
            && |plan.rows| == |b.rows|
            && RowOf(b.rows[p-1], p, ToSet(Flatten(bundles)), Claims(b, profile), plan.choice.selected, plan.rows[p-1])
            && CarriesExactly(b.rows[p-1], p, ToSet(Flatten(bundles)), b.evidenceCandidates + Candidates(b, required, bundles),
                              plan.choice.selected, plan.rows[p-1])
  {
    var pages := PrepareRows(b, profile, required, bundles);
    PlanRows(b, profile, required, bundles, Prepare(b, profile, required, bundles));
    var plan := Compact(b, profile, required, bundles).value;
    var candidates := b.evidenceCandidates + Candidates(b, required, bundles);
    RowAt(MarkAll(b.rows, pages), candidates, Claims(b, profile), plan.choice.selected, p);
    FlagsOf(b.rows, pages, p, candidates, Claims(b, profile), plan.choice.selected, plan.rows[p-1]);
    ReasonsOf(b.rows, pages, p, candidates, Claims(b, profile), plan.choice.selected, plan.rows[p-1]);
  }

  /** The marker says "candidate, but not selected" on every row if and only if no row that is
      now selected, or no candidate any more, carried it before: an old long marker is never
      removed, because only the short spelling is filtered out. */
  lemma MarkerTruthfulIff(rows: seq<Row>, candidates: set<int>, claims: set<int>, evidence: set<int>)
    ensures (forall i :: 0 <= i < |rows| ==>
               (MARK in Reselected(rows, candidates, claims, evidence)[i].reasons
                <==> i + 1 in candidates && i + 1 !in evidence))
            <==>
            (forall i :: 0 <= i < |rows| && MARK in rows[i].reasons ==> i + 1 in candidates && i + 1 !in evidence)
  {
    var next := Reselected(rows, candidates, claims, evidence);
    assert |OLD_MARK| != |MARK|;
    forall i | 0 <= i < |rows|
      ensures MARK in next[i].reasons <==> MARK in rows[i].reasons || (i + 1 in candidates && i + 1 !in evidence)
    {
      assert next[i] == ReselectedRow(rows[i], i + 1, candidates, claims, evidence);
    }
  }

  /** A page excluded by one plan and selected by the next keeps its exclusion marker. */
  lemma StaleMarkerExample()
    ensures var row := Row(OtherCategory, 0.0, [], false, false);
            var first := Reselected([row], {1}, {}, {});
            var second := Reselected(first, {1}, {}, {1});
            second[0].evidenceSelected && MARK in second[0].reasons
  {
    var row := Row(OtherCategory, 0.0, [], false, false);
    var first := Reselected([row], {1}, {}, {});
    assert first[0] == ReselectedRow(row, 1, {1}, {}, {});
    assert MARK in first[0].reasons && |OLD_MARK| != |MARK|;
    assert Reselected(first, {1}, {}, {1})[0] == ReselectedRow(first[0], 1, {1}, {}, {1});
  }
}
