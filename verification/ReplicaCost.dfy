/**
 The cost plan of one claim: a classification step and one or three tag steps, each with one
 retry, under a limit checked before every step against the worst case of all others.
 Money is exact here.
 */
module ReplicaCost {

  const MAX_USD: real := 0.01
  const MAX_ATTEMPTS: nat := 2

  /** What one provider call comes to: an error that is final, an unusable response without
      usage, or a response with usage that is then accepted or not. */
  datatype Attempt = ProviderError | Unusable | Reply(cost: real, accepted: bool)

  datatype Outcome = Refused | Broken | Invalid | OverCap | Accepted

  /** A step's outcome, its calls, and what they cost as far as usage was reported. */
  datatype StepResult = StepResult(outcome: Outcome, calls: nat, actual: real)

  type Script = s: seq<Attempt> | |s| == MAX_ATTEMPTS witness [Unusable, Unusable]

  predicate WithinEstimate(script: Script, estimate: real) {
    forall k :: 0 <= k < |script| && script[k].Reply? ==> 0.0 <= script[k].cost <= estimate
  }

  function Next(a: Attempt, actual: real): real {
    if a.Reply? then actual + a.cost else actual
  }

  function From(script: Script, k: nat, actual: real): StepResult
    requires k <= MAX_ATTEMPTS
    decreases MAX_ATTEMPTS - k
  {
    if k == MAX_ATTEMPTS then StepResult(Invalid, k, actual)
    else
      var after := Next(script[k], actual);
      if script[k].ProviderError? then StepResult(Broken, k + 1, actual)
      else if script[k].Reply? && after > MAX_USD then StepResult(OverCap, k + 1, after)
      else if script[k].Reply? && script[k].accepted then StepResult(Accepted, k + 1, after)
      else From(script, k + 1, after)
  }

  function StepOf(script: Script, estimate: real, spent: real): StepResult {
    if spent + 2.0 * estimate > MAX_USD then StepResult(Refused, 0, 0.0) else From(script, 0, 0.0)
  }

  /** The retry loop of one step. */
  method Step(script: Script, estimate: real, spent: real) returns (r: StepResult)
    ensures r == StepOf(script, estimate, spent)
  {
    if spent + 2.0 * estimate > MAX_USD {
      return StepResult(Refused, 0, 0.0);
    }
    var actual := 0.0;
    for k := 0 to MAX_ATTEMPTS
      invariant From(script, k, actual) == From(script, 0, 0.0)
    {
      var a := script[k];
      if a.ProviderError? {
        return StepResult(Broken, k + 1, actual);
      }
      if a.Reply? {
        actual := actual + a.cost;
        if actual > MAX_USD {
          return StepResult(OverCap, k + 1, actual);
        }
        if a.accepted {
          return StepResult(Accepted, k + 1, actual);
        }
      }
    }
    r := StepResult(Invalid, MAX_ATTEMPTS, actual);
  }

  function Paid(a: Attempt): real {
    if a.Reply? then a.cost else 0.0
  }

  /** The first attempt leaves room for a second. */
  predicate Retried(a: Attempt) {
    a.Unusable? || (a.Reply? && !a.accepted && a.cost <= 0.01)
  }

  /** How a step ends, attempt by attempt: it is refused exactly when two calls at the estimate
      do not fit beside what is spent. Otherwise the second attempt is made exactly when the
      first was unusable, or rejected within the limit; the last attempt made decides, and a
      reported cost above a cent goes before acceptance. */
  lemma StepIff(script: Script, estimate: real, spent: real)
    ensures var r, a, b := StepOf(script, estimate, spent), script[0], script[1];
            var (last, total) := if Retried(a) then (b, Paid(a) + Paid(b)) else (a, Paid(a));
            if spent + 2.0 * estimate > 0.01 then r == StepResult(Refused, 0, 0.0)
            else
              && r.calls == (if Retried(a) then 2 else 1) && r.actual == total
              && (r.outcome == Broken <==> last.ProviderError?)
              && (r.outcome == OverCap <==> last.Reply? && total > 0.01)
              && (r.outcome == Accepted <==> last.Reply? && total <= 0.01 && last.accepted)
              && r.outcome != Refused
  {
    assert From(script, 2, Next(script[1], Next(script[0], 0.0))).outcome == Invalid;
    assert From(script, 1, Next(script[0], 0.0)).calls == 2;
  }

  lemma {:induction false} FromBound(script: Script, k: nat, actual: real, estimate: real)
    requires k <= MAX_ATTEMPTS && WithinEstimate(script, estimate) && estimate >= 0.0
    ensures var r := From(script, k, actual);
            && r.calls <= MAX_ATTEMPTS && r.outcome != Refused
            && actual <= r.actual <= actual + (MAX_ATTEMPTS - k) as real * estimate
            && (r.outcome == OverCap ==> r.actual > MAX_USD)
    decreases MAX_ATTEMPTS - k
  {
    if k < MAX_ATTEMPTS {
      FromBound(script, k + 1, Next(script[k], actual), estimate);
    }
  }

  /** A step that is let through while its calls stay within their estimate is never stopped
      for cost, and costs at most two estimates. */
  lemma StepWithinEstimate(script: Script, estimate: real, spent: real)
    requires WithinEstimate(script, estimate) && estimate >= 0.0 && spent >= 0.0
    ensures var r := StepOf(script, estimate, spent);
            && (r.outcome == Refused <==> spent + 2.0 * estimate > MAX_USD)
            && r.outcome != OverCap && r.calls <= MAX_ATTEMPTS && 0.0 <= r.actual <= 2.0 * estimate
  {
    if spent + 2.0 * estimate <= MAX_USD {
      FromBound(script, 0, 0.0, estimate);
    }
  }

  // ---------------------------------------------------------------- the whole claim

  /** Three tag replicas when the classification was quick and they fit, else one. */
  function Replicas(quick: bool, classify: real, tag: real): nat {
    if quick && 2.0 * (classify + 3.0 * tag) <= MAX_USD then 3 else 1
  }

  function Planned(classify: real, tag: real, replicas: nat): real {
    2.0 * (classify + replicas as real * tag)
  }

  /** Money counted as spent when one of the tag steps is let through. */
  function SpentBeforeTag(classify: real, tag: real, replicas: nat): real {
    2.0 * (classify + (replicas - 1) as real * tag)
  }

  function Calls(steps: seq<StepResult>): nat {
    if steps == [] then 0 else Calls(steps[..|steps|-1]) + steps[|steps|-1].calls
  }

  function Actual(steps: seq<StepResult>): real {
    if steps == [] then 0.0 else Actual(steps[..|steps|-1]) + steps[|steps|-1].actual
  }

  /** The first step that did not deliver decides the error. */
  function Verdict(steps: seq<StepResult>): Outcome {
    if steps == [] then Accepted
    else if steps[0].outcome != Accepted then steps[0].outcome
    else Verdict(steps[1..])
  }

  function TagSteps(scripts: seq<Script>, n: nat, tag: real, spent: real): seq<StepResult>
    requires n <= |scripts|
  {
    if n == 0 then [] else TagSteps(scripts, n - 1, tag, spent) + [StepOf(scripts[n-1], tag, spent)]
  }

  /** The tag steps of all replicas. */
  method RunTags(tags: seq<Script>, replicas: nat, tag: real, spent: real)
    returns (steps: seq<StepResult>, calls: nat, actual: real)
    requires replicas <= |tags|
    ensures steps == TagSteps(tags, replicas, tag, spent) && calls == Calls(steps) && actual == Actual(steps)
  {
    steps, calls, actual := [], 0, 0.0;
    for k := 0 to replicas
      invariant steps == TagSteps(tags, k, tag, spent) && calls == Calls(steps) && actual == Actual(steps)
    {
      var t := Step(tags[k], tag, spent);
      SumsSnoc(steps, t);
      steps := steps + [t];
      calls, actual := calls + t.calls, actual + t.actual;
    }
  }

  lemma SumsSnoc(steps: seq<StepResult>, last: StepResult)
    ensures Calls(steps + [last]) == Calls(steps) + last.calls
    ensures Actual(steps + [last]) == Actual(steps) + last.actual
  {
    assert (steps + [last])[..|steps|] == steps;
  }

  /** The steps a claim goes through, and how it ends. */
  function StepsOf(first: Script, tags: seq<Script>, classify: real, tag: real, quick: bool, valid: bool): seq<StepResult>
    requires |tags| == 3
  {
    var s, n := StepOf(first, classify, 0.0), Replicas(quick, classify, tag);
    if s.outcome != Accepted || !valid || Planned(classify, tag, n) > MAX_USD then [s]
    else [s] + TagSteps(tags, n, tag, SpentBeforeTag(classify, tag, n))
  }

  function Final(steps: seq<StepResult>): Outcome {
    if Verdict(steps) == Accepted && Actual(steps) > MAX_USD then OverCap else Verdict(steps)
  }

  function OutcomeOf(first: Script, tags: seq<Script>, classify: real, tag: real, quick: bool, valid: bool): Outcome
    requires |tags| == 3
  {
    var s := StepOf(first, classify, 0.0);
    if s.outcome != Accepted then s.outcome
    else if !valid then Invalid
    else if Planned(classify, tag, Replicas(quick, classify, tag)) > MAX_USD then Refused
    else Final(StepsOf(first, tags, classify, tag, quick, valid))
  }

  /** One claim, given what every call would come to; `valid` is the check of the
      classification. The tag steps share nothing, so their interleaving does not matter. */
  method RunClaim(first: Script, tags: seq<Script>, classify: real, tag: real, quick: bool, valid: bool)
    returns (outcome: Outcome, calls: nat, actual: real)
    requires |tags| == 3
    ensures outcome == OutcomeOf(first, tags, classify, tag, quick, valid)
    ensures calls == Calls(StepsOf(first, tags, classify, tag, quick, valid))
    ensures actual == Actual(StepsOf(first, tags, classify, tag, quick, valid))
  {
    var s := Step(first, classify, 0.0);
    OneStep(s);
    outcome, calls, actual := s.outcome, s.calls, s.actual;
    if s.outcome != Accepted {
      return;
    }
    if !valid {
      outcome := Invalid;
      return;
    }
    var replicas := Replicas(quick, classify, tag);
    if Planned(classify, tag, replicas) > MAX_USD {
      outcome := Refused;
      return;
    }
    var rest, more, cost := RunTags(tags, replicas, tag, SpentBeforeTag(classify, tag, replicas));
    SumsSplit(s, rest);
    calls, actual := calls + more, actual + cost;
    outcome := Verdict([s] + rest);
    if outcome == Accepted && actual > MAX_USD {
      outcome := OverCap;
    }
  }

  lemma OneStep(s: StepResult)
    ensures Calls([s]) == s.calls && Actual([s]) == s.actual && Verdict([s]) == s.outcome
  {
    assert [s][..0] == [] && [s][1..] == [];
  }

  /** Three replicas exactly for a quick classification whose plan of eight calls costs at most
      a cent; otherwise one, whose plan is four calls. */
  lemma ReplicasIff(quick: bool, classify: real, tag: real)
    ensures var n := Replicas(quick, classify, tag);
            && n in {1, 3} && (n == 3 <==> quick && 2.0 * classify + 6.0 * tag <= 0.01)
            && Planned(classify, tag, n) == (if n == 3 then 2.0 * classify + 6.0 * tag else 2.0 * classify + 2.0 * tag)
  {
  }

  /** The steps of a claim: the classification with nothing spent, and then, if it was accepted
      and is valid and the plan fits, each tag step with all others counted as spent. */
  lemma StepsAre(first: Script, tags: seq<Script>, classify: real, tag: real, quick: bool, valid: bool)
    requires |tags| == 3
    ensures var steps, n := StepsOf(first, tags, classify, tag, quick, valid), Replicas(quick, classify, tag);
            var plans := StepOf(first, classify, 0.0).outcome == Accepted && valid && Planned(classify, tag, n) <= 0.01;
            && |steps| == (if plans then 1 + n else 1) && steps[0] == StepOf(first, classify, 0.0)
            && forall k :: 1 <= k < |steps| ==> steps[k] == StepOf(tags[k-1], tag, Planned(classify, tag, n) - 2.0 * tag)
  {
    var n := Replicas(quick, classify, tag);
    var spent := SpentBeforeTag(classify, tag, n);
    Scale(n, tag);
    assert spent == Planned(classify, tag, n) - 2.0 * tag;
    forall k | 0 <= k < n
      ensures |TagSteps(tags, n, tag, spent)| == n && TagSteps(tags, n, tag, spent)[k] == StepOf(tags[k], tag, spent)
    {
      TagStepAt(tags, n, tag, spent, k);
    }
    TagStepAt(tags, n, tag, spent, 0);
  }

  lemma {:induction false} VerdictIff(steps: seq<StepResult>)
    ensures Verdict(steps) == Accepted <==> forall k :: 0 <= k < |steps| ==> steps[k].outcome == Accepted
    ensures forall k ::
              0 <= k < |steps| && steps[k].outcome != Accepted && (forall j :: 0 <= j < k ==> steps[j].outcome == Accepted) ==>
              Verdict(steps) == steps[k].outcome
  {
    if steps != [] {
      var rest := steps[1..];
      VerdictIff(rest);
      assert forall k :: 0 < k < |steps| ==> steps[k] == rest[k-1];
      forall k | 0 <= k < |steps| && steps[k].outcome != Accepted && (forall j :: 0 <= j < k ==> steps[j].outcome == Accepted)
        ensures Verdict(steps) == steps[k].outcome
      {
        if k > 0 {
          assert forall j :: 0 <= j < k - 1 ==> rest[j] == steps[j+1];
          assert rest[k-1] == steps[k];
        }
      }
    }
  }

  /** A claim succeeds if and only if its classification is accepted and valid, the plan fits a
      cent, every tag step is accepted and the reported costs fit a cent. It is refused exactly
      when the classification alone would not fit, or the plan of an accepted one does not. */
  lemma ClaimIff(first: Script, tags: seq<Script>, classify: real, tag: real, quick: bool, valid: bool)
    requires |tags| == 3
    ensures var steps := StepsOf(first, tags, classify, tag, quick, valid);
            var outcome := OutcomeOf(first, tags, classify, tag, quick, valid);
            var (begun, plan) := (steps[0].outcome, Planned(classify, tag, Replicas(quick, classify, tag)));
            && (outcome == Accepted <==>
                  && valid && plan <= 0.01 && Actual(steps) <= 0.01
                  && forall k :: 0 <= k < |steps| ==> steps[k].outcome == Accepted)
            && (outcome == Refused <==> 2.0 * classify > 0.01 || (begun == Accepted && valid && plan > 0.01))
            && (begun == Accepted && !valid ==> outcome == Invalid)
            && (begun != Accepted ==> outcome == begun)
  {
    StepsAre(first, tags, classify, tag, quick, valid);
    var steps := StepsOf(first, tags, classify, tag, quick, valid);
    VerdictIff(steps);
    StepIff(first, classify, 0.0);
    if steps[0].outcome == Accepted {
      NoneRefused(first, tags, classify, tag, quick, valid);
    }
  }

  lemma NoneRefused(first: Script, tags: seq<Script>, classify: real, tag: real, quick: bool, valid: bool)
    requires |tags| == 3 && StepOf(first, classify, 0.0).outcome == Accepted
    ensures Verdict(StepsOf(first, tags, classify, tag, quick, valid)) != Refused
  {
    StepsAre(first, tags, classify, tag, quick, valid);
    var steps, n := StepsOf(first, tags, classify, tag, quick, valid), Replicas(quick, classify, tag);
    forall k | 0 <= k < |steps| ensures steps[k].outcome != Refused {
      if k > 0 {
        StepIff(tags[k-1], tag, Planned(classify, tag, n) - 2.0 * tag);
      }
    }
    VerdictIsSome(steps, Refused);
  }

  /** Once the number of replicas is settled, the check before a tag step cannot fail. */
  lemma TagCheckNeverFails(quick: bool, classify: real, tag: real)
    ensures var n := Replicas(quick, classify, tag);
            SpentBeforeTag(classify, tag, n) + 2.0 * tag > MAX_USD <==> Planned(classify, tag, n) > MAX_USD
  {
  }

  lemma Scale(n: nat, x: real)
    requires n > 0
    ensures n as real * x == (n - 1) as real * x + x
  {
  }

  /** Sums of steps that each keep to two calls and one bound. */
  lemma {:induction false} SumsBound(steps: seq<StepResult>, estimate: real)
    requires forall k :: 0 <= k < |steps| ==> steps[k].calls <= 2 && 0.0 <= steps[k].actual <= 2.0 * estimate
    ensures Calls(steps) <= 2 * |steps| && 0.0 <= Actual(steps) <= 2.0 * (|steps| as real * estimate)
  {
    if steps != [] {
      SumsBound(steps[..|steps|-1], estimate);
      Scale(|steps|, estimate);
    }
  }

  lemma {:induction false} TagStepAt(scripts: seq<Script>, n: nat, tag: real, spent: real, k: nat)
    requires k < n <= |scripts|
    ensures |TagSteps(scripts, n, tag, spent)| == n
    ensures TagSteps(scripts, n, tag, spent)[k] == StepOf(scripts[k], tag, spent)
  {
    if n > 1 {
      TagStepAt(scripts, n - 1, tag, spent, if k < n - 1 then k else 0);
    }
  }

  /** Not stopped for cost, and within two calls and two estimates. */
  predicate Fine(step: StepResult, estimate: real) {
    && step.outcome != Refused && step.outcome != OverCap
    && step.calls <= 2 && 0.0 <= step.actual <= 2.0 * estimate
  }

  lemma TagStepFine(scripts: seq<Script>, n: nat, tag: real, spent: real, k: nat)
    requires k < n <= |scripts| && tag >= 0.0 && spent >= 0.0 && spent + 2.0 * tag <= MAX_USD
    requires WithinEstimate(scripts[k], tag)
    ensures |TagSteps(scripts, n, tag, spent)| == n && Fine(TagSteps(scripts, n, tag, spent)[k], tag)
  {
    TagStepAt(scripts, n, tag, spent, k);
    StepWithinEstimate(scripts[k], tag, spent);
  }

  predicate AllFine(steps: seq<StepResult>, estimate: real) {
    forall k :: 0 <= k < |steps| ==> Fine(steps[k], estimate)
  }

  lemma TagStepsFine(scripts: seq<Script>, n: nat, tag: real, spent: real)
    requires 0 < n <= |scripts| && tag >= 0.0 && spent >= 0.0 && spent + 2.0 * tag <= MAX_USD
    requires forall k :: 0 <= k < n ==> WithinEstimate(scripts[k], tag)
    ensures |TagSteps(scripts, n, tag, spent)| == n && AllFine(TagSteps(scripts, n, tag, spent), tag)
  {
    var steps := TagSteps(scripts, n, tag, spent);
    TagStepFine(scripts, n, tag, spent, 0);
    forall k | 0 <= k < n ensures Fine(steps[k], tag) {
      TagStepFine(scripts, n, tag, spent, k);
    }
  }

  lemma {:induction false} SumsSplit(first: StepResult, steps: seq<StepResult>)
    ensures Calls([first] + steps) == first.calls + Calls(steps)
    ensures Actual([first] + steps) == first.actual + Actual(steps)
  {
    if steps == [] {
      assert [first] + steps == [first] && [first][..0] == [];
    } else {
      var n := |steps| - 1;
      SumsSplit(first, steps[..n]);
      assert ([first] + steps)[..n+1] == [first] + steps[..n];
    }
  }

  lemma {:induction false} VerdictIsSome(steps: seq<StepResult>, bad: Outcome)
    requires bad != Accepted && forall k :: 0 <= k < |steps| ==> steps[k].outcome != bad
    ensures Verdict(steps) != bad
  {
    if steps != [] {
      VerdictIsSome(steps[1..], bad);
    }
  }

  lemma SpentFits(classify: real, tag: real, n: nat)
    requires n > 0 && classify >= 0.0 && tag >= 0.0 && Planned(classify, tag, n) <= MAX_USD
    ensures 0.0 <= SpentBeforeTag(classify, tag, n) && SpentBeforeTag(classify, tag, n) + 2.0 * tag <= MAX_USD
    ensures 2.0 * classify <= MAX_USD
  {
    Scale(n, tag);
    assert (n - 1) as real * tag >= 0.0;
  }

  lemma PlanSums(s: StepResult, rest: seq<StepResult>, classify: real, tag: real)
    requires Fine(s, classify) && AllFine(rest, tag)
    ensures Calls([s] + rest) <= 2 + 2 * |rest|
    ensures Actual([s] + rest) <= 2.0 * (classify + |rest| as real * tag)
  {
    SumsBound(rest, tag);
    SumsSplit(s, rest);
  }

  lemma PlanVerdict(s: StepResult, rest: seq<StepResult>, classify: real, tag: real)
    requires Fine(s, classify) && AllFine(rest, tag)
    ensures Verdict([s] + rest) != Refused && Verdict([s] + rest) != OverCap
  {
    VerdictIsSome([s] + rest, Refused);
    VerdictIsSome([s] + rest, OverCap);
  }

  /** If every call stays within its step's estimate, then however the calls end: at most
      eight calls are made, they cost at most the limit, no claim is stopped for cost after a
      tag step began, and a claim refused for its plan has made at most two calls. */
  lemma PlanHolds(first: Script, tags: seq<Script>, classify: real, tag: real, quick: bool, valid: bool)
    requires |tags| == 3 && classify >= 0.0 && tag >= 0.0
    requires WithinEstimate(first, classify) && forall k :: 0 <= k < 3 ==> WithinEstimate(tags[k], tag)
    ensures var steps := StepsOf(first, tags, classify, tag, quick, valid);
            var outcome := OutcomeOf(first, tags, classify, tag, quick, valid);
            && Calls(steps) <= 8 && Actual(steps) <= MAX_USD && outcome != OverCap
            && (outcome == Refused ==> Calls(steps) <= 2)
  {
    var n := Replicas(quick, classify, tag);
    var s := StepOf(first, classify, 0.0);
    OneStep(s);
    StepWithinEstimate(first, classify, 0.0);
    if s.outcome == Accepted && valid && Planned(classify, tag, n) <= MAX_USD {
      var spent := SpentBeforeTag(classify, tag, n);
      SpentFits(classify, tag, n);
      TagStepsFine(tags, n, tag, spent);
      PlanFits(s, TagSteps(tags, n, tag, spent), classify, tag, n);
    }
  }

  lemma PlanFits(s: StepResult, rest: seq<StepResult>, classify: real, tag: real, n: nat)
    requires Fine(s, classify) && AllFine(rest, tag) && |rest| == n <= 3 && Planned(classify, tag, n) <= MAX_USD
    ensures Calls([s] + rest) <= 8 && Actual([s] + rest) <= MAX_USD
    ensures Final([s] + rest) != Refused && Final([s] + rest) != OverCap
  {
    PlanSums(s, rest, classify, tag);
    PlanVerdict(s, rest, classify, tag);
  }

  /** What the final check adds without trusting the estimates: a claim that succeeds has
      reported charges within the limit. */
  lemma SuccessWithinLimit(first: Script, tags: seq<Script>, classify: real, tag: real, quick: bool, valid: bool)
    requires |tags| == 3
    requires OutcomeOf(first, tags, classify, tag, quick, valid) == Accepted
    ensures Actual(StepsOf(first, tags, classify, tag, quick, valid)) <= MAX_USD
    ensures valid && Planned(classify, tag, Replicas(quick, classify, tag)) <= MAX_USD
    ensures |StepsOf(first, tags, classify, tag, quick, valid)| == 1 + Replicas(quick, classify, tag)
  {
    var n := Replicas(quick, classify, tag);
    TagStepAt(tags, n, tag, SpentBeforeTag(classify, tag, n), 0);
  }
}
