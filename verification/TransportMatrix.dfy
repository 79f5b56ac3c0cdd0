/**
 The E05 transport matrix: workers that share a lock, a spaced start time, a money
 reservation and a latch that stops the whole experiment.

 `Matrix` is the shared object with its lock-protected sections as methods. Each method
 is proved equal to a function on `Shared`; `Step` interleaves these functions over any
 number of workers and any clock, and the theorems range over every run of `Step`.
 */
module TransportMatrix {
  import opened Wrappers

  datatype Case = H0 | H1 | H2 | H3 | H4 | H5 | H6

  /** Requests per second. */
  function Rate(c: Case): real {
    if c.H6? then 1.0 else 4.0
  }

  function Gap(c: Case): (gap: real)
    ensures 0.25 <= gap <= 1.0
  {
    1.0 / Rate(c)
  }

  const RESERVE: real := 0.007
  const CAP: real := 0.5
  const MAX_ATTEMPTS: nat := 28
  const ROUNDS: nat := 14

  /** What a provider returned, as far as the accounting and the stop latch look at it. */
  datatype Reply = Reply(status: int, incoming: Option<int>, outgoing: Option<int>,
                         listedError: bool, invalidRequest: bool)

  datatype Event = Replied(reply: Reply) | Fault

  datatype Shared = Shared(starts: seq<real>, cases: seq<Case>, nextStart: real,
                           reserved: real, denials: nat, stopped: bool,
                           log: seq<Event>, calls: seq<real>)

  const EMPTY: Shared := Shared([], [], 0.0, 0.0, 0, false, [], [])

  // ---------------------------------------------------------------- pricing one reply

  function Cost(incoming: int, outgoing: int): real {
    (incoming as real * 0.125 + outgoing as real * 0.5) / 1000000.0 * 1.1
  }

  predicate ValidUsage(r: Reply, maxTokens: nat) {
    && r.incoming.Some? && r.outgoing.Some?
    && 0 <= r.incoming.value <= 32768
    && 0 <= r.outgoing.value <= maxTokens
  }

  /** None is the exception path: invalid usage, or a cost above the reservation. */
  function Exposure(live: bool, maxTokens: nat, r: Reply): (e: Option<real>)
    ensures e.Some? ==> 0.0 <= e.value <= RESERVE
  {
    if !live then Some(0.0)
    else if r.status != 200 then Some(RESERVE)
    else if !ValidUsage(r, maxTokens) then None
    else
      var bound := Cost(r.incoming.value, r.outgoing.value);
      if bound <= RESERVE then Some(bound) else None
  }

  /** The in-line assertion on the cost can fail only for bodies that allow 4536 or more
      completion tokens; the two frozen bodies allow at most 4096. */
  lemma CostAssertionSafeIff(maxTokens: nat)
    ensures maxTokens <= 4535 <==>
            forall r: Reply :: ValidUsage(r, maxTokens) ==> Cost(r.incoming.value, r.outgoing.value) <= RESERVE
  {
    if maxTokens >= 4536 {
      var r := Reply(200, Some(32768), Some(4536), false, false);
      assert ValidUsage(r, maxTokens);
      assert Cost(r.incoming.value, r.outgoing.value) > RESERVE;
    }
  }

  lemma FrozenBodyCost(r: Reply)
    requires ValidUsage(r, 4096)
    ensures 0.0 <= Cost(r.incoming.value, r.outgoing.value) <= 0.0067584 < RESERVE
    ensures Exposure(true, 4096, r.(status := 200)) == Some(Cost(r.incoming.value, r.outgoing.value))
  {
    assert r.incoming.value as real <= 32768.0 && r.outgoing.value as real <= 4096.0;
  }

  /** What a live reply is recorded with: the whole reservation unless it is a success; a success
      with valid usage at its price per token, in units of 10^-10 dollars, and no record exactly
      for a success whose usage is invalid or comes to more than the reservation. Echoes are free. */
  lemma ExposureIff(live: bool, maxTokens: nat, r: Reply)
    ensures !live ==> Exposure(live, maxTokens, r) == Some(0.0)
    ensures live && r.status != 200 ==> Exposure(live, maxTokens, r) == Some(0.007)
    ensures Exposure(live, maxTokens, r).None? <==>
            && live && r.status == 200
            && !(&& r.incoming.Some? && 0 <= r.incoming.value <= 32768
                 && r.outgoing.Some? && 0 <= r.outgoing.value <= maxTokens
                 && 1375 * r.incoming.value + 5500 * r.outgoing.value <= 70000000)
    ensures live && r.status == 200 && Exposure(live, maxTokens, r).Some? ==>
              Exposure(live, maxTokens, r).value * 10000000000.0 == (1375 * r.incoming.value + 5500 * r.outgoing.value) as real
  {
  }

  // ------------------------------------------------- the lock-protected sections as functions

  predicate Refuses(s: Shared) {
    s.stopped || |s.starts| >= MAX_ATTEMPTS || s.reserved + RESERVE > CAP
  }

  /** Refused when stopped, after 28 attempts, or when one more reservation of 0.007 does not fit
      half a dollar; so within the attempts, money alone never refuses. */
  lemma RefusesIff(s: Shared)
    ensures Refuses(s) <==> s.stopped || |s.starts| >= 28 || s.reserved > 0.493
    ensures s.reserved == RESERVE * |s.starts| as real ==> (Refuses(s) <==> s.stopped || |s.starts| >= 28)
  {
  }

  function Admitted(s: Shared, c: Case, started: real): Shared {
    s.(starts := s.starts + [started], cases := s.cases + [c],
       nextStart := started + Gap(c), reserved := s.reserved + RESERVE)
  }

  /** A reply that stops the matrix by itself. */
  predicate Rejects(r: Reply) {
    r.status in {401, 429} || r.listedError || (r.status == 403 && r.invalidRequest)
  }

  function Classified(s: Shared, r: Reply): Shared {
    var denials := if r.status == 403 then s.denials + 1 else 0;
    s.(denials := denials,
       stopped := s.stopped || denials >= 3 || Rejects(r),
       log := s.log + [Replied(r)])
  }

  function Faulted(s: Shared, live: bool): Shared {
    s.(stopped := s.stopped || live, log := s.log + [Fault])
  }

  function Recorded(s: Shared, exposure: real): Shared {
    s.(calls := s.calls + [exposure])
  }

  function CountAfter(starts: seq<real>, lo: real): nat {
    if starts == [] then 0
    else CountAfter(starts[..|starts|-1], lo) + (if starts[|starts|-1] > lo then 1 else 0)
  }

  /** The object itself. `clock` is the monotonic clock, read and advanced by sleeping. */
  class Matrix {
    var starts: seq<real>
    var cases: seq<Case>
    var nextStart: real
    var reserved: real
    var denials: nat
    var stopped: bool
    var calls: seq<real>
    var clock: real
    ghost var log: seq<Event>
    const live: bool

    constructor (live: bool, clock: real)
      ensures Abs() == EMPTY && this.live == live && this.clock == clock
    {
      starts, cases, nextStart, reserved := [], [], 0.0, 0.0;
      denials, stopped, calls, log := 0, false, [], [];
      this.live, this.clock := live, clock;
    }

    ghost function Abs(): Shared
      reads this
    {
      Shared(starts, cases, nextStart, reserved, denials, stopped, log, calls)
    }

    /** A sleep never returns before the requested time has passed. */
    method Sleep(seconds: real, overrun: real)
      requires seconds >= 0.0 && overrun >= 0.0
      modifies `clock
      ensures clock == old(clock) + seconds + overrun
    {
      clock := clock + seconds + overrun;
    }

    /** The admission section of `invoke`, including the spacing wait under the lock. */
    method Admit(c: Case, overrun: real) returns (recent: Option<nat>)
      requires overrun >= 0.0
      modifies this
      ensures clock >= old(clock) && clock >= old(nextStart)
      ensures recent.None? <==> Refuses(old(Abs()))
      ensures recent.None? ==> Abs() == old(Abs())
      ensures recent.Some? ==> Abs() == Admitted(old(Abs()), c, clock)
      ensures recent.Some? ==> nextStart == clock + (if c.H6? then 1.0 else 0.25)
      ensures recent.Some? ==> recent.value == CountAfter(starts, clock - 1.0)
    {
      while clock < nextStart
        invariant clock >= old(clock)
        invariant unchanged(`starts, `cases, `nextStart, `reserved, `denials, `stopped, `calls, `log)
        decreases if clock < nextStart then 1 + ((nextStart - clock) * 50.0).Floor else 0
      {
        var pause := if nextStart - clock < 0.02 then nextStart - clock else 0.02;
        Sleep(pause, overrun);
      }
      if stopped || |starts| >= MAX_ATTEMPTS || reserved + RESERVE > CAP {
        return None;
      }
      var started := clock;
      nextStart := started + 1.0 / Rate(c);
      starts := starts + [started];
      cases := cases + [c];
      reserved := reserved + RESERVE;
      var count := Recent(started - 1.0);
      return Some(count);
    }

    /** The starts after a moment. */
    method Recent(since: real) returns (count: nat)
      ensures count == CountAfter(starts, since)
    {
      count := 0;
      for i := 0 to |starts|
        invariant count == CountAfter(starts[..i], since)
      {
        assert starts[..i+1][..|starts[..i+1]|-1] == starts[..i];
        if starts[i] > since {
          count := count + 1;
        }
      }
      assert starts[..|starts|] == starts;
    }

    /** The classification section of `invoke`. */
    method Classify(r: Reply)
      modifies `denials, `stopped, `log
      ensures Abs() == Classified(old(Abs()), r)
      ensures stopped <==> || old(stopped) || (old(denials) >= 2 && r.status == 403)
                           || r.status == 401 || r.status == 429 || r.listedError
                           || (r.invalidRequest && r.status == 403)
    {
      denials := if r.status == 403 then denials + 1 else 0;
      if || denials >= 3
         || r.status in {401, 429}
         || r.listedError
         || (r.status == 403 && r.invalidRequest)
      {
        stopped := true;
      }
      log := log + [Replied(r)];
    }

    /** The exception path of `invoke`: an uncertain live call stops the matrix. */
    method Fail()
      modifies `stopped, `log
      ensures Abs() == Faulted(old(Abs()), live)
    {
      if live {
        stopped := true;
      }
      log := log + [Fault];
    }

    /** The last section of `invoke`: append the finished record. */
    method Record(exposure: real)
      modifies `calls
      ensures Abs() == Recorded(old(Abs()), exposure)
    {
      calls := calls + [exposure];
    }
  }

  // ---------------------------------------------------------------- interleavings

  datatype Phase = Ready | Holding | InFlight | Finished(exposure: real) | Done

  /** `bodies[w]` is the completion-token allowance of the body worker `w` sends. */
  datatype Config = Config(live: bool, plan: seq<Case>, bodies: seq<nat>)

  datatype State = State(now: real, lock: Option<nat>, shared: Shared, workers: seq<Phase>, round: nat)

  predicate Init(cfg: Config, s: State) {
    && s.lock.None? && s.shared == EMPTY && s.round == 0
    && s.workers == seq(|cfg.bodies|, i => Ready)
  }

  function Pending(live: bool): real {
    if live then RESERVE else 0.0
  }

  datatype Action =
    | Tick(dt: real)
    | Acquire(w: nat)
    | Refuse(w: nat)
    | Start(w: nat)
    | Answer(w: nat, reply: Reply)
    | Break(w: nat)
    | Append(w: nat)
    | NextRound

  predicate Does(cfg: Config, s: State, a: Action, t: State) {
    match a
    case Tick(dt) =>
      dt >= 0.0 && t == s.(now := s.now + dt)
    case Acquire(w) =>
      && w < |s.workers| && s.workers[w].Ready? && s.lock.None? && s.round < |cfg.plan|
      && t == s.(lock := Some(w), workers := s.workers[w := Holding])
    case Refuse(w) =>
      && w < |s.workers| && s.workers[w].Holding? && s.now >= s.shared.nextStart && Refuses(s.shared)
      && t == s.(lock := None, workers := s.workers[w := Done])
    case Start(w) =>
      && w < |s.workers| && s.workers[w].Holding? && s.now >= s.shared.nextStart && !Refuses(s.shared)
      && s.round < |cfg.plan|
      && t == s.(lock := None, shared := Admitted(s.shared, cfg.plan[s.round], s.now),
                 workers := s.workers[w := InFlight])
    case Answer(w, r) =>
      && w < |s.workers| && w < |cfg.bodies| && s.workers[w].InFlight? && s.lock.None?
      && Exposure(cfg.live, cfg.bodies[w], r).Some?
      && t == s.(shared := Classified(s.shared, r),
                 workers := s.workers[w := Finished(Exposure(cfg.live, cfg.bodies[w], r).value)])
    case Break(w) =>
      && w < |s.workers| && s.workers[w].InFlight? && s.lock.None?
      && t == s.(shared := Faulted(s.shared, cfg.live),
                 workers := s.workers[w := Finished(Pending(cfg.live))])
    case Append(w) =>
      && w < |s.workers| && s.workers[w].Finished? && s.lock.None?
      && t == s.(shared := Recorded(s.shared, s.workers[w].exposure),
                 workers := s.workers[w := Done])
    case NextRound =>
      && (forall w | 0 <= w < |s.workers| :: s.workers[w].Done?) && !s.shared.stopped
      && s.round < |cfg.plan|
      && t == s.(round := s.round + 1, workers := seq(|s.workers|, i => Ready))
  }

  ghost predicate Step(cfg: Config, s: State, t: State) {
    exists a: Action :: Does(cfg, s, a, t)
  }

  ghost predicate IsRun(cfg: Config, trace: seq<State>) {
    && |trace| > 0
    && Init(cfg, trace[0])
    && forall i :: 0 <= i < |trace| - 1 ==> Step(cfg, trace[i], trace[i+1])
  }

  // ---------------------------------------------------------------- counting workers

  function IsOpen(p: Phase): nat { if p.InFlight? || p.Finished? then 1 else 0 }
  function Owes(p: Phase): real { match p case InFlight => RESERVE case Finished(e) => e case _ => 0.0 }
  function IsInFlight(p: Phase): nat { if p.InFlight? then 1 else 0 }
  function IsPast(p: Phase): nat { if p.Ready? || p.Holding? then 0 else 1 }

  function Total(ws: seq<Phase>, f: Phase -> nat): nat {
    if ws == [] then 0 else f(ws[0]) + Total(ws[1..], f)
  }

  function Owed(ws: seq<Phase>): real {
    if ws == [] then 0.0 else Owes(ws[0]) + Owed(ws[1..])
  }

  function Sum(xs: seq<real>): real {
    if xs == [] then 0.0 else Sum(xs[..|xs|-1]) + xs[|xs|-1]
  }

  lemma {:induction false} TotalUpdate(ws: seq<Phase>, w: nat, p: Phase, f: Phase -> nat)
    requires w < |ws|
    ensures Total(ws[w := p], f) == Total(ws, f) - f(ws[w]) + f(p)
  {
    if w == 0 {
      assert ws[0 := p][1..] == ws[1..];
    } else {
      assert ws[w := p][1..] == ws[1..][w-1 := p];
      TotalUpdate(ws[1..], w - 1, p, f);
    }
  }

  lemma {:induction false} OwedUpdate(ws: seq<Phase>, w: nat, p: Phase)
    requires w < |ws|
    ensures Owed(ws[w := p]) == Owed(ws) - Owes(ws[w]) + Owes(p)
  {
    if w == 0 {
      assert ws[0 := p][1..] == ws[1..];
    } else {
      assert ws[w := p][1..] == ws[1..][w-1 := p];
      OwedUpdate(ws[1..], w - 1, p);
    }
  }

  lemma {:induction false} TotalBound(ws: seq<Phase>, f: Phase -> nat)
    requires forall p :: f(p) <= 1
    ensures Total(ws, f) <= |ws|
    ensures (exists w :: 0 <= w < |ws| && f(ws[w]) == 0) ==> Total(ws, f) < |ws|
  {
    if ws != [] {
      TotalBound(ws[1..], f);
      if exists w :: 0 <= w < |ws| && f(ws[w]) == 0 {
        var w :| 0 <= w < |ws| && f(ws[w]) == 0;
        if w > 0 {
          assert ws[1..][w-1] == ws[w];
        }
      }
    }
  }

  lemma {:induction false} FreshWorkers(n: nat)
    ensures Total(seq(n, i => Ready), IsOpen) == 0
    ensures Total(seq(n, i => Ready), IsInFlight) == 0
    ensures Total(seq(n, i => Ready), IsPast) == 0
    ensures Owed(seq(n, i => Ready)) == 0.0
  {
    if n > 0 {
      FreshWorkers(n - 1);
      assert seq(n, i => Ready)[1..] == seq(n - 1, i => Ready);
    }
  }

  lemma {:induction false} AllDone(ws: seq<Phase>)
    requires forall w | 0 <= w < |ws| :: ws[w].Done?
    ensures Total(ws, IsOpen) == 0 && Owed(ws) == 0.0 && Total(ws, IsPast) == |ws|
  {
    if ws != [] {
      AllDone(ws[1..]);
    }
  }

  lemma SumAppend(xs: seq<real>, x: real)
    ensures Sum(xs + [x]) == Sum(xs) + x
  {
    assert (xs + [x])[..|xs|] == xs;
  }

  // ---------------------------------------------------------------- spacing and the rate

  /** Every start leaves at least the gap of the case admitted just before it. */
  predicate Spaced(starts: seq<real>, cases: seq<Case>) {
    && |cases| == |starts|
    && forall i :: 0 < i < |starts| ==> starts[i] >= starts[i-1] + Gap(cases[i-1])
  }

  /** Starts inside the half-open window (lo, hi]. */
  function InWindow(starts: seq<real>, lo: real, hi: real): nat {
    if starts == [] then 0
    else
      var last := starts[|starts|-1];
      InWindow(starts[..|starts|-1], lo, hi) + (if lo < last <= hi then 1 else 0)
  }

  lemma {:induction false} SpacedOrder(starts: seq<real>, cases: seq<Case>, i: nat, j: nat)
    requires Spaced(starts, cases) && i < j < |starts|
    ensures starts[i] + 0.25 <= starts[j]
    decreases j
  {
    if i < j - 1 {
      SpacedOrder(starts, cases, i, j - 1);
    }
  }

  lemma {:induction false} WindowShrinks(starts: seq<real>, lo: real, hi: real, hi': real)
    requires hi' <= hi
    requires forall i :: 0 <= i < |starts| ==> starts[i] <= hi'
    ensures InWindow(starts, lo, hi) == InWindow(starts, lo, hi')
  {
    if starts != [] {
      WindowShrinks(starts[..|starts|-1], lo, hi, hi');
    }
  }

  /** A window of k quarter seconds holds at most k spaced starts. */
  lemma {:induction false} WindowBound(starts: seq<real>, cases: seq<Case>, lo: real, hi: real, k: nat)
    requires Spaced(starts, cases)
    requires hi - lo <= k as real * 0.25
    ensures InWindow(starts, lo, hi) <= k
    decreases |starts|
  {
    if starts != [] {
      var n := |starts| - 1;
      var before := starts[..n];
      assert Spaced(before, cases[..n]);
      if lo < starts[n] <= hi {
        forall i | 0 <= i < n ensures before[i] <= hi - 0.25 {
          SpacedOrder(starts, cases, i, n);
        }
        WindowShrinks(before, lo, hi, hi - 0.25);
        WindowBound(before, cases[..n], lo, hi - 0.25, k - 1);
      } else {
        WindowBound(before, cases[..n], lo, hi, k);
      }
    }
  }

  lemma {:induction false} CountAfterIsWindow(starts: seq<real>, lo: real, hi: real)
    requires forall i :: 0 <= i < |starts| ==> starts[i] <= hi
    ensures CountAfter(starts, lo) == InWindow(starts, lo, hi)
  {
    if starts != [] {
      CountAfterIsWindow(starts[..|starts|-1], lo, hi);
    }
  }

  // ---------------------------------------------------------------- the stop latch

  /** The replies that reached classification, in order; exceptions leave no status. */
  function Replies(log: seq<Event>): seq<Reply> {
    if log == [] then []
    else
      var rest := Replies(log[..|log|-1]);
      match log[|log|-1]
      case Replied(r) => rest + [r]
      case Fault => rest
  }

  predicate DenialsAt(rs: seq<Reply>, i: nat) {
    i + 2 < |rs| && rs[i].status == 403 && rs[i+1].status == 403 && rs[i+2].status == 403
  }

  predicate ThreeDenials(rs: seq<Reply>) {
    exists i :: 0 <= i < |rs| && DenialsAt(rs, i)
  }

  /** Why a matrix may stop, said about its history rather than its counters. */
  predicate StopCause(live: bool, log: seq<Event>) {
    || (live && Fault in log)
    || (exists i :: 0 <= i < |Replies(log)| && Rejects(Replies(log)[i]))
    || ThreeDenials(Replies(log))
  }

  /** The counter is the length of the trailing run of denials. */
  predicate TrailingDenials(rs: seq<Reply>, n: nat) {
    && n <= |rs|
    && (forall i :: |rs| - n <= i < |rs| ==> rs[i].status == 403)
    && (n < |rs| ==> rs[|rs| - n - 1].status != 403)
  }

  predicate LatchInv(live: bool, s: Shared) {
    && TrailingDenials(Replies(s.log), s.denials)
    && (s.stopped <==> StopCause(live, s.log))
  }

  lemma RepliesSnoc(log: seq<Event>, e: Event)
    ensures Replies(log + [e]) == Replies(log) + (if e.Replied? then [e.reply] else [])
  {
    assert (log + [e])[..|log|] == log;
  }

  lemma ThreeDenialsSnoc(rs: seq<Reply>, r: Reply, n: nat)
    requires TrailingDenials(rs, n)
    ensures ThreeDenials(rs + [r]) <==> ThreeDenials(rs) || (r.status == 403 && n + 1 >= 3)
  {
    var qs := rs + [r];
    if ThreeDenials(rs) {
      var i :| 0 <= i < |rs| && DenialsAt(rs, i);
      assert DenialsAt(qs, i);
    }
    if r.status == 403 && n >= 2 {
      assert DenialsAt(qs, |rs| - 2);
    }
    if ThreeDenials(qs) {
      var i :| 0 <= i < |qs| && DenialsAt(qs, i);
      if i + 2 < |rs| {
        assert DenialsAt(rs, i);
      }
    }
  }

  lemma TrailingSnoc(rs: seq<Reply>, r: Reply, n: nat)
    requires TrailingDenials(rs, n)
    ensures TrailingDenials(rs + [r], if r.status == 403 then n + 1 else 0)
  {
  }

  lemma ClassifiedKeepsLatch(live: bool, s: Shared, r: Reply)
    requires LatchInv(live, s)
    ensures LatchInv(live, Classified(s, r))
  {
    var rs, t := Replies(s.log), Classified(s, r);
    RepliesSnoc(s.log, Replied(r));
    ThreeDenialsSnoc(rs, r, s.denials);
    TrailingSnoc(rs, r, s.denials);
    var qs := Replies(t.log);
    assert qs == rs + [r];
    assert Fault in t.log <==> Fault in s.log;
    if exists i :: 0 <= i < |rs| && Rejects(rs[i]) {
      var i :| 0 <= i < |rs| && Rejects(rs[i]);
      assert Rejects(qs[i]);
    }
    if Rejects(r) {
      assert Rejects(qs[|rs|]);
    }
    if exists i :: 0 <= i < |qs| && Rejects(qs[i]) {
      var i :| 0 <= i < |qs| && Rejects(qs[i]);
      assert i < |rs| ==> Rejects(rs[i]);
    }
  }

  lemma FaultedKeepsLatch(live: bool, s: Shared)
    requires LatchInv(live, s)
    ensures LatchInv(live, Faulted(s, live))
  {
    RepliesSnoc(s.log, Fault);
    var t := Faulted(s, live);
    assert Replies(t.log) == Replies(s.log);
    assert t.log[|s.log|] == Fault;
    assert Fault in s.log ==> Fault in t.log;
  }

  // ---------------------------------------------------------------- the invariant

  predicate MoneyInv(cfg: Config, s: State) {
    && s.shared.reserved == RESERVE * |s.shared.starts| as real
    && |s.shared.starts| <= MAX_ATTEMPTS
    && |s.shared.calls| + Total(s.workers, IsOpen) == |s.shared.starts|
    && Sum(s.shared.calls) + Owed(s.workers) <= s.shared.reserved
    && (forall i :: 0 <= i < |s.shared.calls| ==> 0.0 <= s.shared.calls[i] <= RESERVE)
    && (forall w :: 0 <= w < |s.workers| && s.workers[w].Finished? ==> 0.0 <= s.workers[w].exposure <= RESERVE)
  }

  predicate PaceInv(s: State) {
    && Spaced(s.shared.starts, s.shared.cases)
    && (s.shared.starts != [] ==>
          var n := |s.shared.starts| - 1;
          s.shared.starts[n] <= s.now && s.shared.nextStart == s.shared.starts[n] + Gap(s.shared.cases[n]))
  }

  predicate WorkerInv(cfg: Config, s: State) {
    && |s.workers| == |cfg.bodies|
    && s.round <= |cfg.plan|
    && (forall w :: 0 <= w < |s.workers| && s.workers[w].Holding? ==> s.lock == Some(w) && s.round < |cfg.plan|)
    && (s.shared.stopped ==> exists w :: 0 <= w < |s.workers| && (s.workers[w].Finished? || s.workers[w].Done?))
  }

  predicate RoundInv(cfg: Config, s: State) {
    |s.shared.starts| <= |cfg.bodies| * s.round + Total(s.workers, IsPast)
  }

  predicate Inv(cfg: Config, s: State) {
    && MoneyInv(cfg, s) && PaceInv(s) && WorkerInv(cfg, s) && RoundInv(cfg, s) && LatchInv(cfg.live, s.shared)
  }

  lemma InitInv(cfg: Config, s: State)
    requires Init(cfg, s)
    ensures Inv(cfg, s)
  {
    FreshWorkers(|cfg.bodies|);
  }

  lemma MoneyStep(cfg: Config, s: State, a: Action, t: State)
    requires Inv(cfg, s) && Does(cfg, s, a, t)
    ensures MoneyInv(cfg, t)
  {
    match a
    case Tick(_) =>
    case NextRound => MoneyTurns(cfg, s, a, t);
    case Append(_) => MoneyAppends(cfg, s, a, t);
    case Start(_) => MoneyStarts(cfg, s, a, t);
    case _ => MoneyMoves(cfg, s, a, t);
  }

  lemma MoneyStarts(cfg: Config, s: State, a: Action, t: State)
    requires MoneyInv(cfg, s) && Does(cfg, s, a, t) && a.Start?
    ensures MoneyInv(cfg, t)
  {
    TotalUpdate(s.workers, a.w, InFlight, IsOpen);
    OwedUpdate(s.workers, a.w, InFlight);
  }

  lemma MoneyAppends(cfg: Config, s: State, a: Action, t: State)
    requires MoneyInv(cfg, s) && Does(cfg, s, a, t) && a.Append?
    ensures MoneyInv(cfg, t)
  {
    TotalUpdate(s.workers, a.w, Done, IsOpen);
    OwedUpdate(s.workers, a.w, Done);
    SumAppend(s.shared.calls, s.workers[a.w].exposure);
  }

  /** The actions that neither start nor record. */
  lemma MoneyMoves(cfg: Config, s: State, a: Action, t: State)
    requires MoneyInv(cfg, s) && Does(cfg, s, a, t)
    requires a.Acquire? || a.Refuse? || a.Answer? || a.Break?
    ensures MoneyInv(cfg, t)
  {
    TotalUpdate(s.workers, a.w, t.workers[a.w], IsOpen);
    OwedUpdate(s.workers, a.w, t.workers[a.w]);
  }

  lemma MoneyTurns(cfg: Config, s: State, a: Action, t: State)
    requires Inv(cfg, s) && Does(cfg, s, a, t) && a.NextRound?
    ensures MoneyInv(cfg, t)
  {
    AllDone(s.workers);
    FreshWorkers(|s.workers|);
  }

  lemma PaceStep(cfg: Config, s: State, a: Action, t: State)
    requires Inv(cfg, s) && Does(cfg, s, a, t)
    ensures PaceInv(t)
  {
  }

  lemma WorkerStep(cfg: Config, s: State, a: Action, t: State)
    requires Inv(cfg, s) && Does(cfg, s, a, t)
    ensures WorkerInv(cfg, t)
  {
    if !a.Tick? && !a.NextRound? && t.shared.stopped {
      if s.shared.stopped {
        var w :| 0 <= w < |s.workers| && (s.workers[w].Finished? || s.workers[w].Done?);
        assert t.workers[w].Finished? || t.workers[w].Done?;
      } else {
        assert t.workers[a.w].Finished?;
      }
    }
  }

  lemma RoundStep(cfg: Config, s: State, a: Action, t: State)
    requires Inv(cfg, s) && Does(cfg, s, a, t)
    ensures RoundInv(cfg, t)
  {
    if a.NextRound? {
      RoundTurns(cfg, s, a, t);
    } else if !a.Tick? {
      TotalUpdate(s.workers, a.w, t.workers[a.w], IsPast);
    }
  }

  lemma RoundTurns(cfg: Config, s: State, a: Action, t: State)
    requires RoundInv(cfg, s) && |s.workers| == |cfg.bodies| && Does(cfg, s, a, t) && a.NextRound?
    ensures RoundInv(cfg, t)
  {
    AllDone(s.workers);
    FreshWorkers(|s.workers|);
    assert |cfg.bodies| * (s.round + 1) == |cfg.bodies| * s.round + |cfg.bodies|;
  }

  lemma LatchStep(cfg: Config, s: State, a: Action, t: State)
    requires Inv(cfg, s) && Does(cfg, s, a, t)
    ensures LatchInv(cfg.live, t.shared)
  {
    if a.Answer? {
      ClassifiedKeepsLatch(cfg.live, s.shared, a.reply);
    } else if a.Break? {
      FaultedKeepsLatch(cfg.live, s.shared);
    }
  }

  lemma {:induction false} RunInv(cfg: Config, trace: seq<State>, i: nat)
    requires IsRun(cfg, trace) && i < |trace|
    ensures Inv(cfg, trace[i])
  {
    if i == 0 {
      InitInv(cfg, trace[0]);
    } else {
      RunInv(cfg, trace, i - 1);
      assert Step(cfg, trace[i-1], trace[i-1+1]);
      var a :| Does(cfg, trace[i-1], a, trace[i]);
      MoneyStep(cfg, trace[i-1], a, trace[i]);
      PaceStep(cfg, trace[i-1], a, trace[i]);
      WorkerStep(cfg, trace[i-1], a, trace[i]);
      RoundStep(cfg, trace[i-1], a, trace[i]);
      LatchStep(cfg, trace[i-1], a, trace[i]);
    }
  }

  // ---------------------------------------------------------------- main results

  /** Rate: whatever the interleaving, a start comes at least a second after one of case H6 and
      at least a quarter of a second after any other, and no half-open second holds more than
      four starts. */
  lemma RateLimit(cfg: Config, trace: seq<State>, i: nat, t: real)
    requires IsRun(cfg, trace) && i < |trace|
    ensures var s := trace[i].shared;
            && |s.cases| == |s.starts|
            && forall k :: 0 < k < |s.starts| ==>
                 s.starts[k] >= s.starts[k-1] + (if s.cases[k-1].H6? then 1.0 else 0.25)
    ensures InWindow(trace[i].shared.starts, t - 1.0, t) <= 4
  {
    RunInv(cfg, trace, i);
    WindowBound(trace[i].shared.starts, trace[i].shared.cases, t - 1.0, t, 4);
  }

  /** No request starts in the second after one of case H6 has started, and the next start of
      any kind waits for that second in every state. */
  lemma AloneForASecond(cfg: Config, trace: seq<State>, i: nat, j: nat, k: nat)
    requires IsRun(cfg, trace) && i < |trace| && j < |trace[i].shared.starts|
    requires j < |trace[i].shared.cases| && trace[i].shared.cases[j].H6?
    ensures j < k < |trace[i].shared.starts| ==> trace[i].shared.starts[k] >= trace[i].shared.starts[j] + 1.0
    ensures trace[i].shared.nextStart >= trace[i].shared.starts[j] + 1.0
  {
    RunInv(cfg, trace, i);
    var s := trace[i].shared;
    var n := |s.starts| - 1;
    if j + 1 < k < |s.starts| {
      SpacedOrder(s.starts, s.cases, j + 1, k);
    }
    if j + 1 < n {
      SpacedOrder(s.starts, s.cases, j + 1, n);
    }
  }

  function Within(starts: seq<real>, lo: real, hi: real): set<nat> {
    set k | 0 <= k < |starts| && lo < starts[k] <= hi
  }

  lemma WithinSnoc(starts: seq<real>, last: real, lo: real, hi: real)
    ensures Within(starts + [last], lo, hi) == Within(starts, lo, hi) + if lo < last <= hi then {|starts|} else {}
    ensures InWindow(starts + [last], lo, hi) == InWindow(starts, lo, hi) + if lo < last <= hi then 1 else 0
  {
    assert (starts + [last])[..|starts|] == starts;
  }

  /** The number of starts in a window is the size of the set of such starts. */
  lemma {:induction false} InWindowCounts(starts: seq<real>, lo: real, hi: real)
    ensures InWindow(starts, lo, hi) == |Within(starts, lo, hi)|
    decreases |starts|
  {
    if starts != [] {
      var before, last := Unsnoc(starts);
      InWindowCounts(before, lo, hi);
      WithinSnoc(before, last, lo, hi);
    }
  }

  lemma RecordedRate(cfg: Config, trace: seq<State>, i: nat, w: nat)
    requires IsRun(cfg, trace) && i + 1 < |trace|
    requires Does(cfg, trace[i], Start(w), trace[i+1])
    ensures CountAfter(trace[i+1].shared.starts, trace[i].now - 1.0) <= 4
  {
    var s := trace[i+1].shared;
    RunInv(cfg, trace, i + 1);
    var n := |s.starts| - 1;
    forall k | 0 <= k < |s.starts| ensures s.starts[k] <= trace[i].now {
      if k < n {
        SpacedOrder(s.starts, s.cases, k, n);
      }
    }
    CountAfterIsWindow(s.starts, trace[i].now - 1.0, trace[i].now);
    WindowBound(s.starts, s.cases, trace[i].now - 1.0, trace[i].now, 4);
  }

  /** Money: the reservation follows the starts, exposures stay within it, and a finished
      run has exactly one record per start. */
  lemma SpendBounded(cfg: Config, trace: seq<State>, i: nat)
    requires IsRun(cfg, trace) && i < |trace|
    ensures trace[i].shared.reserved == RESERVE * |trace[i].shared.starts| as real <= 0.196 <= CAP
    ensures Sum(trace[i].shared.calls) <= trace[i].shared.reserved
    ensures (forall w | 0 <= w < |trace[i].workers| :: trace[i].workers[w].Done?) ==>
              |trace[i].shared.calls| == |trace[i].shared.starts|
  {
    RunInv(cfg, trace, i);
    OwedNonNegative(trace[i].workers);
    if forall w | 0 <= w < |trace[i].workers| :: trace[i].workers[w].Done? {
      AllDone(trace[i].workers);
    }
  }

  lemma {:induction false} OwedNonNegative(ws: seq<Phase>)
    requires forall w :: 0 <= w < |ws| && ws[w].Finished? ==> 0.0 <= ws[w].exposure
    ensures Owed(ws) >= 0.0
  {
    if ws != [] {
      OwedNonNegative(ws[1..]);
    }
  }

  /** Completions whose cost is unknown: faults, and replies that are no success. */
  function Unpriced(log: seq<Event>): nat {
    if log == [] then 0
    else
      var e := log[|log|-1];
      Unpriced(log[..|log|-1]) + (if e.Fault? || e.reply.status != 200 then 1 else 0)
  }

  /** Exposures of finished calls that are not yet recorded. */
  function Unrecorded(ws: seq<Phase>): real {
    if ws == [] then 0.0 else (if ws[0].Finished? then ws[0].exposure else 0.0) + Unrecorded(ws[1..])
  }

  lemma {:induction false} UnrecordedUpdate(ws: seq<Phase>, w: nat, p: Phase)
    requires w < |ws|
    ensures Unrecorded(ws[w := p]) == Unrecorded(ws) + (if p.Finished? then p.exposure else 0.0)
                                      - (if ws[w].Finished? then ws[w].exposure else 0.0)
  {
    if w == 0 {
      assert ws[0 := p][1..] == ws[1..];
    } else {
      assert ws[w := p][1..] == ws[1..][w-1 := p];
      UnrecordedUpdate(ws[1..], w - 1, p);
    }
  }

  lemma {:induction false} NoneUnrecorded(ws: seq<Phase>)
    requires forall w :: 0 <= w < |ws| ==> !ws[w].Finished?
    ensures Unrecorded(ws) == 0.0
  {
    if ws != [] {
      NoneUnrecorded(ws[1..]);
    }
  }

  /** What is exposed by the calls that have come back. */
  function Exposed(s: State): real {
    Sum(s.shared.calls) + Unrecorded(s.workers)
  }

  lemma ExposedStep(cfg: Config, s: State, a: Action, t: State)
    requires Inv(cfg, s) && Does(cfg, s, a, t) && cfg.live
    requires Exposed(s) >= RESERVE * Unpriced(s.shared.log) as real
    ensures Exposed(t) >= RESERVE * Unpriced(t.shared.log) as real
  {
    if a.NextRound? {
      NoneUnrecorded(s.workers);
      NoneUnrecorded(t.workers);
    } else if !a.Tick? {
      UnrecordedUpdate(s.workers, a.w, t.workers[a.w]);
      if a.Append? {
        SumAppend(s.shared.calls, s.workers[a.w].exposure);
      }
      if a.Answer? || a.Break? {
        assert t.shared.log[..|s.shared.log|] == s.shared.log;
      }
    }
  }

  /** Uncertain calls are never priced down: in every reachable state of a live matrix the calls
      that have come back expose at least a whole reservation for each of them that faulted or
      was no success, and once all are done the records show it. */
  lemma {:induction false} UncertainKeepsReserve(cfg: Config, trace: seq<State>, i: nat)
    requires IsRun(cfg, trace) && i < |trace| && cfg.live
    ensures Exposed(trace[i]) >= RESERVE * Unpriced(trace[i].shared.log) as real
    ensures (forall w | 0 <= w < |trace[i].workers| :: trace[i].workers[w].Done?) ==>
              Sum(trace[i].shared.calls) >= 0.007 * Unpriced(trace[i].shared.log) as real
  {
    if i == 0 {
      NoneUnrecorded(trace[0].workers);
    } else {
      UncertainKeepsReserve(cfg, trace, i - 1);
      RunInv(cfg, trace, i - 1);
      assert Step(cfg, trace[i-1], trace[i-1+1]);
      var a :| Does(cfg, trace[i-1], a, trace[i]);
      ExposedStep(cfg, trace[i-1], a, trace[i]);
    }
    if forall w | 0 <= w < |trace[i].workers| :: trace[i].workers[w].Done? {
      NoneUnrecorded(trace[i].workers);
    }
  }

  /** The latch is set exactly when the history of completions contains a cause. */
  lemma StoppedIff(cfg: Config, trace: seq<State>, i: nat)
    requires IsRun(cfg, trace) && i < |trace|
    ensures trace[i].shared.stopped <==> StopCause(cfg.live, trace[i].shared.log)
  {
    RunInv(cfg, trace, i);
  }

  lemma StopStep(cfg: Config, s: State, a: Action, t: State)
    requires Does(cfg, s, a, t) && s.shared.stopped
    ensures t.shared.stopped && t.shared.starts == s.shared.starts
    ensures Total(t.workers, IsInFlight) <= Total(s.workers, IsInFlight)
  {
    if !a.Tick? && !a.NextRound? {
      TotalUpdate(s.workers, a.w, t.workers[a.w], IsInFlight);
    }
  }

  lemma StopStays(cfg: Config, s: State, t: State)
    requires Step(cfg, s, t) && s.shared.stopped
    ensures t.shared.stopped && t.shared.starts == s.shared.starts
    ensures Total(t.workers, IsInFlight) <= Total(s.workers, IsInFlight)
  {
    var a :| Does(cfg, s, a, t);
    StopStep(cfg, s, a, t);
  }

  lemma StoppedInFlight(cfg: Config, s: State)
    requires Inv(cfg, s) && s.shared.stopped
    ensures Total(s.workers, IsInFlight) < |cfg.bodies|
  {
    var w :| 0 <= w < |s.workers| && (s.workers[w].Finished? || s.workers[w].Done?);
    assert IsInFlight(s.workers[w]) == 0;
    TotalBound(s.workers, IsInFlight);
  }

  /** Once stopped, always stopped: no start is added and fewer calls than workers are
      still in flight; with the two workers of `run`, at most one. */
  lemma {:induction false} StopIsFinal(cfg: Config, trace: seq<State>, i: nat, j: nat)
    requires IsRun(cfg, trace) && i <= j < |trace| && trace[i].shared.stopped
    ensures trace[j].shared.stopped
    ensures trace[j].shared.starts == trace[i].shared.starts
    ensures Total(trace[j].workers, IsInFlight) <= Total(trace[i].workers, IsInFlight) < |cfg.bodies|
    decreases j
  {
    if i == j {
      RunInv(cfg, trace, i);
      StoppedInFlight(cfg, trace[i]);
    } else {
      StopIsFinal(cfg, trace, i, j - 1);
      assert Step(cfg, trace[j-1], trace[j-1+1]);
      StopStays(cfg, trace[j-1], trace[j]);
    }
  }

  /** In the planned run (fourteen rounds of two bodies) the attempt and money guards never
      decide anything: a worker is refused if and only if the matrix has stopped. */
  lemma OnlyTheLatchRefuses(cfg: Config, trace: seq<State>, i: nat, w: nat)
    requires IsRun(cfg, trace) && i < |trace| && |cfg.plan| == ROUNDS && |cfg.bodies| == 2
    requires w < |trace[i].workers| && trace[i].workers[w].Holding?
    ensures Refuses(trace[i].shared) <==> trace[i].shared.stopped
  {
    var s := trace[i];
    RunInv(cfg, trace, i);
    assert IsPast(s.workers[w]) == 0;
    TotalBound(s.workers, IsPast);
    assert |s.shared.starts| <= 2 * 13 + 1;
  }
}
