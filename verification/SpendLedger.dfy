/**
 The shared spend file: one JSON ledger read, changed and replaced by many processes.

 A transaction is four separate steps (make the lock directory, read the file, replace the
 file, remove the directory) and a process may die between any two of them. The directory
 of a dead writer is never reclaimed. `Does` interleaves the steps of any number of
 processes; the results say what every reachable file contains.
 */
module SpendLedger {
  import opened Wrappers

  datatype Execution = Execution(task: string, limit: real, delta: real, reserved: real)

  datatype File = File(cumulative: real, limit: real, executions: seq<Execution>)

  datatype Denial = Exhausted | CumulativeExhausted

  // ---------------------------------------------------------------- one file

  /** The first execution of a task, or the number of executions. */
  function Index(xs: seq<Execution>, task: string): (k: nat)
    ensures k <= |xs| && (k < |xs| ==> xs[k].task == task)
  {
    if xs == [] || xs[0].task == task then 0 else 1 + Index(xs[1..], task)
  }

  /** A transaction adds the entry of a task that has none. */
  function Ensured(xs: seq<Execution>, task: string, limit: real): (ys: seq<Execution>)
    ensures Index(ys, task) < |ys|
  {
    if Index(xs, task) < |xs| then xs
    else
      IndexSnoc(xs, Execution(task, limit, 0.0, 0.0), task);
      xs + [Execution(task, limit, 0.0, 0.0)]
  }

  function Changed(xs: seq<Execution>, task: string, reserved: real, delta: real): seq<Execution>
    requires Index(xs, task) < |xs|
  {
    var k := Index(xs, task);
    xs[k := xs[k].(reserved := xs[k].reserved + reserved, delta := xs[k].delta + delta)]
  }

  function Reserved(xs: seq<Execution>, task: string): real {
    if Index(xs, task) < |xs| then xs[Index(xs, task)].reserved else 0.0
  }

  function Delta(xs: seq<Execution>, task: string): real {
    if Index(xs, task) < |xs| then xs[Index(xs, task)].delta else 0.0
  }

  function AllPending(xs: seq<Execution>): real {
    if xs == [] then 0.0 else xs[0].reserved + AllPending(xs[1..])
  }

  function Min(a: real, b: real): real {
    if a <= b then a else b
  }

  /** `FinalsBudget.reserve` inside its transaction. */
  function Reserve(f: File, task: string, own: real, bound: real, unsettled: real): Result<File, Denial> {
    var xs := Ensured(f.executions, task, own);
    var e := xs[Index(xs, task)];
    if e.delta + e.reserved + bound > Min(own, e.limit) then Failure(Exhausted)
    else if f.cumulative + unsettled + AllPending(xs) + bound > f.limit then Failure(CumulativeExhausted)
    else Success(f.(executions := Changed(xs, task, bound, 0.0)))
  }

  /** The settlement at the end of a dispatch. */
  function Settle(f: File, task: string, own: real, bound: real, charged: real): File {
    var xs := Ensured(f.executions, task, own);
    f.(executions := Changed(xs, task, -bound, charged), cumulative := f.cumulative + charged)
  }

  /** Reading a transaction also writes the file back. */
  function Peek(f: File, task: string, own: real): File {
    f.(executions := Ensured(f.executions, task, own))
  }

  lemma {:induction false} IndexSnoc(xs: seq<Execution>, e: Execution, task: string)
    ensures Index(xs + [e], task) ==
            if Index(xs, task) < |xs| then Index(xs, task) else if e.task == task then |xs| else |xs| + 1
  {
    if xs == [] {
      assert (xs + [e])[1..] == [];
    } else {
      assert (xs + [e])[1..] == xs[1..] + [e];
      IndexSnoc(xs[1..], e, task);
    }
  }

  lemma {:induction false} IndexUpdate(xs: seq<Execution>, k: nat, e: Execution, task: string)
    requires k < |xs| && e.task == xs[k].task
    ensures Index(xs[k := e], task) == Index(xs, task)
  {
    if k == 0 {
      assert xs[0 := e][1..] == xs[1..];
    } else {
      assert xs[k := e][1..] == xs[1..][k-1 := e];
      IndexUpdate(xs[1..], k - 1, e, task);
    }
  }

  lemma {:induction false} PendingUpdate(xs: seq<Execution>, k: nat, e: Execution)
    requires k < |xs|
    ensures AllPending(xs[k := e]) == AllPending(xs) + e.reserved - xs[k].reserved
  {
    if k == 0 {
      assert xs[0 := e][1..] == xs[1..];
    } else {
      assert xs[k := e][1..] == xs[1..][k-1 := e];
      PendingUpdate(xs[1..], k - 1, e);
    }
  }

  lemma {:induction false} PendingSnoc(xs: seq<Execution>, e: Execution)
    ensures AllPending(xs + [e]) == AllPending(xs) + e.reserved
  {
    if xs == [] {
      assert (xs + [e])[1..] == [];
    } else {
      assert (xs + [e])[1..] == xs[1..] + [e];
      PendingSnoc(xs[1..], e);
    }
  }

  lemma EnsuredFrame(xs: seq<Execution>, task: string, limit: real, other: string)
    ensures Reserved(Ensured(xs, task, limit), other) == Reserved(xs, other)
    ensures Delta(Ensured(xs, task, limit), other) == Delta(xs, other)
    ensures AllPending(Ensured(xs, task, limit)) == AllPending(xs)
  {
    var e := Execution(task, limit, 0.0, 0.0);
    if Index(xs, task) == |xs| {
      IndexSnoc(xs, e, other);
      PendingSnoc(xs, e);
    }
  }

  lemma ChangedIndex(xs: seq<Execution>, task: string, reserved: real, delta: real, other: string)
    requires Index(xs, task) < |xs|
    ensures Index(Changed(xs, task, reserved, delta), other) == Index(xs, other)
  {
    var k := Index(xs, task);
    IndexUpdate(xs, k, xs[k].(reserved := xs[k].reserved + reserved, delta := xs[k].delta + delta), other);
  }

  lemma ChangedPending(xs: seq<Execution>, task: string, reserved: real, delta: real)
    requires Index(xs, task) < |xs|
    ensures AllPending(Changed(xs, task, reserved, delta)) == AllPending(xs) + reserved
  {
    var k := Index(xs, task);
    PendingUpdate(xs, k, xs[k].(reserved := xs[k].reserved + reserved, delta := xs[k].delta + delta));
  }

  lemma ChangedFrame(xs: seq<Execution>, task: string, reserved: real, delta: real, other: string)
    requires Index(xs, task) < |xs|
    ensures Reserved(Changed(xs, task, reserved, delta), other) ==
            Reserved(xs, other) + (if other == task then reserved else 0.0)
    ensures Delta(Changed(xs, task, reserved, delta), other) ==
            Delta(xs, other) + (if other == task then delta else 0.0)
    ensures AllPending(Changed(xs, task, reserved, delta)) == AllPending(xs) + reserved
  {
    ChangedPending(xs, task, reserved, delta);
    ChangedIndex(xs, task, reserved, delta, other);
    var j := Index(xs, other);
    if j < |xs| {
      assert j == Index(xs, task) <==> other == task;
    }
  }

  // ---------------------------------------------------------------- when a reservation is admitted

  /** Entry k is the first one of the task. */
  predicate EntryAt(xs: seq<Execution>, task: string, k: nat) {
    k < |xs| && xs[k].task == task && forall j :: 0 <= j < k ==> xs[j].task != task
  }

  lemma {:induction false} NoneBefore(xs: seq<Execution>, task: string)
    ensures forall j :: 0 <= j < Index(xs, task) ==> xs[j].task != task
  {
    if xs != [] && xs[0].task != task {
      NoneBefore(xs[1..], task);
      forall j | 0 < j < Index(xs, task) ensures xs[j].task != task {
        assert xs[j] == xs[1..][j-1];
      }
    }
  }

  /** The bound fits beside what the task has spent and reserved, within the limit of the
      process and that of the task's entry, if there is one. */
  ghost predicate Fits(f: File, task: string, own: real, bound: real) {
    var used := Delta(f.executions, task) + Reserved(f.executions, task);
    used + bound <= own && forall k: nat :: EntryAt(f.executions, task, k) ==> used + bound <= f.executions[k].limit
  }

  /** The bound fits beside all that is spent, reserved and not yet settled elsewhere. */
  predicate FitsAll(f: File, bound: real, unsettled: real) {
    f.cumulative + unsettled + AllPending(f.executions) + bound <= f.limit
  }

  /** A reservation is admitted if and only if it fits its task and the whole file; a bound that
      does not fit its task is refused as exhausted, any other as cumulatively exhausted. */
  lemma ReserveIff(f: File, task: string, own: real, bound: real, unsettled: real)
    ensures var r := Reserve(f, task, own, bound, unsettled);
            && (r.Success? <==> Fits(f, task, own, bound) && FitsAll(f, bound, unsettled))
            && (r == Failure(Exhausted) <==> !Fits(f, task, own, bound))
            && (r == Failure(CumulativeExhausted) <==> Fits(f, task, own, bound) && !FitsAll(f, bound, unsettled))
  {
    var xs := f.executions;
    var k := Index(xs, task);
    NoneBefore(xs, task);
    EnsuredFrame(xs, task, own, task);
    if k < |xs| {
      assert EntryAt(xs, task, k);
    } else {
      IndexSnoc(xs, Execution(task, own, 0.0, 0.0), task);
    }
  }

  /** The entry of a task is what its first execution says, and nothing if it has none. */
  lemma EntryOf(xs: seq<Execution>, task: string)
    ensures forall k: nat :: EntryAt(xs, task, k) ==>
              Reserved(xs, task) == xs[k].reserved && Delta(xs, task) == xs[k].delta
    ensures (forall k :: 0 <= k < |xs| ==> xs[k].task != task) ==> Reserved(xs, task) == 0.0 && Delta(xs, task) == 0.0
  {
    NoneBefore(xs, task);
  }

  /** What an admitted reservation changes: the entry of the task, new with the limit of the
      process if there was none, holds the bound on top; nothing else in the file moves. */
  lemma ReserveEffect(f: File, task: string, own: real, bound: real, unsettled: real, k: nat)
    requires Reserve(f, task, own, bound, unsettled).Success?
    requires EntryAt(f.executions, task, k) || (k == |f.executions| && forall j :: 0 <= j < k ==> f.executions[j].task != task)
    ensures var g, xs := Reserve(f, task, own, bound, unsettled).value, f.executions;
            var entry := if k < |xs| then xs[k] else Execution(task, own, 0.0, 0.0);
            && g.cumulative == f.cumulative && g.limit == f.limit
            && g.executions == xs[..k] + [entry.(reserved := entry.reserved + bound)] + (if k < |xs| then xs[k+1..] else [])
  {
    NoneBefore(f.executions, task);
    IndexSnoc(f.executions, Execution(task, own, 0.0, 0.0), task);
  }

  // ---------------------------------------------------------------- caps kept by each change

  /** A stored settlement: what was released and what was charged. */
  datatype Payment = Payment(task: string, bound: real, charged: real)

  function Excess(x: Payment): (e: real)
    ensures e >= 0.0 && x.charged <= x.bound + e && (e == 0.0 <==> x.charged <= x.bound)
  {
    if x.charged > x.bound then x.charged - x.bound else 0.0
  }

  /** By how much the settlements of a task went over their bounds. */
  function Overrun(payments: seq<Payment>, task: string): (e: real)
    ensures e >= 0.0
  {
    if payments == [] then 0.0
    else
      var n := |payments| - 1;
      Overrun(payments[..n], task) + (if payments[n].task == task then Excess(payments[n]) else 0.0)
  }

  function OverrunAll(payments: seq<Payment>): (e: real)
    ensures e >= 0.0
  {
    if payments == [] then 0.0 else OverrunAll(payments[..|payments|-1]) + Excess(payments[|payments|-1])
  }

  /** Spent plus reserved is within every limit, but for the overruns of these settlements. */
  predicate WithinCaps(f: File, payments: seq<Payment>) {
    && (forall i :: 0 <= i < |f.executions| ==>
          f.executions[i].delta + f.executions[i].reserved
          <= f.executions[i].limit + Overrun(payments, f.executions[i].task))
    && f.cumulative + AllPending(f.executions) <= f.limit + OverrunAll(payments)
  }

  lemma OverrunSnoc(payments: seq<Payment>, x: Payment, task: string)
    ensures Overrun(payments + [x], task) == Overrun(payments, task) + (if x.task == task then Excess(x) else 0.0)
    ensures OverrunAll(payments + [x]) == OverrunAll(payments) + Excess(x)
  {
    assert (payments + [x])[..|payments|] == payments;
  }

  lemma {:induction false} NoOverrun(payments: seq<Payment>, task: string)
    requires forall k :: 0 <= k < |payments| ==> payments[k].charged <= payments[k].bound
    ensures Overrun(payments, task) == 0.0 && OverrunAll(payments) == 0.0
  {
    if payments != [] {
      NoOverrun(payments[..|payments|-1], task);
    }
  }

  lemma ReserveKeepsCaps(f: File, task: string, own: real, bound: real, unsettled: real, payments: seq<Payment>)
    requires WithinCaps(f, payments) && own >= 0.0 && unsettled >= 0.0
    requires Reserve(f, task, own, bound, unsettled).Success?
    ensures WithinCaps(Reserve(f, task, own, bound, unsettled).value, payments)
    ensures var g := Reserve(f, task, own, bound, unsettled).value;
            Delta(g.executions, task) + Reserved(g.executions, task) <= own
  {
    var xs := Ensured(f.executions, task, own);
    EnsuredFrame(f.executions, task, own, task);
    ChangedFrame(xs, task, bound, 0.0, task);
  }

  /** A settlement adds to the overruns only what it charges above its bound. */
  lemma SettleKeepsCaps(f: File, task: string, own: real, bound: real, charged: real, payments: seq<Payment>)
    requires WithinCaps(f, payments) && own >= 0.0
    ensures WithinCaps(Settle(f, task, own, bound, charged), payments + [Payment(task, bound, charged)])
  {
    var x := Payment(task, bound, charged);
    var xs, ys := Ensured(f.executions, task, own), Settle(f, task, own, bound, charged).executions;
    EnsuredFrame(f.executions, task, own, task);
    ChangedPending(xs, task, -bound, charged);
    forall i | 0 <= i < |ys| ensures ys[i].delta + ys[i].reserved <= ys[i].limit + Overrun(payments + [x], ys[i].task) {
      OverrunSnoc(payments, x, ys[i].task);
      assert xs[i].delta + xs[i].reserved <= xs[i].limit + Overrun(payments, xs[i].task);
    }
    OverrunSnoc(payments, x, task);
  }

  lemma PeekKeepsCaps(f: File, task: string, own: real, payments: seq<Payment>)
    requires WithinCaps(f, payments) && own >= 0.0
    ensures WithinCaps(Peek(f, task, own), payments)
  {
    EnsuredFrame(f.executions, task, own, task);
  }

  /** Settling is safe on every file if and only if it charges at most the bound. */
  lemma SettleSafeIff(bound: real, charged: real)
    requires bound > 0.0
    ensures charged <= bound <==>
            forall f, task, own :: WithinCaps(f, []) && own >= 0.0 ==>
              WithinCaps(Settle(f, task, own, bound, charged), [])
  {
    if charged <= bound {
      forall f, task, own | WithinCaps(f, []) && own >= 0.0
        ensures WithinCaps(Settle(f, task, own, bound, charged), [])
      {
        SettleKeepsCaps(f, task, own, bound, charged, []);
        NoExcess(Settle(f, task, own, bound, charged), Payment(task, bound, charged));
      }
    } else {
      FullFileExample(bound, charged);
    }
  }

  lemma NoExcess(f: File, x: Payment)
    requires x.charged <= x.bound && WithinCaps(f, [] + [x])
    ensures WithinCaps(f, [])
  {
    forall i | 0 <= i < |f.executions|
      ensures f.executions[i].delta + f.executions[i].reserved
           <= f.executions[i].limit + Overrun([], f.executions[i].task)
    {
      OverrunSnoc([], x, f.executions[i].task);
    }
    OverrunSnoc([], x, "");
  }

  /** On a file that is full with one reservation, charging more than the bound breaks the cap. */
  lemma FullFileExample(bound: real, charged: real)
    requires charged > bound > 0.0
    ensures var f := File(0.0, bound, [Execution("F1", bound, 0.0, bound)]);
            WithinCaps(f, []) && !WithinCaps(Settle(f, "F1", bound, bound, charged), [])
  {
    var xs := [Execution("F1", bound, 0.0, bound)];
    var f := File(0.0, bound, xs);
    assert xs[1..] == [] && AllPending(xs) == bound;
    assert Index(xs, "F1") == 0;
    assert Settle(f, "F1", bound, bound, charged).executions[0] == Execution("F1", bound, charged, 0.0);
  }

  // ---------------------------------------------------------------- processes

  datatype Work = Take(bound: real, unsettled: real) | Look(bound: real) | Pay(bound: real, charged: real)

  datatype Pc =
    | Idle
    | Wants(work: Work)               // waiting for the lock directory
    | Locked(work: Work)              // directory made
    | Loaded(work: Work, copy: File)  // file read into memory
    | Stored(work: Work)              // file replaced
    | Denied(bound: real)             // reservation refused, file untouched
    | Active(bound: real)             // dispatching under a reservation
    | Stuck(bound: real)              // settlement gave up waiting for the lock

  /** `own` is the limit the process was configured with. */
  datatype Process = Process(task: string, own: real, pc: Pc, dead: bool)

  /** `payments` is the history of stored settlements. */
  datatype State = State(file: File, holder: Option<nat>, processes: seq<Process>, payments: seq<Payment>)

  datatype Action =
    | Begin(p: nat, work: Work)    // start a reservation, a look, or a settlement
    | MakeDirectory(p: nat)
    | GiveUp(p: nat)               // thirty seconds passed and the directory is still there
    | Load(p: nat)
    | Store(p: nat)
    | RemoveDirectory(p: nat)
    | Die(p: nat)

  function Subject(a: Action): nat { a.p }

  predicate InTransaction(pc: Pc) {
    pc.Locked? || pc.Loaded? || pc.Stored? || pc.Denied?
  }

  /** A reservation may be asked for, or looked at again after a refusal; only a holder of
      a reservation settles it. The amount it charges is whatever the dispatch came to. */
  predicate MayBegin(pc: Pc, work: Work) {
    match work
    case Take(bound, unsettled) => pc.Idle? && bound > 0.0 && unsettled >= 0.0
    case Look(_) => pc.Idle?
    case Pay(bound, charged) => pc == Active(bound)
  }

  function At(s: State, p: nat, pc: Pc): State
    requires p < |s.processes|
  {
    s.(processes := s.processes[p := s.processes[p].(pc := pc)])
  }

  /** The file after a process stores, and what it does next. */
  function Written(f: File, q: Process): (File, Pc)
    requires q.pc.Loaded?
  {
    match q.pc.work
    case Take(bound, unsettled) =>
      (match Reserve(q.pc.copy, q.task, q.own, bound, unsettled)
       case Success(g) => (g, Stored(q.pc.work))
       case Failure(_) => (f, Denied(bound)))
    case Look(_) => (Peek(q.pc.copy, q.task, q.own), Stored(q.pc.work))
    case Pay(bound, charged) => (Settle(q.pc.copy, q.task, q.own, bound, charged), Stored(q.pc.work))
  }

  function Released(pc: Pc): Pc {
    match pc
    case Stored(Take(bound, _)) => Active(bound)
    case _ => Idle
  }

  predicate Does(s: State, a: Action, t: State) {
    && Subject(a) < |s.processes|
    && !s.processes[a.p].dead
    && var pc := s.processes[a.p].pc;
       match a
       case Begin(p, work) => MayBegin(pc, work) && t == At(s, p, Wants(work))
       case MakeDirectory(p) =>
         pc.Wants? && s.holder.None? && t == At(s, p, Locked(pc.work)).(holder := Some(p))
       case GiveUp(p) =>
         pc.Wants? && s.holder.Some? && t == At(s, p, if pc.work.Pay? then Stuck(pc.work.bound) else Idle)
       case Load(p) =>
         pc.Locked? && t == At(s, p, Loaded(pc.work, s.file))
       case Store(p) =>
         pc.Loaded? &&
         var (file, next) := Written(s.file, s.processes[p]);
         t == At(s, p, next).(file := file,
                payments := s.payments + if pc.work.Pay? then [Payment(s.processes[p].task, pc.work.bound, pc.work.charged)] else [])
       case RemoveDirectory(p) =>
         (pc.Stored? || pc.Denied?) && t == At(s, p, Released(pc)).(holder := None)
       case Die(p) =>
         t == s.(processes := s.processes[p := s.processes[p].(dead := true)])
  }

  /** A fresh experiment: any file within its caps, and processes that have done nothing. */
  predicate Init(s: State) {
    && WithinCaps(s.file, []) && s.holder.None? && s.payments == []
    && forall p :: 0 <= p < |s.processes| ==> s.processes[p].pc.Idle? && s.processes[p].own >= 0.0
  }

  ghost predicate Step(s: State, t: State) {
    exists a: Action :: Does(s, a, t)
  }

  ghost predicate IsRun(trace: seq<State>) {
    && |trace| > 0 && Init(trace[0])
    && forall i :: 0 <= i < |trace| - 1 ==> Step(trace[i], trace[i+1])
  }

  // ---------------------------------------------------------------- what is in flight

  /** The part of the file's reservation that belongs to a process. */
  function Held(pc: Pc): real {
    match pc
    case Active(bound) => bound
    case Stuck(bound) => bound
    case Wants(Pay(bound, _)) => bound
    case Locked(Pay(bound, _)) => bound
    case Loaded(Pay(bound, _), _) => bound
    case Stored(Take(bound, _)) => bound
    case _ => 0.0
  }

  /** Sum of the bounds in flight for a task, dead and stuck processes included. */
  function InFlight(ps: seq<Process>, task: string): real {
    if ps == [] then 0.0
    else (if ps[0].task == task then Held(ps[0].pc) else 0.0) + InFlight(ps[1..], task)
  }

  /** Sum of all bounds in flight. */
  function InFlightAll(ps: seq<Process>): real {
    if ps == [] then 0.0 else Held(ps[0].pc) + InFlightAll(ps[1..])
  }

  lemma {:induction false} InFlightAllUpdate(ps: seq<Process>, p: nat, q: Process)
    requires p < |ps|
    ensures InFlightAll(ps[p := q]) == InFlightAll(ps) + Held(q.pc) - Held(ps[p].pc)
  {
    if p == 0 {
      assert ps[0 := q][1..] == ps[1..];
    } else {
      assert ps[p := q][1..] == ps[1..][p-1 := q];
      InFlightAllUpdate(ps[1..], p - 1, q);
    }
  }

  lemma {:induction false} InFlightAllNone(ps: seq<Process>)
    requires forall p :: 0 <= p < |ps| ==> Held(ps[p].pc) == 0.0
    ensures InFlightAll(ps) == 0.0
  {
    if ps != [] {
      InFlightAllNone(ps[1..]);
    }
  }

  function Paid(payments: seq<Payment>, task: string): real {
    if payments == [] then 0.0
    else
      var n := |payments| - 1;
      Paid(payments[..n], task) + (if payments[n].task == task then payments[n].charged else 0.0)
  }

  function PaidAll(payments: seq<Payment>): real {
    if payments == [] then 0.0
    else PaidAll(payments[..|payments|-1]) + payments[|payments|-1].charged
  }

  lemma {:induction false} InFlightUpdate(ps: seq<Process>, p: nat, q: Process, task: string)
    requires p < |ps| && q.task == ps[p].task
    ensures InFlight(ps[p := q], task) ==
            InFlight(ps, task) + (if q.task == task then Held(q.pc) - Held(ps[p].pc) else 0.0)
  {
    if p == 0 {
      assert ps[0 := q][1..] == ps[1..];
    } else {
      assert ps[p := q][1..] == ps[1..][p-1 := q];
      InFlightUpdate(ps[1..], p - 1, q, task);
    }
  }

  lemma {:induction false} InFlightNone(ps: seq<Process>, task: string)
    requires forall p :: 0 <= p < |ps| ==> ps[p].pc.Idle?
    ensures InFlight(ps, task) == 0.0
  {
    if ps != [] {
      InFlightNone(ps[1..], task);
    }
  }

  lemma PaidSnoc(payments: seq<Payment>, x: Payment, task: string)
    ensures Paid(payments + [x], task) == Paid(payments, task) + (if x.task == task then x.charged else 0.0)
    ensures PaidAll(payments + [x]) == PaidAll(payments) + x.charged
  {
    assert (payments + [x])[..|payments|] == payments;
  }

  // ---------------------------------------------------------------- the invariant

  /** At most one process is inside a transaction, it owns the directory, and the copy it
      works on is the file. */
  predicate Exclusive(s: State) {
    && (forall p :: 0 <= p < |s.processes| && InTransaction(s.processes[p].pc) ==> s.holder == Some(p))
    && (s.holder.Some? ==> s.holder.value < |s.processes| && InTransaction(s.processes[s.holder.value].pc))
    && (forall p :: 0 <= p < |s.processes| && s.processes[p].pc.Loaded? ==> s.processes[p].pc.copy == s.file)
  }

  predicate WorkOk(pc: Pc) {
    match pc
    case Wants(w) => Sane(w)
    case Locked(w) => Sane(w)
    case Loaded(w, _) => Sane(w)
    case Stored(w) => Sane(w)
    case Active(bound) => bound > 0.0
    case Stuck(bound) => bound > 0.0
    case _ => true
  }

  predicate Sane(w: Work) {
    match w
    case Take(bound, unsettled) => bound > 0.0 && unsettled >= 0.0
    case Look(_) => true
    case Pay(bound, _) => bound > 0.0
  }

  predicate ProcessesOk(s: State) {
    forall p :: 0 <= p < |s.processes| ==> s.processes[p].own >= 0.0 && WorkOk(s.processes[p].pc)
  }

  /** The books of one task, relative to the file `f0` the run started from. */
  predicate Books(f0: File, s: State, task: string) {
    && Reserved(s.file.executions, task) == Reserved(f0.executions, task) + InFlight(s.processes, task)
    && Delta(s.file.executions, task) == Delta(f0.executions, task) + Paid(s.payments, task)
    && s.file.cumulative == f0.cumulative + PaidAll(s.payments)
    && s.file.limit == f0.limit
  }

  /** All reservations of the file together. */
  predicate PendingBooks(f0: File, s: State) {
    AllPending(s.file.executions) == AllPending(f0.executions) + InFlightAll(s.processes)
  }

  ghost predicate Inv(f0: File, s: State) {
    && Exclusive(s) && ProcessesOk(s) && WithinCaps(s.file, s.payments)
    && PendingBooks(f0, s) && forall task :: Books(f0, s, task)
  }

  lemma InitInv(s: State)
    requires Init(s)
    ensures Inv(s.file, s)
  {
    InFlightAllNone(s.processes);
    forall task ensures Books(s.file, s, task) {
      InFlightNone(s.processes, task);
    }
  }

  lemma ExclusiveStep(s: State, a: Action, t: State)
    requires Exclusive(s) && Does(s, a, t)
    ensures Exclusive(t)
  {
  }

  lemma ProcessesStep(s: State, a: Action, t: State)
    requires ProcessesOk(s) && Does(s, a, t)
    ensures ProcessesOk(t)
  {
  }

  lemma CapsStep(s: State, a: Action, t: State)
    requires Exclusive(s) && ProcessesOk(s) && WithinCaps(s.file, s.payments) && Does(s, a, t)
    ensures WithinCaps(t.file, t.payments)
  {
    if a.Store? {
      var q := s.processes[a.p];
      assert q.pc.copy == s.file && WorkOk(q.pc);
      match q.pc.work
      case Take(bound, unsettled) =>
        assert t.payments == s.payments;
        if Reserve(s.file, q.task, q.own, bound, unsettled).Success? {
          ReserveKeepsCaps(s.file, q.task, q.own, bound, unsettled, s.payments);
        }
      case Look(_) =>
        assert t.payments == s.payments;
        PeekKeepsCaps(s.file, q.task, q.own, s.payments);
      case Pay(bound, charged) =>
        SettleKeepsCaps(s.file, q.task, q.own, bound, charged, s.payments);
    }
  }

  function Charge(w: Work): real {
    if w.Pay? then w.charged else 0.0
  }

  /** A store moves the reservation by what the process newly holds, and both totals by
      what it pays. */
  lemma StoreEffect(f: File, q: Process, task: string)
    requires q.pc.Loaded? && q.pc.copy == f
    ensures var (g, next) := Written(f, q);
            && Reserved(g.executions, task) ==
               Reserved(f.executions, task) + (if q.task == task then Held(next) - Held(q.pc) else 0.0)
            && Delta(g.executions, task) ==
               Delta(f.executions, task) + (if q.task == task then Charge(q.pc.work) else 0.0)
            && g.cumulative == f.cumulative + Charge(q.pc.work)
            && g.limit == f.limit
  {
    match q.pc.work
    case Take(bound, unsettled) => TakeEffect(f, q.task, q.own, bound, unsettled, task);
    case Look(_) => EnsuredFrame(f.executions, q.task, q.own, task);
    case Pay(bound, charged) => PayEffect(f, q.task, q.own, bound, charged, task);
  }

  lemma TakeEffect(f: File, task: string, own: real, bound: real, unsettled: real, other: string)
    ensures var r := Reserve(f, task, own, bound, unsettled);
            r.Success? ==>
              && Reserved(r.value.executions, other) ==
                 Reserved(f.executions, other) + (if other == task then bound else 0.0)
              && Delta(r.value.executions, other) == Delta(f.executions, other)
              && r.value.cumulative == f.cumulative && r.value.limit == f.limit
  {
    EnsuredFrame(f.executions, task, own, other);
    ChangedFrame(Ensured(f.executions, task, own), task, bound, 0.0, other);
  }

  lemma PayEffect(f: File, task: string, own: real, bound: real, charged: real, other: string)
    ensures var g := Settle(f, task, own, bound, charged);
            && Reserved(g.executions, other) == Reserved(f.executions, other) - (if other == task then bound else 0.0)
            && Delta(g.executions, other) == Delta(f.executions, other) + (if other == task then charged else 0.0)
            && g.cumulative == f.cumulative + charged && g.limit == f.limit
  {
    EnsuredFrame(f.executions, task, own, other);
    ChangedFrame(Ensured(f.executions, task, own), task, -bound, charged, other);
  }

  lemma BooksStore(f0: File, s: State, p: nat, t: State, task: string)
    requires Exclusive(s) && Books(f0, s, task) && Does(s, Store(p), t)
    ensures Books(f0, t, task)
  {
    var q := s.processes[p];
    InFlightUpdate(s.processes, p, t.processes[p], task);
    StoreEffect(s.file, q, task);
    if q.pc.work.Pay? {
      PaidSnoc(s.payments, Payment(q.task, q.pc.work.bound, q.pc.work.charged), task);
    } else {
      assert t.payments == s.payments;
    }
  }

  lemma BooksStep(f0: File, s: State, a: Action, t: State, task: string)
    requires Exclusive(s) && Books(f0, s, task) && Does(s, a, t)
    ensures Books(f0, t, task)
  {
    if a.Store? {
      BooksStore(f0, s, a.p, t, task);
    } else {
      InFlightUpdate(s.processes, a.p, t.processes[a.p], task);
    }
  }

  lemma StorePending(f: File, q: Process)
    requires q.pc.Loaded? && q.pc.copy == f
    ensures var (g, next) := Written(f, q);
            AllPending(g.executions) == AllPending(f.executions) + Held(next) - Held(q.pc)
  {
    var xs := Ensured(f.executions, q.task, q.own);
    EnsuredFrame(f.executions, q.task, q.own, q.task);
    match q.pc.work
    case Take(bound, _) => ChangedPending(xs, q.task, bound, 0.0);
    case Look(_) =>
    case Pay(bound, charged) => ChangedPending(xs, q.task, -bound, charged);
  }

  lemma PendingStep(f0: File, s: State, a: Action, t: State)
    requires Exclusive(s) && PendingBooks(f0, s) && Does(s, a, t)
    ensures PendingBooks(f0, t)
  {
    InFlightAllUpdate(s.processes, a.p, t.processes[a.p]);
    if a.Store? {
      StorePending(s.file, s.processes[a.p]);
    }
  }

  lemma InvStep(f0: File, s: State, a: Action, t: State)
    requires Inv(f0, s) && Does(s, a, t)
    ensures Inv(f0, t)
  {
    ExclusiveStep(s, a, t);
    ProcessesStep(s, a, t);
    CapsStep(s, a, t);
    PendingStep(f0, s, a, t);
    forall task ensures Books(f0, t, task) {
      BooksStep(f0, s, a, t, task);
    }
  }

  lemma {:induction false} RunInv(trace: seq<State>, i: nat)
    requires IsRun(trace) && i < |trace|
    ensures Inv(trace[0].file, trace[i])
  {
    if i == 0 {
      InitInv(trace[0]);
    } else {
      RunInv(trace, i - 1);
      assert Step(trace[i-1], trace[i-1+1]);
      var a :| Does(trace[i-1], a, trace[i]);
      InvStep(trace[0].file, trace[i-1], a, trace[i]);
    }
  }

  // ---------------------------------------------------------------- main results

  /** Two processes are never inside a transaction together, alive or dead. */
  lemma OneWriter(trace: seq<State>, i: nat, p: nat, q: nat)
    requires IsRun(trace) && i < |trace|
    requires p < |trace[i].processes| && q < |trace[i].processes|
    requires InTransaction(trace[i].processes[p].pc) && InTransaction(trace[i].processes[q].pc)
    ensures p == q
  {
    RunInv(trace, i);
  }

  /** No update is lost: in every reachable file the reservation of a task is what it was
      plus the bounds still in flight, and both totals have moved by the stored payments. */
  lemma BooksBalance(trace: seq<State>, i: nat, task: string)
    requires IsRun(trace) && i < |trace|
    ensures var f, g := trace[0].file, trace[i].file;
            && Reserved(g.executions, task) == Reserved(f.executions, task) + InFlight(trace[i].processes, task)
            && Delta(g.executions, task) == Delta(f.executions, task) + Paid(trace[i].payments, task)
            && g.cumulative == f.cumulative + PaidAll(trace[i].payments)
            && AllPending(g.executions) == AllPending(f.executions) + InFlightAll(trace[i].processes)
  {
    RunInv(trace, i);
    assert Books(trace[0].file, trace[i], task);
  }

  /** Neither a task's limit nor the shared limit is ever exceeded by what was spent plus
      what is reserved, including reservations no one will ever settle, by more than the
      stored settlements went over their bounds. */
  lemma NeverOverspent(trace: seq<State>, i: nat)
    requires IsRun(trace) && i < |trace|
    ensures WithinCaps(trace[i].file, trace[i].payments)
  {
    RunInv(trace, i);
  }

  /** Admission over whole runs: a process that asks for a bound is granted it if and only if
      the bound fits beside all that was paid and all that is in flight for its task, within
      its own limit and that of the entry, and beside all that was paid and is in flight for
      any task within the limit of the file. */
  lemma GrantedIff(trace: seq<State>, i: nat, p: nat, bound: real, unsettled: real)
    requires IsRun(trace) && i + 1 < |trace| && Does(trace[i], Store(p), trace[i+1])
    requires trace[i].processes[p].pc.work == Take(bound, unsettled)
    ensures var f, s, q := trace[0].file, trace[i], trace[i].processes[p];
            var used := Delta(f.executions, q.task) + Paid(s.payments, q.task)
                        + Reserved(f.executions, q.task) + InFlight(s.processes, q.task);
            var all := f.cumulative + PaidAll(s.payments) + AllPending(f.executions) + InFlightAll(s.processes);
            trace[i+1].processes[p].pc == Stored(Take(bound, unsettled)) <==>
            && used + bound <= q.own && all + unsettled + bound <= s.file.limit
            && forall k: nat :: EntryAt(s.file.executions, q.task, k) ==> used + bound <= s.file.executions[k].limit
  {
    RunInv(trace, i);
    var q := trace[i].processes[p];
    BooksBalance(trace, i, q.task);
    ReserveIff(trace[i].file, q.task, q.own, bound, unsettled);
  }

  /** A writer that dies inside a transaction freezes the ledger: nobody reclaims its
      directory, so no later state changes the file. */
  lemma {:induction false} DeadWriterFreezes(trace: seq<State>, i: nat, j: nat, p: nat)
    requires IsRun(trace) && i <= j < |trace|
    requires p < |trace[i].processes| && trace[i].processes[p].dead && InTransaction(trace[i].processes[p].pc)
    ensures trace[j].file == trace[i].file && trace[j].holder == Some(p)
    ensures |trace[j].processes| == |trace[i].processes| && trace[j].processes[p] == trace[i].processes[p]
    decreases j
  {
    if i < j {
      DeadWriterFreezes(trace, i, j - 1, p);
      FrozenNext(trace, j, p);
    } else {
      RunInv(trace, i);
      HolderIs(trace[i], p);
    }
  }

  lemma HolderIs(s: State, p: nat)
    requires Exclusive(s) && p < |s.processes| && InTransaction(s.processes[p].pc)
    ensures s.holder == Some(p)
  {
  }

  lemma FrozenNext(trace: seq<State>, j: nat, p: nat)
    requires IsRun(trace) && 0 < j < |trace|
    requires p < |trace[j-1].processes| && trace[j-1].processes[p].dead && InTransaction(trace[j-1].processes[p].pc)
    ensures trace[j].file == trace[j-1].file && trace[j].holder == trace[j-1].holder
    ensures |trace[j].processes| == |trace[j-1].processes| && trace[j].processes[p] == trace[j-1].processes[p]
  {
    RunInv(trace, j - 1);
    assert Step(trace[j-1], trace[j-1+1]);
    var a :| Does(trace[j-1], a, trace[j]);
    FrozenStep(trace[j-1], a, trace[j], p);
  }

  lemma FrozenStep(s: State, a: Action, t: State, p: nat)
    requires Exclusive(s) && Does(s, a, t)
    requires p < |s.processes| && s.processes[p].dead && InTransaction(s.processes[p].pc)
    ensures t.file == s.file && t.holder == s.holder == Some(p)
    ensures |t.processes| == |s.processes| && t.processes[p] == s.processes[p]
  {
    assert a.p != p && !InTransaction(s.processes[a.p].pc);
  }

  // ---------------------------------------------------------------- abandoned reservations

  /** Nobody will settle for this process any more. */
  predicate Abandons(q: Process) {
    q.dead || q.pc.Stuck?
  }

  /** What the abandoned processes of a task still hold. */
  function Abandoned(ps: seq<Process>, task: string): real {
    if ps == [] then 0.0
    else (if ps[0].task == task && Abandons(ps[0]) then Held(ps[0].pc) else 0.0) + Abandoned(ps[1..], task)
  }

  predicate AllHold(ps: seq<Process>) {
    forall p :: 0 <= p < |ps| ==> Held(ps[p].pc) >= 0.0
  }

  lemma ProcessesHold(s: State)
    requires ProcessesOk(s)
    ensures AllHold(s.processes)
  {
  }

  /** A later list of the same processes: what was abandoned still is, and holds the same; the
      only change to a stuck process is that it may still be killed. */
  predicate Later(ps: seq<Process>, qs: seq<Process>) {
    |ps| == |qs| && forall p :: 0 <= p < |ps| ==>
      qs[p].task == ps[p].task && (Abandons(ps[p]) ==> Abandons(qs[p]) && qs[p].pc == ps[p].pc)
  }

  lemma {:induction false} AbandonedGrows(ps: seq<Process>, qs: seq<Process>, task: string)
    requires Later(ps, qs) && AllHold(qs)
    ensures Abandoned(ps, task) <= Abandoned(qs, task)
  {
    if ps != [] {
      AbandonedGrows(ps[1..], qs[1..], task);
    }
  }

  lemma {:induction false} AbandonedInFlight(ps: seq<Process>, task: string)
    requires AllHold(ps)
    ensures 0.0 <= Abandoned(ps, task) <= InFlight(ps, task)
  {
    if ps != [] {
      AbandonedInFlight(ps[1..], task);
    }
  }

  lemma {:induction false} NothingRevives(trace: seq<State>, i: nat, j: nat)
    requires IsRun(trace) && i <= j < |trace|
    ensures Later(trace[i].processes, trace[j].processes)
    decreases j
  {
    if i < j {
      NothingRevives(trace, i, j - 1);
      assert Step(trace[j-1], trace[j-1+1]);
      var a :| Does(trace[j-1], a, trace[j]);
    }
  }

  /** Abandoned reservations stay in the file for good: whatever happens later, the file
      reserves at least what it did at the start and, on top, all that was held by the
      processes dead or stuck at any earlier moment. */
  lemma AbandonedIsForever(trace: seq<State>, i: nat, j: nat, task: string)
    requires IsRun(trace) && i <= j < |trace|
    ensures Reserved(trace[j].file.executions, task)
         >= Reserved(trace[0].file.executions, task) + Abandoned(trace[i].processes, task)
  {
    RunInv(trace, j);
    BooksBalance(trace, j, task);
    NothingRevives(trace, i, j);
    ProcessesHold(trace[j]);
    AbandonedGrows(trace[i].processes, trace[j].processes, task);
    AbandonedInFlight(trace[j].processes, task);
  }

  /** One abandoned reservation: the bound of a process that gave up its settlement, or died
      while dispatching, is part of the file's reservation in every later state. */
  lemma StuckIsForever(trace: seq<State>, i: nat, j: nat, p: nat, bound: real)
    requires IsRun(trace) && i <= j < |trace| && p < |trace[i].processes|
    requires trace[i].processes[p].pc == Stuck(bound)
          || (trace[i].processes[p].pc == Active(bound) && trace[i].processes[p].dead)
    ensures var task := trace[i].processes[p].task;
            Reserved(trace[j].file.executions, task) >= Reserved(trace[0].file.executions, task) + bound
  {
    var task := trace[i].processes[p].task;
    RunInv(trace, i);
    ProcessesHold(trace[i]);
    OneOfAbandoned(trace[i].processes, p, task);
    AbandonedIsForever(trace, i, j, task);
  }

  lemma {:induction false} OneOfAbandoned(ps: seq<Process>, p: nat, task: string)
    requires p < |ps| && ps[p].task == task && Abandons(ps[p]) && AllHold(ps)
    ensures Abandoned(ps, task) >= Held(ps[p].pc)
  {
    AbandonedInFlight(ps[1..], task);
    if p > 0 {
      OneOfAbandoned(ps[1..], p - 1, task);
    }
  }
}
