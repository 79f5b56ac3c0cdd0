/**
 Many dispatches at once: processes that interleave the steps of their transactions on the
 shared spend file with the calls they make to the spend guard in between.

 A process that holds a reservation in the file asks the guard for a grant, sends, and settles
 with the guard; only then may it begin the transaction that closes its reservation, with the
 charge it has decided. It may die, be interrupted, or give up at the lock at any point. The
 result relates the two ledgers in every reachable state.
 */
module DispatchRuns {
  import opened Wrappers
  import F = SpendLedger
  import G = SpendGuard
  import O = OcrDispatch

  /** How far a process is with the guard: row k was granted, or the dispatch is decided, with
      what the file is to be charged and what the guard keeps. */
  datatype Job = Fresh | Granted(k: nat, id: string) | Decided(charged: real, kept: real)

  /** `kept` is the history of what the guard kept for each stored payment. `clean` holds until
      an interrupt strikes where the charge differs from what the guard keeps. */
  datatype State = State(ledger: F.State, table: G.Table, jobs: seq<Job>, kept: seq<real>, clean: bool)

  datatype Action =
    | Ledger(a: F.Action)
    | Grant(p: nat, run: string, provider: string, id: string)
    | Deliver(p: nat, amount: real)
    | Doubt(p: nat)
    | Cut(p: nat, read: real)

  /** The process stores the payment that closes its reservation. */
  predicate ClosesBy(s: State, a: F.Action) {
    && a.Store? && a.p < |s.ledger.processes|
    && s.ledger.processes[a.p].pc.Loaded? && s.ledger.processes[a.p].pc.work.Pay?
  }

  function KeptOf(job: Job): real {
    if job.Decided? then job.kept else 0.0
  }

  predicate DoesLedger(s: State, a: F.Action, t: State) {
    && F.Does(s.ledger, a, t.ledger) && |s.jobs| == |s.ledger.processes|
    && (a.Begin? && a.work.Pay? ==> s.jobs[a.p].Decided? && a.work.charged == s.jobs[a.p].charged)
    && t == s.(ledger := t.ledger,
               jobs := if ClosesBy(s, a) then s.jobs[a.p := Fresh] else s.jobs,
               kept := if ClosesBy(s, a) then s.kept + [KeptOf(s.jobs[a.p])] else s.kept)
  }

  /** A live process that is dispatching under its reservation. */
  predicate Dispatching(s: State, p: nat) {
    && p < |s.ledger.processes| && p < |s.jobs|
    && !s.ledger.processes[p].dead && s.ledger.processes[p].pc.Active?
  }

  function BoundOf(s: State, p: nat): real
    requires Dispatching(s, p)
  {
    s.ledger.processes[p].pc.bound
  }

  predicate DoesGrant(s: State, p: nat, run: string, provider: string, id: string, t: State) {
    && Dispatching(s, p) && s.jobs[p].Fresh?
    && var r := G.Reserve(s.table, run, provider, id, BoundOf(s, p));
       t == if r.Success? then s.(table := r.value, jobs := s.jobs[p := Granted(|s.table.rows|, id)])
            else s.(jobs := s.jobs[p := Decided(0.0, 0.0)])
  }

  /** Settling with the guard: at the amount of an acceptable receipt, or in doubt. */
  predicate DoesSettle(s: State, p: nat, amount: Option<real>, t: State) {
    && Dispatching(s, p) && s.jobs[p].Granted?
    && (amount.Some? ==> 0.0 <= amount.value <= BoundOf(s, p))
    && var r := G.Settle(s.table, s.jobs[p].id, amount);
       var c := if amount.Some? then amount.value else BoundOf(s, p);
       r.Success? && t == s.(table := r.value, jobs := s.jobs[p := Decided(c, c)])
  }

  /** An interrupt: before the grant nothing is charged; after it the guard keeps the bound, and
      the file is to be charged whatever was read by then. */
  predicate DoesCut(s: State, p: nat, read: real, t: State) {
    && Dispatching(s, p) && !s.jobs[p].Decided?
    && (s.jobs[p].Fresh? ==> read == 0.0)
    && var keeps := if s.jobs[p].Fresh? then 0.0 else BoundOf(s, p);
       t == s.(jobs := s.jobs[p := Decided(read, keeps)], clean := s.clean && read == keeps)
  }

  predicate Does(s: State, a: Action, t: State) {
    match a
    case Ledger(b) => DoesLedger(s, b, t)
    case Grant(p, run, provider, id) => DoesGrant(s, p, run, provider, id, t)
    case Deliver(p, amount) => DoesSettle(s, p, Some(amount), t)
    case Doubt(p) => DoesSettle(s, p, None, t)
    case Cut(p, read) => DoesCut(s, p, read, t)
  }

  predicate Init(s: State) {
    && F.Init(s.ledger) && G.RowsOk(s.table) && |s.jobs| == |s.ledger.processes| && s.kept == [] && s.clean
    && forall p :: 0 <= p < |s.jobs| ==> s.jobs[p].Fresh?
  }

  ghost predicate Step(s: State, t: State) {
    exists a: Action :: Does(s, a, t)
  }

  ghost predicate IsRun(trace: seq<State>) {
    && |trace| > 0 && Init(trace[0])
    && forall i :: 0 <= i < |trace| - 1 ==> Step(trace[i], trace[i+1])
  }

  // ---------------------------------------------------------------- what the guard carries

  /** The part of the guard's exposure that belongs to a process. */
  function Share(q: F.Process, job: Job): real {
    match job
    case Fresh => 0.0
    case Granted(_, _) => F.Held(q.pc)
    case Decided(_, kept) => kept
  }

  function Carried(ps: seq<F.Process>, jobs: seq<Job>): real {
    if ps == [] || jobs == [] then 0.0 else Share(ps[0], jobs[0]) + Carried(ps[1..], jobs[1..])
  }

  function Sum(xs: seq<real>): real {
    if xs == [] then 0.0 else Sum(xs[..|xs|-1]) + xs[|xs|-1]
  }

  lemma SumSnoc(xs: seq<real>, x: real)
    ensures Sum(xs + [x]) == Sum(xs) + x
  {
    assert (xs + [x])[..|xs|] == xs;
  }

  lemma {:induction false} CarriedUpdate(ps: seq<F.Process>, jobs: seq<Job>, p: nat, q: F.Process, job: Job)
    requires p < |ps| == |jobs|
    ensures Carried(ps[p := q], jobs[p := job]) == Carried(ps, jobs) + Share(q, job) - Share(ps[p], jobs[p])
  {
    if p == 0 {
      assert ps[0 := q][1..] == ps[1..] && jobs[0 := job][1..] == jobs[1..];
    } else {
      assert ps[p := q][1..] == ps[1..][p-1 := q] && jobs[p := job][1..] == jobs[1..][p-1 := job];
      CarriedUpdate(ps[1..], jobs[1..], p - 1, q, job);
    }
  }

  lemma {:induction false} CarriedNone(ps: seq<F.Process>, jobs: seq<Job>)
    requires forall p :: 0 <= p < |jobs| ==> jobs[p].Fresh?
    ensures Carried(ps, jobs) == 0.0
  {
    if ps != [] && jobs != [] {
      CarriedNone(ps[1..], jobs[1..]);
    }
  }

  // ---------------------------------------------------------------- the invariant

  function PayOf(pc: F.Pc): Option<F.Work> {
    match pc
    case Wants(w) => if w.Pay? then Some(w) else None
    case Locked(w) => if w.Pay? then Some(w) else None
    case Loaded(w, _) => if w.Pay? then Some(w) else None
    case _ => None
  }

  /** The guard's row of a granted dispatch is still as it was inserted. */
  predicate RowHeld(table: G.Table, k: nat, id: string, bound: real) {
    && k < |table.rows| && G.Find(table.rows, id) == k
    && table.rows[k].state == G.Reserved && table.rows[k].bound == bound && table.rows[k].exposure == bound
    && G.Covers(table, G.WholeEvent, table.rows[k].run)
  }

  predicate JobOk(table: G.Table, pc: F.Pc, job: Job) {
    match job
    case Fresh => PayOf(pc).None? && !pc.Stuck?
    case Granted(k, id) => pc.Active? && RowHeld(table, k, id, pc.bound)
    case Decided(charged, kept) =>
      && (pc.Active? || pc.Stuck? || PayOf(pc).Some?)
      && 0.0 <= kept <= F.Held(pc) && (PayOf(pc).Some? ==> PayOf(pc).value.charged == charged)
  }

  predicate JobsOk(s: State) {
    && |s.jobs| == |s.ledger.processes|
    && forall p :: 0 <= p < |s.jobs| ==> JobOk(s.table, s.ledger.processes[p].pc, s.jobs[p])
  }

  /** No two granted dispatches share a row. */
  predicate RowsApart(s: State) {
    forall p, q :: 0 <= p < q < |s.jobs| && s.jobs[p].Granted? && s.jobs[q].Granted? ==> s.jobs[p].k != s.jobs[q].k
  }

  predicate CleanOk(s: State) {
    s.clean ==>
      && (forall p :: 0 <= p < |s.jobs| && s.jobs[p].Decided? ==> s.jobs[p].charged == s.jobs[p].kept)
      && Sum(s.kept) == F.PaidAll(s.ledger.payments)
  }

  predicate Exposed(e0: real, s: State) {
    G.Exposure(s.table, G.WholeEvent) == e0 + Carried(s.ledger.processes, s.jobs) + Sum(s.kept)
  }

  ghost predicate Inv(f0: F.File, e0: real, s: State) {
    F.Inv(f0, s.ledger) && G.RowsOk(s.table) && JobsOk(s) && RowsApart(s) && CleanOk(s) && Exposed(e0, s)
  }

  lemma InitInv(s: State)
    requires Init(s)
    ensures Inv(s.ledger.file, G.Exposure(s.table, G.WholeEvent), s)
  {
    F.InitInv(s.ledger);
    CarriedNone(s.ledger.processes, s.jobs);
  }

  // ---------------------------------------------------------------- steps on the file

  /** One process's own step on the file keeps its job in order, and its share unless it closes. */
  lemma LedgerJob(s: State, a: F.Action, t: State)
    requires JobsOk(s) && F.ProcessesOk(s.ledger) && DoesLedger(s, a, t)
    ensures JobOk(t.table, t.ledger.processes[a.p].pc, t.jobs[a.p])
    ensures Share(t.ledger.processes[a.p], t.jobs[a.p])
         == Share(s.ledger.processes[a.p], s.jobs[a.p]) - (if ClosesBy(s, a) then KeptOf(s.jobs[a.p]) else 0.0)
  {
    assert JobOk(s.table, s.ledger.processes[a.p].pc, s.jobs[a.p]);
  }

  /** The other processes and the number of processes stay as they are. */
  lemma LedgerFrame(s: State, a: F.Action, t: State)
    requires DoesLedger(s, a, t)
    ensures |t.ledger.processes| == |s.ledger.processes|
    ensures t.ledger.processes == s.ledger.processes[a.p := t.ledger.processes[a.p]]
    ensures t.jobs == s.jobs[a.p := t.jobs[a.p]]
  {
  }

  lemma LedgerPayments(s: State, a: F.Action, t: State)
    requires DoesLedger(s, a, t)
    ensures if ClosesBy(s, a)
            then t.ledger.payments == s.ledger.payments
                   + [F.Payment(s.ledger.processes[a.p].task, s.ledger.processes[a.p].pc.work.bound,
                                s.ledger.processes[a.p].pc.work.charged)]
            else t.ledger.payments == s.ledger.payments
  {
  }

  lemma LedgerClean(s: State, a: F.Action, t: State)
    requires JobsOk(s) && CleanOk(s) && DoesLedger(s, a, t)
    ensures CleanOk(t)
  {
    LedgerPayments(s, a, t);
    if ClosesBy(s, a) {
      ClosingClean(s, a, t);
    }
  }

  /** A closing payment charges what its dispatch decided. */
  lemma ClosingClean(s: State, a: F.Action, t: State)
    requires JobsOk(s) && CleanOk(s) && DoesLedger(s, a, t) && ClosesBy(s, a)
    ensures CleanOk(t)
  {
    var q := s.ledger.processes[a.p];
    LedgerPayments(s, a, t);
    assert JobOk(s.table, q.pc, s.jobs[a.p]);
    SumSnoc(s.kept, KeptOf(s.jobs[a.p]));
    F.PaidSnoc(s.ledger.payments, F.Payment(q.task, q.pc.work.bound, q.pc.work.charged), "");
  }

  lemma LedgerStep(f0: F.File, e0: real, s: State, a: F.Action, t: State)
    requires Inv(f0, e0, s) && DoesLedger(s, a, t)
    ensures Inv(f0, e0, t)
  {
    F.InvStep(f0, s.ledger, a, t.ledger);
    LedgerJobs(s, a, t);
    LedgerClean(s, a, t);
    LedgerExposed(e0, s, a, t);
  }

  lemma LedgerJobs(s: State, a: F.Action, t: State)
    requires JobsOk(s) && RowsApart(s) && F.ProcessesOk(s.ledger) && DoesLedger(s, a, t)
    ensures JobsOk(t) && RowsApart(t)
  {
    LedgerJob(s, a, t);
    LedgerFrame(s, a, t);
  }

  lemma LedgerExposed(e0: real, s: State, a: F.Action, t: State)
    requires JobsOk(s) && F.ProcessesOk(s.ledger) && Exposed(e0, s) && DoesLedger(s, a, t)
    ensures Exposed(e0, t)
  {
    LedgerJob(s, a, t);
    LedgerFrame(s, a, t);
    CarriedUpdate(s.ledger.processes, s.jobs, a.p, t.ledger.processes[a.p], t.jobs[a.p]);
    if ClosesBy(s, a) {
      SumSnoc(s.kept, KeptOf(s.jobs[a.p]));
    }
  }

  // ---------------------------------------------------------------- steps with the guard

  lemma FindSnoc(rows: seq<G.Charge>, c: G.Charge, id: string)
    requires G.Find(rows, id) < |rows|
    ensures G.Find(rows + [c], id) == G.Find(rows, id)
  {
    G.FindIs(rows + [c], id, G.Find(rows, id));
  }

  lemma FindReplaced(rows: seq<G.Charge>, k: nat, c: G.Charge, id: string)
    requires k < |rows| && c.id == rows[k].id
    ensures G.Find(rows[k := c], id) == G.Find(rows, id)
  {
    G.FindIs(rows[k := c], id, G.Find(rows, id));
  }

  /** A process decides its dispatch; the rows of the others are as they were. */
  lemma DecidedJobs(s: State, p: nat, charged: real, kept: real, t: State)
    requires JobsOk(s) && RowsApart(s) && Dispatching(s, p) && 0.0 <= kept <= BoundOf(s, p)
    requires t.ledger == s.ledger && t.jobs == s.jobs[p := Decided(charged, kept)]
    requires forall o :: 0 <= o < |s.jobs| && o != p ==> JobOk(t.table, s.ledger.processes[o].pc, s.jobs[o])
    ensures JobsOk(t) && RowsApart(t)
  {
  }

  lemma DecidedClean(s: State, p: nat, charged: real, kept: real, t: State)
    requires CleanOk(s) && p < |s.jobs| && t.ledger == s.ledger && t.kept == s.kept
    requires t.jobs == s.jobs[p := Decided(charged, kept)] && (t.clean ==> s.clean && charged == kept)
    ensures CleanOk(t)
  {
  }

  lemma SameTable(s: State)
    requires JobsOk(s)
    ensures forall o :: 0 <= o < |s.jobs| ==> JobOk(s.table, s.ledger.processes[o].pc, s.jobs[o])
  {
  }

  /** A grant gives a new last row, so the rows of the other dispatches are as they were. */
  lemma GrantedRows(s: State, p: nat, run: string, provider: string, id: string, t: State)
    requires G.RowsOk(s.table) && JobsOk(s) && DoesGrant(s, p, run, provider, id, t) && t.jobs[p].Granted?
    ensures G.RowsOk(t.table) && JobsOk(t)
    ensures G.Exposure(t.table, G.WholeEvent) == G.Exposure(s.table, G.WholeEvent) + BoundOf(s, p)
  {
    O.JustReserved(s.table, run, provider, id, BoundOf(s, p));
    forall o | 0 <= o < |t.jobs| ensures JobOk(t.table, t.ledger.processes[o].pc, t.jobs[o]) {
      assert JobOk(s.table, s.ledger.processes[o].pc, s.jobs[o]);
      if o != p && s.jobs[o].Granted? {
        FindSnoc(s.table.rows, t.table.rows[|s.table.rows|], s.jobs[o].id);
      }
    }
  }

  lemma GrantedApart(s: State, p: nat, run: string, provider: string, id: string, t: State)
    requires JobsOk(s) && RowsApart(s) && DoesGrant(s, p, run, provider, id, t) && t.jobs[p].Granted?
    ensures RowsApart(t)
  {
    forall o | 0 <= o < |s.jobs| && s.jobs[o].Granted? ensures s.jobs[o].k < |s.table.rows| {
      assert JobOk(s.table, s.ledger.processes[o].pc, s.jobs[o]);
    }
  }

  lemma GrantStep(f0: F.File, e0: real, s: State, p: nat, run: string, provider: string, id: string, t: State)
    requires Inv(f0, e0, s) && DoesGrant(s, p, run, provider, id, t)
    ensures Inv(f0, e0, t)
  {
    CarriedJob(s, p, t.jobs[p]);
    if t.jobs[p].Granted? {
      GrantedRows(s, p, run, provider, id, t);
      GrantedApart(s, p, run, provider, id, t);
    } else {
      assert F.WorkOk(s.ledger.processes[p].pc);
      SameTable(s);
      DecidedJobs(s, p, 0.0, 0.0, t);
    }
  }

  lemma CarriedJob(s: State, p: nat, job: Job)
    requires p < |s.jobs| == |s.ledger.processes|
    ensures var ps := s.ledger.processes;
            Carried(ps, s.jobs[p := job]) == Carried(ps, s.jobs) + Share(ps[p], job) - Share(ps[p], s.jobs[p])
  {
    var ps := s.ledger.processes;
    CarriedUpdate(ps, s.jobs, p, ps[p], job);
    assert ps[p := ps[p]] == ps;
  }

  lemma SettleRows(s: State, p: nat, amount: Option<real>, t: State)
    requires G.RowsOk(s.table) && JobsOk(s) && RowsApart(s) && DoesSettle(s, p, amount, t)
    ensures G.RowsOk(t.table)
    ensures G.Exposure(t.table, G.WholeEvent) == G.Exposure(s.table, G.WholeEvent) - BoundOf(s, p) + KeptOf(t.jobs[p])
    ensures forall o :: 0 <= o < |s.jobs| && o != p ==> JobOk(t.table, s.ledger.processes[o].pc, s.jobs[o])
  {
    var (k, id) := (s.jobs[p].k, s.jobs[p].id);
    assert JobOk(s.table, s.ledger.processes[p].pc, s.jobs[p]);
    O.SettledRow(s.table, id, amount, k);
    forall o | 0 <= o < |s.jobs| && o != p ensures JobOk(t.table, s.ledger.processes[o].pc, s.jobs[o]) {
      assert JobOk(s.table, s.ledger.processes[o].pc, s.jobs[o]);
      if s.jobs[o].Granted? {
        FindReplaced(s.table.rows, k, t.table.rows[k], s.jobs[o].id);
      }
    }
  }

  lemma SettleStep(f0: F.File, e0: real, s: State, p: nat, amount: Option<real>, t: State)
    requires Inv(f0, e0, s) && DoesSettle(s, p, amount, t)
    ensures Inv(f0, e0, t)
  {
    var c := t.jobs[p].charged;
    assert F.WorkOk(s.ledger.processes[p].pc);
    SettleRows(s, p, amount, t);
    DecidedJobs(s, p, c, c, t);
    DecidedClean(s, p, c, c, t);
    CarriedJob(s, p, t.jobs[p]);
  }

  lemma CutStep(f0: F.File, e0: real, s: State, p: nat, read: real, t: State)
    requires Inv(f0, e0, s) && DoesCut(s, p, read, t)
    ensures Inv(f0, e0, t)
  {
    var keeps := t.jobs[p].kept;
    assert F.WorkOk(s.ledger.processes[p].pc);
    SameTable(s);
    DecidedJobs(s, p, read, keeps, t);
    DecidedClean(s, p, read, keeps, t);
    CarriedJob(s, p, t.jobs[p]);
  }

  lemma InvStep(f0: F.File, e0: real, s: State, a: Action, t: State)
    requires Inv(f0, e0, s) && Does(s, a, t)
    ensures Inv(f0, e0, t)
  {
    match a
    case Ledger(b) => LedgerStep(f0, e0, s, b, t);
    case Grant(p, run, provider, id) => GrantStep(f0, e0, s, p, run, provider, id, t);
    case Deliver(p, amount) => SettleStep(f0, e0, s, p, Some(amount), t);
    case Doubt(p) => SettleStep(f0, e0, s, p, None, t);
    case Cut(p, read) => CutStep(f0, e0, s, p, read, t);
  }

  lemma AnyStep(f0: F.File, e0: real, s: State, t: State)
    requires Inv(f0, e0, s) && Step(s, t)
    ensures Inv(f0, e0, t)
  {
    var a :| Does(s, a, t);
    InvStep(f0, e0, s, a, t);
  }

  lemma {:induction false} RunInv(trace: seq<State>, i: nat)
    requires IsRun(trace) && i < |trace|
    ensures Inv(trace[0].ledger.file, G.Exposure(trace[0].table, G.WholeEvent), trace[i])
  {
    if i == 0 {
      InitInv(trace[0]);
    } else {
      RunInv(trace, i - 1);
      assert Step(trace[i-1], trace[i-1+1]);
      AnyStep(trace[0].ledger.file, G.Exposure(trace[0].table, G.WholeEvent), trace[i-1], trace[i]);
    }
  }

  // ---------------------------------------------------------------- main results

  lemma {:induction false} CarriedInFlight(table: G.Table, ps: seq<F.Process>, jobs: seq<Job>)
    requires |jobs| == |ps| && F.AllHold(ps)
    requires forall p :: 0 <= p < |jobs| ==> JobOk(table, ps[p].pc, jobs[p])
    ensures 0.0 <= Carried(ps, jobs) <= F.InFlightAll(ps)
  {
    if ps != [] {
      assert JobOk(table, ps[0].pc, jobs[0]);
      CarriedInFlight(table, ps[1..], jobs[1..]);
    }
  }

  function Spent(s: State): real {
    s.ledger.file.cumulative
  }

  function Reserved(s: State): real {
    F.AllPending(s.ledger.file.executions)
  }

  function Exposure(s: State): real {
    G.Exposure(s.table, G.WholeEvent)
  }

  /** In every reachable state, dead and stuck processes included, the guard's exposure has
      grown by what it kept for the stored payments and, beyond that, by at most the growth of
      the spend file's reservations. */
  lemma LedgersBracket(trace: seq<State>, i: nat)
    requires IsRun(trace) && i < |trace|
    ensures var (s0, s) := (trace[0], trace[i]);
            && Sum(s.kept) <= Exposure(s) - Exposure(s0) <= Sum(s.kept) + Reserved(s) - Reserved(s0)
            && Spent(s) - Spent(s0) == F.PaidAll(s.ledger.payments)
  {
    var s := trace[i];
    RunInv(trace, i);
    F.ProcessesHold(s.ledger);
    CarriedInFlight(s.table, s.ledger.processes, s.jobs);
    assert F.Books(trace[0].ledger.file, s.ledger, "");
  }

  /** Until an interrupt strikes between a grant and its settlement, the spend file brackets the
      guard: what it has spent is at most what the guard counts, and what it has spent or
      reserved is at least that. */
  lemma FileBracketsGuard(trace: seq<State>, i: nat)
    requires IsRun(trace) && i < |trace| && trace[i].clean
    ensures var (s0, s) := (trace[0], trace[i]);
            Spent(s) - Spent(s0) <= Exposure(s) - Exposure(s0) <= Spent(s) + Reserved(s) - Spent(s0) - Reserved(s0)
  {
    RunInv(trace, i);
    LedgersBracket(trace, i);
  }

  predicate Quiet(s: State) {
    forall p :: 0 <= p < |s.ledger.processes| ==> F.Held(s.ledger.processes[p].pc) == 0.0
  }

  /** When no process holds a reservation any more, the ledgers have moved apart by exactly what
      the guard kept beyond the charges of the stored payments: by nothing, if no interrupt
      struck between a grant and its settlement. */
  lemma QuietLedgersAgree(trace: seq<State>, i: nat)
    requires IsRun(trace) && i < |trace| && Quiet(trace[i])
    ensures var (s0, s) := (trace[0], trace[i]);
            && (Exposure(s) - Exposure(s0)) - (Spent(s) - Spent(s0)) == Sum(s.kept) - F.PaidAll(s.ledger.payments)
            && (s.clean ==> Exposure(s) - Exposure(s0) == Spent(s) - Spent(s0))
  {
    RunInv(trace, i);
    LedgersBracket(trace, i);
    F.InFlightAllNone(trace[i].ledger.processes);
  }
}
