/**
 One paid OCR dispatch under two independent money fences: the shared spend file and the
 spend guard. `Dispatch` follows the try / except / finally of the source; its contract
 says what both ledgers contain for every way a dispatch can end.
 */
module OcrDispatch {
  import opened Wrappers
  import F = SpendLedger
  import G = SpendGuard

  // ---------------------------------------------------------------- waiting for a reservation

  const PATIENCE: real := 120.0

  /** What one attempt meets: the file it tries to reserve on, the file it looks at after a
      refusal, and the clock after the look. Other processes change the file in between. A
      transaction that gives up at the lock meets no file. */
  datatype Attempt = Attempt(tried: Option<F.File>, unsettled: real, looked: Option<F.File>, clock: real)

  datatype Verdict = Reserved(file: F.File) | Refused(denial: F.Denial) | LockHeld

  function Tries(a: Attempt, task: string, own: real, bound: real): Verdict {
    if a.tried.None? then LockHeld
    else
      match F.Reserve(a.tried.value, task, own, bound, a.unsettled)
      case Success(file) => Reserved(file)
      case Failure(denial) => Refused(denial)
  }

  /** An attempt ends with what it tried, or with the lock if the look after it gives up. */
  function EndsWith(a: Attempt, task: string, own: real, bound: real): Verdict {
    if Tries(a, task, own, bound) == Refused(F.Exhausted) && a.looked.None? then LockHeld
    else Tries(a, task, own, bound)
  }

  /** An attempt is repeated exactly when its bound did not fit the task, reservations that
      could settle exist, the bound would fit without them, and the deadline has not passed. */
  ghost predicate WorthWaiting(a: Attempt, task: string, own: real, bound: real, deadline: real) {
    && a.tried.Some? && !F.Fits(a.tried.value, task, own, bound) && a.looked.Some?
    && F.Reserved(a.looked.value.executions, task) > 0.0
    && F.Delta(a.looked.value.executions, task) + bound <= own
    && a.clock < deadline
  }

  /** The retry loop: it settles on the first attempt that is not worth repeating. That attempt
      is granted if and only if the bound fits the file it tried. The clock reaches the
      deadline some time. */
  method ReserveOrWait(attempts: seq<Attempt>, task: string, own: real, bound: real, start: real)
      returns (k: nat, verdict: Verdict)
    requires exists i :: 0 <= i < |attempts| && attempts[i].clock >= start + PATIENCE
    ensures k < |attempts| && !WorthWaiting(attempts[k], task, own, bound, start + 120.0)
    ensures forall i :: 0 <= i < k ==> WorthWaiting(attempts[i], task, own, bound, start + 120.0)
    ensures verdict == EndsWith(attempts[k], task, own, bound)
    ensures var (a, fits) := (attempts[k], attempts[k].tried.Some? && F.Fits(attempts[k].tried.value, task, own, bound));
            && (verdict.Reserved? <==> fits && F.FitsAll(a.tried.value, bound, a.unsettled))
            && (verdict == Refused(F.CumulativeExhausted) <==> fits && !F.FitsAll(a.tried.value, bound, a.unsettled))
            && (verdict == Refused(F.Exhausted) <==> a.tried.Some? && !fits && a.looked.Some?)
  {
    var deadline := start + PATIENCE;
    k := 0;
    while true
      invariant k < |attempts|
      invariant forall i :: 0 <= i < k ==> WorthWaiting(attempts[i], task, own, bound, deadline)
      decreases |attempts| - k
    {
      if attempts[k].tried.Some? {
        TriesIff(attempts[k], task, own, bound);
      }
      verdict := Tries(attempts[k], task, own, bound);
      if verdict != Refused(F.Exhausted) {
        return;
      }
      if attempts[k].looked.None? {
        return k, LockHeld;
      }
      F.EnsuredFrame(attempts[k].looked.value.executions, task, own, task);
      var xs := F.Peek(attempts[k].looked.value, task, own).executions;
      var active := F.Reserved(xs, task) > 0.0;
      var affordable := F.Delta(xs, task) + bound <= own;
      if !active || !affordable || attempts[k].clock >= deadline {
        return;
      }
      assert WorthWaiting(attempts[k], task, own, bound, deadline);
      k := k + 1;
    }
  }

  lemma TriesIff(a: Attempt, task: string, own: real, bound: real)
    requires a.tried.Some?
    ensures var fits, fitsAll := F.Fits(a.tried.value, task, own, bound), F.FitsAll(a.tried.value, bound, a.unsettled);
            && (Tries(a, task, own, bound).Reserved? <==> fits && fitsAll)
            && (Tries(a, task, own, bound) == Refused(F.Exhausted) <==> !fits)
            && (Tries(a, task, own, bound) == Refused(F.CumulativeExhausted) <==> fits && !fitsAll)
  {
    F.ReserveIff(a.tried.value, task, own, bound, a.unsettled);
  }

  // ---------------------------------------------------------------- one dispatch

  /** `actual` is None when the receipt carries no readable amount. */
  datatype Transport = Returned(receiptMatches: bool, actual: Option<real>) | Raised

  /** Where an interrupt, which the source does not catch, strikes. A point that a dispatch
      does not come through has no effect. */
  datatype Cut =
    | Nowhere
    | BeforeTry        // reserved in the spend file, not yet under `finally`
    | BeforeGrant      // before the spend guard has granted
    | BeforeReceipt    // granted; the amount of the receipt is not yet read
    | AfterReceipt     // amount read, not yet checked and settled
    | BeforeFallback   // after a failure, before the whole bound is charged
    | BeforeUncertain  // bound charged, guard not yet told

  datatype Ending =
    | NotReserved              // the spend file refused
    | Left                     // reserved, and never closed
    | NotGranted               // the spend guard did not grant; nothing was sent
    | Delivered(amount: real)
    | Uncertain                // sent, but no acceptable receipt
    | Aborted(read: real)      // interrupted after the grant

  /** What the closing transaction charges. */
  function Charged(ending: Ending, bound: real): real {
    match ending
    case Delivered(amount) => amount
    case Uncertain => bound
    case Aborted(read) => read
    case _ => 0.0
  }

  /** What the spend guard keeps. */
  function Kept(ending: Ending, bound: real): real {
    match ending
    case Delivered(amount) => amount
    case Uncertain => bound
    case Aborted(_) => bound
    case _ => 0.0
  }

  predicate Readable(t: Transport) {
    t.Returned? && t.receiptMatches && t.actual.Some?
  }

  predicate Acceptable(t: Transport, bound: real) {
    Readable(t) && 0.0 <= t.actual.value <= bound
  }

  /** The charge so far when a failure is handled. */
  function Read(t: Transport): real {
    if Readable(t) then t.actual.value else 0.0
  }

  /** How a granted dispatch ends. */
  function GrantedEnding(bound: real, transport: Transport, cut: Cut): Ending {
    if cut.BeforeReceipt? then Aborted(0.0)
    else if cut.AfterReceipt? && Readable(transport) then Aborted(transport.actual.value)
    else if Acceptable(transport, bound) then Delivered(transport.actual.value)
    else if cut.BeforeFallback? then Aborted(Read(transport))
    else if cut.BeforeUncertain? then Aborted(bound)
    else Uncertain
  }

  predicate Grants(t: G.Table, run: string, provider: string, id: string, bound: real, cut: Cut) {
    !cut.BeforeTry? && !cut.BeforeGrant? && G.Reserve(t, run, provider, id, bound).Success?
  }

  function EndingOf(t: G.Table, run: string, provider: string, id: string, bound: real,
                    transport: Transport, cut: Cut): (ending: Ending)
    ensures !ending.NotReserved?
  {
    if cut.BeforeTry? then Left
    else if !Grants(t, run, provider, id, bound, cut) then NotGranted
    else GrantedEnding(bound, transport, cut)
  }

  /** What an ending tells the guard: an amount, that it is uncertain, or nothing. */
  function Told(u: G.Table, id: string, ending: Ending): G.Table {
    if ending.Delivered? || ending.Uncertain? then
      var r := G.Settle(u, id, if ending.Delivered? then Some(ending.amount) else None);
      if r.Success? then r.value else u
    else u
  }

  /** The spend guard's table after a dispatch. */
  function GuardAfter(t: G.Table, run: string, provider: string, id: string, bound: real,
                      transport: Transport, cut: Cut): G.Table {
    if Grants(t, run, provider, id, bound, cut)
    then Told(G.Reserve(t, run, provider, id, bound).value, id, GrantedEnding(bound, transport, cut))
    else t
  }

  /** Whether the closing transaction runs and stores. */
  predicate Closes(ending: Ending, stores: bool) {
    stores && !ending.NotReserved? && !ending.Left?
  }

  /** The spend file after a dispatch. `between` is what other processes make of it while the
      dispatch is under way; `stores` is false when the closing transaction gives up waiting
      for the lock, or is killed before it replaces the file. */
  function FileAfter(f: F.File, task: string, own: real, bound: real, unsettled: real, ending: Ending,
                     between: F.File -> F.File, stores: bool): F.File {
    match F.Reserve(f, task, own, bound, unsettled)
    case Failure(_) => f
    case Success(g) =>
      if Closes(ending, stores) then F.Settle(between(g), task, own, bound, Charged(ending, bound)) else between(g)
  }

  class OcrBudget {
    const task: string
    const own: real
    const run: string
    const guard: G.Guard
    var file: F.File

    constructor (task: string, own: real, run: string, guard: G.Guard, file: F.File)
      ensures this.task == task && this.own == own && this.run == run && this.guard == guard && this.file == file
    {
      this.task, this.own, this.run, this.guard, this.file := task, own, run, guard, file;
    }

    /** The except block, after the guard has granted and the call was sent. */
    method Fallback(id: string, bound: real, read: real, cut: Cut) returns (ending: Ending)
      requires !cut.BeforeFallback? && !cut.BeforeUncertain? ==> G.Settle(guard.table, id, None).Success?
      modifies guard
      ensures ending == if cut.BeforeFallback? then Aborted(read)
                        else if cut.BeforeUncertain? then Aborted(bound) else Uncertain
      ensures guard.table == Told(old(guard.table), id, ending)
    {
      if cut.BeforeFallback? {
        return Aborted(read);
      }
      if cut.BeforeUncertain? {
        return Aborted(bound);
      }
      var s := guard.DoSettle(id, None);
      ending := Uncertain;
    }

    /** Everything after the guard has granted. */
    method Receive(id: string, bound: real, transport: Transport, cut: Cut) returns (ending: Ending)
      requires G.Settle(guard.table, id, None).Success?
      requires Acceptable(transport, bound) ==> G.Settle(guard.table, id, transport.actual).Success?
      modifies guard
      ensures ending == GrantedEnding(bound, transport, cut)
      ensures guard.table == Told(old(guard.table), id, ending)
    {
      if cut.BeforeReceipt? {
        return Aborted(0.0);
      }
      var charged := 0.0;
      if transport.Returned? && transport.receiptMatches && transport.actual.Some? {
        charged := transport.actual.value;
        if cut.AfterReceipt? {
          return Aborted(charged);
        }
        if 0.0 <= charged <= bound {
          var s := guard.DoSettle(id, Some(charged));
          return Delivered(charged);
        }
      }
      ending := Fallback(id, bound, charged, cut);
    }

    /** The try and except blocks. */
    method Send(provider: string, id: string, bound: real, transport: Transport, cut: Cut) returns (ending: Ending)
      requires bound > 0.0 && G.RowsOk(guard.table) && !cut.BeforeTry?
      modifies guard
      ensures ending == EndingOf(old(guard.table), run, provider, id, bound, transport, cut)
      ensures guard.table == GuardAfter(old(guard.table), run, provider, id, bound, transport, cut)
    {
      if cut.BeforeGrant? {
        return NotGranted;
      }
      ghost var before := guard.table;
      var r := guard.DoReserve(run, provider, id, bound);
      if r.Failure? {
        return NotGranted;
      }
      Settleable(before, run, provider, id, bound, transport);
      ending := Receive(id, bound, transport, cut);
    }

    /** A whole dispatch: reserve, send, and close the spend file's reservation in any case
        that the closing transaction survives. */
    method Dispatch(provider: string, id: string, bound: real, unsettled: real, transport: Transport, cut: Cut,
                    between: F.File -> F.File, stores: bool) returns (ending: Ending)
      requires bound > 0.0 && G.RowsOk(guard.table)
      modifies this, guard
      ensures file == FileAfter(old(file), task, own, bound, unsettled, ending, between, stores)
      ensures ending.NotReserved? <==> !(F.Fits(old(file), task, own, bound) && F.FitsAll(old(file), bound, unsettled))
      ensures ending.NotReserved? ==> guard.table == old(guard.table)
      ensures !ending.NotReserved? ==>
                && ending == EndingOf(old(guard.table), run, provider, id, bound, transport, cut)
                && guard.table == GuardAfter(old(guard.table), run, provider, id, bound, transport, cut)
    {
      F.ReserveIff(file, task, own, bound, unsettled);
      var granted := F.Reserve(file, task, own, bound, unsettled);
      if granted.Failure? {
        return NotReserved;
      }
      file := granted.value;
      if cut.BeforeTry? {
        file := between(file);
        return Left;
      }
      ending := Send(provider, id, bound, transport, cut);
      file := between(file);
      if stores {
        file := F.Settle(file, task, own, bound, Charged(ending, bound));
      }
    }
  }

  // ---------------------------------------------------------------- what a dispatch leaves

  /** The interrupt strikes a granted dispatch: before it is settled, or before its failure is. */
  predicate Strikes(transport: Transport, cut: Cut, bound: real) {
    match cut
    case BeforeReceipt => true
    case AfterReceipt => Readable(transport)
    case BeforeFallback => !Acceptable(transport, bound)
    case BeforeUncertain => !Acceptable(transport, bound)
    case _ => false
  }

  /** How a dispatch that was granted ends: aborted exactly if an interrupt strikes, with nothing
      charged before the receipt is read, the amount read after it, and the whole bound once the
      failure has charged it; else delivered exactly with a matching receipt of an amount between
      zero and the bound; else uncertain. */
  lemma EndingIff(t: G.Table, run: string, provider: string, id: string, bound: real, transport: Transport, cut: Cut)
    requires Grants(t, run, provider, id, bound, cut)
    ensures var ending := EndingOf(t, run, provider, id, bound, transport, cut);
            && (ending.Aborted? <==> Strikes(transport, cut, bound))
            && (ending.Uncertain? <==> !ending.Aborted? && !Acceptable(transport, bound))
            && (forall amount :: ending == Delivered(amount) <==>
                  !ending.Aborted? && transport == Returned(true, Some(amount)) && 0.0 <= amount <= bound)
            && (ending.Aborted? ==>
                  Charged(ending, bound) == (if cut.BeforeUncertain? then bound
                                             else if !cut.BeforeReceipt? && transport.Returned? && transport.receiptMatches
                                                     && transport.actual.Some? then transport.actual.value else 0.0))
            && !ending.NotGranted? && !ending.Left?
  {
  }

  /** The charge lies between zero and the bound, unless an interrupt strikes after an amount
      was read and before it was checked, and the amount is not acceptable. */
  lemma ChargedInBoundIff(t: G.Table, run: string, provider: string, id: string, bound: real,
                          transport: Transport, cut: Cut)
    requires bound > 0.0
    ensures 0.0 <= Charged(EndingOf(t, run, provider, id, bound, transport, cut), bound) <= bound
       <==> !(&& Grants(t, run, provider, id, bound, cut) && (cut.AfterReceipt? || cut.BeforeFallback?)
              && Readable(transport) && !Acceptable(transport, bound))
  {
  }

  /** After a grant every settlement a dispatch may ask for succeeds. */
  lemma Settleable(t: G.Table, run: string, provider: string, id: string, bound: real, transport: Transport)
    requires G.RowsOk(t) && G.Reserve(t, run, provider, id, bound).Success?
    ensures var u := G.Reserve(t, run, provider, id, bound).value;
            && G.Settle(u, id, None).Success?
            && (Acceptable(transport, bound) ==> G.Settle(u, id, transport.actual).Success?)
  {
    ReservedRow(t, run, provider, id, bound, None);
    if Acceptable(transport, bound) {
      ReservedRow(t, run, provider, id, bound, transport.actual);
    }
  }

  function RowOf(id: string, run: string, provider: string, bound: real, ending: Ending): G.Charge {
    G.Charge(id, run, provider, bound, Kept(ending, bound),
             if ending.Delivered? then G.Settled else if ending.Uncertain? then G.Uncertain else G.Reserved)
  }

  lemma ToldRow(t: G.Table, run: string, provider: string, id: string, bound: real, ending: Ending)
    requires G.RowsOk(t) && G.Reserve(t, run, provider, id, bound).Success?
    requires ending.Uncertain? || ending.Aborted? || (ending.Delivered? && 0.0 <= ending.amount <= bound)
    ensures var u := Told(G.Reserve(t, run, provider, id, bound).value, id, ending);
            && G.RowsOk(u) && u.rows == t.rows + [RowOf(id, run, provider, bound, ending)]
            && G.Exposure(u, G.WholeEvent) == G.Exposure(t, G.WholeEvent) + Kept(ending, bound)
  {
    if ending.Aborted? {
      JustReserved(t, run, provider, id, bound);
    } else {
      ReservedRow(t, run, provider, id, bound, if ending.Delivered? then Some(ending.amount) else None);
    }
  }

  /** What the guard's table holds after each ending: one new row, or none. */
  lemma GuardRow(t: G.Table, run: string, provider: string, id: string, bound: real, transport: Transport, cut: Cut)
    requires G.RowsOk(t) && bound > 0.0
    ensures var u := GuardAfter(t, run, provider, id, bound, transport, cut);
            var ending := EndingOf(t, run, provider, id, bound, transport, cut);
            && G.RowsOk(u)
            && (if Grants(t, run, provider, id, bound, cut)
                then u.rows == t.rows + [RowOf(id, run, provider, bound, ending)] else u == t)
            && G.Exposure(u, G.WholeEvent) == G.Exposure(t, G.WholeEvent) + Kept(ending, bound)
  {
    if Grants(t, run, provider, id, bound, cut) {
      ToldRow(t, run, provider, id, bound, GrantedEnding(bound, transport, cut));
    }
  }

  /** What the closing transaction does to the file it finds. */
  lemma ClosingMoves(found: F.File, task: string, own: real, bound: real, ending: Ending)
    ensures var g := F.Settle(found, task, own, bound, Charged(ending, bound));
            && F.Reserved(g.executions, task) == F.Reserved(found.executions, task) - bound
            && F.Delta(g.executions, task) == F.Delta(found.executions, task) + Charged(ending, bound)
            && g.cumulative == found.cumulative + Charged(ending, bound)
  {
    F.PayEffect(found, task, own, bound, Charged(ending, bound), task);
  }

  /** The interrupt strikes where the charge and what the guard keeps differ. */
  predicate CutsApart(transport: Transport, cut: Cut, bound: real) {
    || cut.BeforeReceipt?
    || (cut.AfterReceipt? && Readable(transport) && transport.actual.value != bound)
    || (cut.BeforeFallback? && !Acceptable(transport, bound))
  }

  /** The call was delivered at no cost, and settled. */
  predicate FreeDelivery(transport: Transport, cut: Cut, bound: real) {
    Acceptable(transport, bound) && transport.actual.value == 0.0 && !cut.BeforeReceipt? && !cut.AfterReceipt?
  }

  /** What a dispatch adds to the spend file's totals is what it adds to the guard's exposure
      if and only if nothing was granted, or the closing transaction stored and no interrupt
      struck between a grant and its settlement (but at an amount equal to the bound), or it
      did not store and the call was delivered at no cost. */
  lemma LedgersAgreeIff(found: F.File, task: string, own: real, t: G.Table, run: string, provider: string, id: string,
                        bound: real, transport: Transport, cut: Cut, stores: bool)
    requires G.RowsOk(t) && bound > 0.0
    ensures var u := GuardAfter(t, run, provider, id, bound, transport, cut);
            var ending := EndingOf(t, run, provider, id, bound, transport, cut);
            var g := if Closes(ending, stores) then F.Settle(found, task, own, bound, Charged(ending, bound)) else found;
            && g.cumulative - found.cumulative == F.Delta(g.executions, task) - F.Delta(found.executions, task)
            && (G.Exposure(u, G.WholeEvent) - G.Exposure(t, G.WholeEvent) == g.cumulative - found.cumulative
                <==> || !Grants(t, run, provider, id, bound, cut)
                     || (if stores then !CutsApart(transport, cut, bound) else FreeDelivery(transport, cut, bound)))
  {
    var ending := EndingOf(t, run, provider, id, bound, transport, cut);
    GuardRow(t, run, provider, id, bound, transport, cut);
    ClosingMoves(found, task, own, bound, ending);
    KeptIsCharged(bound, transport, cut);
  }

  lemma KeptIsCharged(bound: real, transport: Transport, cut: Cut)
    requires bound > 0.0
    ensures var ending := GrantedEnding(bound, transport, cut);
            && (Kept(ending, bound) == Charged(ending, bound) <==> !CutsApart(transport, cut, bound))
            && (Kept(ending, bound) == 0.0 <==> FreeDelivery(transport, cut, bound))
  {
  }

  const EXAMPLE: G.Table := G.Table("e", 7.0, 7.0, map["r" := G.Pin("e", "d", 1.0, None, 0.0)], [])

  /** The two ledgers move apart on a call of 0.05 under a bound of 0.1. */
  predicate PartOn(found: F.File, cut: Cut, stores: bool) {
    var paid := Returned(true, Some(0.05));
    var u := GuardAfter(EXAMPLE, "r", "ocr", "1", 0.1, paid, cut);
    var ending := EndingOf(EXAMPLE, "r", "ocr", "1", 0.1, paid, cut);
    var g := if Closes(ending, stores) then F.Settle(found, "F1", 0.8, 0.1, Charged(ending, 0.1)) else found;
    G.Exposure(u, G.WholeEvent) - G.Exposure(EXAMPLE, G.WholeEvent) != g.cumulative - found.cumulative
  }

  lemma ExampleGranted()
    ensures G.Reserve(EXAMPLE, "r", "ocr", "1", 0.1).Success?
  {
  }

  lemma PartWhen(found: F.File, cut: Cut, stores: bool)
    requires !cut.BeforeTry? && !cut.BeforeGrant?
    requires !stores || CutsApart(Returned(true, Some(0.05)), cut, 0.1)
    ensures PartOn(found, cut, stores)
  {
    ExampleGranted();
    LedgersAgreeIff(found, "F1", 0.8, EXAMPLE, "r", "ocr", "1", 0.1, Returned(true, Some(0.05)), cut, stores);
  }

  /** A paid call whose closing transaction gives up at the lock, although nothing is
      interrupted: the guard has settled it, the spend file never sees it. */
  lemma GaveUpExample(found: F.File)
    ensures PartOn(found, Nowhere, false)
  {
    PartWhen(found, Nowhere, false);
  }

  /** An interrupt during the call, and one after the receipt was read. */
  lemma InterruptExample(found: F.File, cut: Cut)
    requires cut in {BeforeReceipt, AfterReceipt}
    ensures PartOn(found, cut, true)
  {
    PartWhen(found, cut, true);
  }

  /** An interrupt after a receipt of 0.2 under a bound of 0.1: the closing transaction charges
      the unchecked 0.2, and a file that was within its caps is not any more. */
  lemma OverchargeExample()
    ensures var f := F.File(0.0, 0.1, []);
            var ending := EndingOf(EXAMPLE, "r", "ocr", "1", 0.1, Returned(true, Some(0.2)), AfterReceipt);
            && Charged(ending, 0.1) == 0.2 && F.WithinCaps(f, [])
            && !F.WithinCaps(FileAfter(f, "F1", 0.1, 0.1, 0.0, ending, g => g, true), [])
  {
    var f := F.File(0.0, 0.1, []);
    var ending := EndingOf(EXAMPLE, "r", "ocr", "1", 0.1, Returned(true, Some(0.2)), AfterReceipt);
    ExampleGranted();
    assert ending == Aborted(0.2);
    EmptyFileReserved(f);
    F.FullFileExample(0.1, 0.2);
  }

  lemma EmptyFileReserved(f: F.File)
    requires f == F.File(0.0, 0.1, [])
    ensures F.Reserve(f, "F1", 0.1, 0.1, 0.0) == Success(F.File(0.0, 0.1, [F.Execution("F1", 0.1, 0.0, 0.1)]))
  {
    var xs := [F.Execution("F1", 0.1, 0.0, 0.0)];
    assert F.Ensured([], "F1", 0.1) == xs && xs[1..] == [];
    assert F.AllPending(xs) == 0.0;
    assert F.Changed(xs, "F1", 0.1, 0.0) == [F.Execution("F1", 0.1, 0.0, 0.1)];
  }

  lemma JustReserved(t: G.Table, run: string, provider: string, id: string, bound: real)
    requires G.RowsOk(t) && G.Reserve(t, run, provider, id, bound).Success?
    ensures var u := G.Reserve(t, run, provider, id, bound).value;
            && G.RowsOk(u) && u.rows == t.rows + [G.Charge(id, run, provider, bound, bound, G.Reserved)]
            && G.Find(u.rows, id) == |t.rows| && G.Covers(u, G.WholeEvent, run)
            && G.Exposure(u, G.WholeEvent) == G.Exposure(t, G.WholeEvent) + bound
  {
    var u := G.Reserve(t, run, provider, id, bound).value;
    G.ReserveKeepsRows(t, run, provider, id, bound);
    G.ReserveExposure(t, run, provider, id, bound, G.WholeEvent);
    assert u.rows[|t.rows|].id == id;
  }

  /** Settling a charge that was just reserved always succeeds, and leaves the event with
      exactly the settled amount more (the whole bound when the delivery is uncertain). */
  lemma ReservedRow(t: G.Table, run: string, provider: string, id: string, bound: real, charged: Option<real>)
    requires G.RowsOk(t) && G.Reserve(t, run, provider, id, bound).Success?
    requires charged.Some? ==> 0.0 <= charged.value <= bound
    ensures var u := G.Reserve(t, run, provider, id, bound).value;
            var amount := if charged.None? then bound else charged.value;
            && G.Settle(u, id, charged).Success?
            && var w := G.Settle(u, id, charged).value;
               && w.rows == t.rows + [G.Charge(id, run, provider, bound, amount,
                                               if charged.None? then G.Uncertain else G.Settled)]
               && G.RowsOk(w)
               && G.Exposure(w, G.WholeEvent) == G.Exposure(t, G.WholeEvent) + amount
  {
    JustReserved(t, run, provider, id, bound);
    var u := G.Reserve(t, run, provider, id, bound).value;
    SettledRow(u, id, charged, |t.rows|);
    LastReplaced(t.rows, u.rows[|t.rows|], G.Settle(u, id, charged).value.rows[|t.rows|]);
  }

  lemma LastReplaced(rows: seq<G.Charge>, c: G.Charge, d: G.Charge)
    ensures (rows + [c])[|rows| := d] == rows + [d]
  {
  }

  lemma SettledRow(u: G.Table, id: string, charged: Option<real>, k: nat)
    requires G.RowsOk(u) && k < |u.rows| && G.Find(u.rows, id) == k && u.rows[k].state == G.Reserved
    requires G.Covers(u, G.WholeEvent, u.rows[k].run)
    requires charged.Some? ==> 0.0 <= charged.value <= u.rows[k].bound
    ensures G.Settle(u, id, charged).Success?
    ensures var w := G.Settle(u, id, charged).value;
            var amount := if charged.None? then u.rows[k].bound else charged.value;
            && w.rows == u.rows[k := u.rows[k].(exposure := amount,
                                                state := if charged.None? then G.Uncertain else G.Settled)]
            && G.RowsOk(w)
            && G.Exposure(w, G.WholeEvent) == G.Exposure(u, G.WholeEvent) + amount - u.rows[k].exposure
  {
    var w := G.Settle(u, id, charged).value;
    G.SettleNeverRaises(u, id, charged, G.WholeEvent);
    G.ExposureFrame(u, w, G.WholeEvent, u.rows);
    G.ExposureUpdate(w, G.WholeEvent, u.rows, k, w.rows[k]);
  }
}
