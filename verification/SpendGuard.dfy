/**
 The spend guard: one table of charges shared by every provider call of an event.

 A charge starts at its full bound and may only be settled downwards, or pinned at the
 bound when its delivery is uncertain. The invariant is that no cap (event, day, run or
 run group) is ever exceeded by the exposures it covers, whatever the sequence of calls.
 */
module SpendGuard {
  import opened Wrappers

  datatype State = Reserved | Uncertain | Settled

  datatype Charge = Charge(id: string, run: string, provider: string, bound: real, exposure: real, state: State)

  datatype Pin = Pin(event: string, day: string, cap: real, group: Option<string>, groupCap: real)

  datatype Table = Table(event: string, daily: real, cap: real, runs: map<string, Pin>, rows: seq<Charge>)

  datatype Error = InvalidAmount | InvalidBound | InvalidRun | RunChanged | GroupChanged
                 | RequestChanged | DuplicateDispatch | RunNotConfigured | BudgetExhausted
                 | ReservationMissing | BoundExceeded | SettlementChanged

  // ---------------------------------------------------------------- exposure within a scope

  datatype Scope = WholeEvent | OneDay(day: string) | OneRun(run: string) | OneGroup(group: string)

  predicate Covers(t: Table, scope: Scope, run: string) {
    && run in t.runs && t.runs[run].event == t.event
    && match scope
       case WholeEvent => true
       case OneDay(day) => t.runs[run].day == day
       case OneRun(r) => run == r
       case OneGroup(g) => t.runs[run].group == Some(g)
  }

  function ExposureOf(t: Table, scope: Scope, rows: seq<Charge>): real {
    if rows == [] then 0.0
    else
      var n := |rows| - 1;
      ExposureOf(t, scope, rows[..n]) + (if Covers(t, scope, rows[n].run) then rows[n].exposure else 0.0)
  }

  function Exposure(t: Table, scope: Scope): real {
    ExposureOf(t, scope, t.rows)
  }

  /** First row with this id, or the number of rows. */
  function Find(rows: seq<Charge>, id: string): (k: nat)
    ensures k <= |rows| && (k < |rows| ==> rows[k].id == id)
    ensures forall i :: 0 <= i < k ==> rows[i].id != id
  {
    if rows == [] || rows[0].id == id then 0 else 1 + Find(rows[1..], id)
  }

  // ---------------------------------------------------------------- the operations

  /** The group condition binds only a run that belongs to a group. */
  predicate Fits(t: Table, run: string, bound: real)
    requires run in t.runs
  {
    var pin := t.runs[run];
    && Exposure(t, WholeEvent) + bound <= t.cap
    && Exposure(t, OneDay(pin.day)) + bound <= t.daily
    && Exposure(t, OneRun(run)) + bound <= pin.cap
    && (pin.group.Some? ==> Exposure(t, OneGroup(pin.group.value)) + bound <= pin.groupCap)
  }

  function Reserve(t: Table, run: string, provider: string, id: string, bound: real): (r: Result<Table, Error>)
    ensures r.Success? ==> bound > 0.0 && Find(t.rows, id) == |t.rows|
  {
    if bound < 0.0 then Failure(InvalidAmount)
    else if bound == 0.0 then Failure(InvalidBound)
    else
      var k := Find(t.rows, id);
      if k < |t.rows| then
        if (t.rows[k].run, t.rows[k].provider, t.rows[k].bound) != (run, provider, bound)
        then Failure(RequestChanged) else Failure(DuplicateDispatch)
      else if run !in t.runs || t.runs[run].event != t.event then Failure(RunNotConfigured)
      else if !Fits(t, run, bound) then Failure(BudgetExhausted)
      else Success(t.(rows := t.rows + [Charge(id, run, provider, bound, bound, Reserved)]))
  }

  /** `charged` is None when the delivery is uncertain. */
  function Settle(t: Table, id: string, charged: Option<real>): (r: Result<Table, Error>) {
    var k := Find(t.rows, id);
    if k == |t.rows| then Failure(ReservationMissing)
    else if charged.Some? && charged.value < 0.0 then Failure(InvalidAmount)
    else
      var row := t.rows[k];
      var exposure := if charged.None? then row.bound else charged.value;
      var state := if charged.None? then Uncertain else Settled;
      if exposure > row.bound then Failure(BoundExceeded)
      else if row.state != Reserved && (row.exposure, row.state) != (exposure, state) then Failure(SettlementChanged)
      else Success(t.(rows := t.rows[k := row.(exposure := exposure, state := state)]))
  }

  /** A run of the same group with another group cap. */
  predicate SameGroup(t: Table, run: string, pin: Pin)
    requires run in t.runs
  {
    t.runs[run].event == t.event && t.runs[run].group == pin.group && t.runs[run].groupCap != pin.groupCap
  }

  predicate GroupClash(t: Table, pin: Pin) {
    pin.group.Some? && exists r :: r in t.runs && SameGroup(t, r, pin)
  }

  /** `given` is pinned to the event of the guard; without a group there is no group cap. */
  function Pinned(t: Table, given: Pin): Pin {
    given.(event := t.event, groupCap := if given.group.None? then 0.0 else given.groupCap)
  }

  function ConfigureRun(t: Table, run: string, given: Pin): (r: Result<Table, Error>) {
    var pin := Pinned(t, given);
    if pin.cap < 0.0 || pin.groupCap < 0.0 then Failure(InvalidAmount)
    else if pin.day == "" || run == "" || !(0.0 < pin.cap <= 1.0) then Failure(InvalidRun)
    else if run in t.runs && t.runs[run] != pin then Failure(RunChanged)
    else if GroupClash(t, pin) then Failure(GroupChanged)
    else Success(t.(runs := t.runs[run := pin]))
  }

  class Guard {
    var table: Table

    constructor (event: string, daily: real, cap: real)
      requires daily >= 0.0 && cap >= 0.0
      ensures table == Table(event, daily, cap, map[], []) && CapsHold(table)
    {
      table := Table(event, daily, cap, map[], []);
    }

    /** The lookup by id. */
    method FindRow(id: string) returns (k: nat)
      ensures k == Find(table.rows, id)
    {
      k := 0;
      while k < |table.rows| && table.rows[k].id != id
        invariant k <= |table.rows| && forall i :: 0 <= i < k ==> table.rows[i].id != id
      {
        k := k + 1;
      }
      FindIs(table.rows, id, k);
    }

    /** The sum over the charges of one scope. */
    method Total(scope: Scope) returns (total: real)
      ensures total == Exposure(table, scope)
    {
      total := 0.0;
      for i := 0 to |table.rows|
        invariant total == ExposureOf(table, scope, table.rows[..i])
      {
        assert table.rows[..i+1][..i] == table.rows[..i];
        if Covers(table, scope, table.rows[i].run) {
          total := total + table.rows[i].exposure;
        }
      }
      assert table.rows[..|table.rows|] == table.rows;
    }

    /** The four limits are compared one after the other. */
    method FitsAll(run: string, bound: real) returns (ok: bool)
      requires run in table.runs
      ensures ok == Fits(table, run, bound)
    {
      var pin := table.runs[run];
      var event := Total(WholeEvent);
      var day := Total(OneDay(pin.day));
      var own := Total(OneRun(run));
      ok := event + bound <= table.cap && day + bound <= table.daily && own + bound <= pin.cap;
      if ok && pin.group.Some? {
        var group := Total(OneGroup(pin.group.value));
        ok := group + bound <= pin.groupCap;
      }
    }

    method DoReserve(run: string, provider: string, id: string, bound: real) returns (r: Result<(), Error>)
      modifies this
      ensures r.Success? <==> Reserve(old(table), run, provider, id, bound).Success?
      ensures r.Success? ==> table == Reserve(old(table), run, provider, id, bound).value
      ensures r.Failure? ==> table == old(table) && r.error == Reserve(old(table), run, provider, id, bound).error
    {
      if bound < 0.0 {
        return Failure(InvalidAmount);
      }
      if bound == 0.0 {
        return Failure(InvalidBound);
      }
      var k := FindRow(id);
      if k < |table.rows| {
        var row := table.rows[k];
        return Failure(if (row.run, row.provider, row.bound) != (run, provider, bound) then RequestChanged
                       else DuplicateDispatch);
      }
      if run !in table.runs || table.runs[run].event != table.event {
        return Failure(RunNotConfigured);
      }
      var ok := FitsAll(run, bound);
      if !ok {
        return Failure(BudgetExhausted);
      }
      table := table.(rows := table.rows + [Charge(id, run, provider, bound, bound, Reserved)]);
      r := Success(());
    }

    method DoSettle(id: string, charged: Option<real>) returns (r: Result<(), Error>)
      modifies this
      ensures r.Success? <==> Settle(old(table), id, charged).Success?
      ensures r.Success? ==> table == Settle(old(table), id, charged).value
      ensures r.Failure? ==> table == old(table) && r.error == Settle(old(table), id, charged).error
    {
      var k := FindRow(id);
      if k == |table.rows| {
        return Failure(ReservationMissing);
      }
      var row := table.rows[k];
      if charged.Some? && charged.value < 0.0 {
        return Failure(InvalidAmount);
      }
      var exposure := if charged.None? then row.bound else charged.value;
      var state := if charged.None? then Uncertain else Settled;
      if exposure > row.bound {
        return Failure(BoundExceeded);
      }
      if row.state != Reserved && (row.exposure, row.state) != (exposure, state) {
        return Failure(SettlementChanged);
      }
      table := table.(rows := table.rows[k := row.(exposure := exposure, state := state)]);
      r := Success(());
    }

    /** The search for a run of the same group with another cap. */
    method Clashes(pin: Pin) returns (clash: bool)
      ensures clash == GroupClash(table, pin)
    {
      clash := false;
      var todo := table.runs.Keys;
      while todo != {} && !clash && pin.group.Some?
        invariant todo <= table.runs.Keys
        invariant !clash ==> forall r :: r in table.runs && r !in todo ==> !SameGroup(table, r, pin)
        invariant clash ==> GroupClash(table, pin)
      {
        var r :| r in todo;
        clash := SameGroup(table, r, pin);
        todo := todo - {r};
      }
    }

    method DoConfigure(run: string, given: Pin) returns (r: Result<(), Error>)
      modifies this
      ensures r.Success? <==> ConfigureRun(old(table), run, given).Success?
      ensures r.Success? ==> table == ConfigureRun(old(table), run, given).value
      ensures r.Failure? ==> table == old(table) && r.error == ConfigureRun(old(table), run, given).error
    {
      var pin := Pinned(table, given);
      if pin.cap < 0.0 || pin.groupCap < 0.0 {
        return Failure(InvalidAmount);
      }
      if pin.day == "" || run == "" || !(0.0 < pin.cap <= 1.0) {
        return Failure(InvalidRun);
      }
      if run in table.runs && table.runs[run] != pin {
        return Failure(RunChanged);
      }
      var clash := Clashes(pin);
      if clash {
        return Failure(GroupChanged);
      }
      table := table.(runs := table.runs[run := pin]);
      r := Success(());
    }
  }

  lemma {:induction false} FindIs(rows: seq<Charge>, id: string, k: nat)
    requires k <= |rows| && (forall i :: 0 <= i < k ==> rows[i].id != id) && (k < |rows| ==> rows[k].id == id)
    ensures Find(rows, id) == k
  {
    if k > 0 {
      FindIs(rows[1..], id, k - 1);
    }
  }

  // ---------------------------------------------------------------- when an operation is accepted

  /** The limit on a scope that covers the run. */
  function Limit(t: Table, run: string, scope: Scope): real
    requires run in t.runs
  {
    match scope
    case WholeEvent => t.cap
    case OneDay(_) => t.daily
    case OneRun(_) => t.runs[run].cap
    case OneGroup(_) => t.runs[run].groupCap
  }

  /** Room in every scope that covers the run. */
  ghost predicate RoomFor(t: Table, run: string, bound: real)
    requires run in t.runs
  {
    forall scope :: Covers(t, scope, run) ==> Exposure(t, scope) + bound <= Limit(t, run, scope)
  }

  lemma FitsIff(t: Table, run: string, bound: real)
    requires run in t.runs && t.runs[run].event == t.event
    ensures Fits(t, run, bound) <==> RoomFor(t, run, bound)
  {
    var pin := t.runs[run];
    if RoomFor(t, run, bound) {
      assert Covers(t, WholeEvent, run) && Covers(t, OneDay(pin.day), run) && Covers(t, OneRun(run), run);
      assert pin.group.Some? ==> Covers(t, OneGroup(pin.group.value), run);
    }
  }

  predicate Unused(t: Table, id: string) {
    forall i :: 0 <= i < |t.rows| ==> t.rows[i].id != id
  }

  predicate Known(t: Table, run: string) {
    run in t.runs && t.runs[run].event == t.event
  }

  /** A reservation is accepted if and only if its bound is positive, its id unused, its run one
      of the event, and the bound fits every scope that covers the run: event, day, run and, if
      it has one, group. Only lack of room is reported as an exhausted budget. */
  lemma ReserveIff(t: Table, run: string, provider: string, id: string, bound: real)
    ensures var r, asked := Reserve(t, run, provider, id, bound), bound > 0.0 && Unused(t, id);
            && (r.Success? <==> asked && Known(t, run) && RoomFor(t, run, bound))
            && (r == Failure(BudgetExhausted) <==> asked && Known(t, run) && !RoomFor(t, run, bound))
            && (r == Failure(RunNotConfigured) <==> asked && !Known(t, run))
            && (r == Failure(InvalidAmount) <==> bound < 0.0) && (r == Failure(InvalidBound) <==> bound == 0.0)
            && (r.Success? ==> r.value == t.(rows := t.rows + [Charge(id, run, provider, bound, bound, Reserved)]))
  {
    if Known(t, run) {
      FitsIff(t, run, bound);
    }
    UnusedIff(t, id);
  }

  lemma UnusedIff(t: Table, id: string)
    ensures Unused(t, id) <==> Find(t.rows, id) == |t.rows|
  {
  }

  /** Ids are never sent twice: with a row of that id the same request is a duplicate, and any
      other request under the id is a conflict. */
  lemma RepeatedId(t: Table, run: string, provider: string, id: string, bound: real, k: nat)
    requires RowsOk(t) && bound > 0.0 && k < |t.rows| && t.rows[k].id == id
    ensures Reserve(t, run, provider, id, bound) ==
            Failure(if t.rows[k].run == run && t.rows[k].provider == provider && t.rows[k].bound == bound
                    then DuplicateDispatch else RequestChanged)
  {
    FindIs(t.rows, id, k);
  }

  /** A settlement is accepted if and only if there is a charge of that id and the amount is
      between zero and its bound, and the charge is still reserved or was settled just so. An
      uncertain delivery takes the whole bound. */
  lemma SettleIff(t: Table, id: string, charged: Option<real>, k: nat)
    requires RowsOk(t) && k < |t.rows| && t.rows[k].id == id
    ensures var r, row := Settle(t, id, charged), t.rows[k];
            var after := row.(exposure := if charged.Some? then charged.value else row.bound,
                              state := if charged.Some? then Settled else Uncertain);
            && (r.Success? <==> 0.0 <= after.exposure <= row.bound && (row.state == Reserved || row == after))
            && (r.Success? ==> r.value == t.(rows := t.rows[k := after]))
            && (r.Success? ==> Settle(r.value, id, charged) == r)
            && (r == Failure(InvalidAmount) <==> after.exposure < 0.0)
            && (r == Failure(BoundExceeded) <==> after.exposure > row.bound)
  {
    FindIs(t.rows, id, k);
    if Settle(t, id, charged).Success? {
      var u := Settle(t, id, charged).value;
      FindIs(u.rows, id, k);
      assert u.rows[k := u.rows[k]] == u.rows;
    }
  }

  lemma SettleMissing(t: Table, id: string, charged: Option<real>)
    ensures Settle(t, id, charged) == Failure(ReservationMissing) <==> Unused(t, id)
  {
    UnusedIff(t, id);
  }

  /** A run is configured if and only if it is named and dated, its cap is positive and at most
      one dollar, its group cap is not negative, it is new or pinned just so, and no run of the
      event has its group with another cap. Repeating it changes nothing. */
  lemma ConfigureIff(t: Table, run: string, given: Pin)
    requires given.event == t.event && (given.group.None? ==> given.groupCap == 0.0)
    ensures var r := ConfigureRun(t, run, given);
            && (r.Success? <==>
                  && run != "" && given.day != "" && 0.0 < given.cap && given.cap <= 1.0 && given.groupCap >= 0.0
                  && (run in t.runs ==> t.runs[run] == given)
                  && (given.group.Some? ==>
                        forall q :: q in t.runs && t.runs[q].event == t.event && t.runs[q].group == given.group ==>
                          t.runs[q].groupCap == given.groupCap))
            && (r.Success? ==> r.value == t.(runs := t.runs[run := given]))
            && (r.Success? ==> ConfigureRun(r.value, run, given) == r)
  {
    assert Pinned(t, given) == given;
    if ConfigureRun(t, run, given).Success? {
      var u := ConfigureRun(t, run, given).value;
      assert forall q :: q in t.runs && given.group.Some? ==> !SameGroup(t, q, given);
      assert forall q :: q in u.runs && given.group.Some? ==> !SameGroup(u, q, given);
      assert u.runs[run := given] == u.runs;
    }
  }

  // ---------------------------------------------------------------- the invariant

  predicate RowsOk(t: Table) {
    && (forall i :: 0 <= i < |t.rows| ==> 0.0 <= t.rows[i].exposure <= t.rows[i].bound && t.rows[i].run in t.runs)
    && (forall i :: 0 <= i < |t.rows| ==> (t.rows[i].state != Settled ==> t.rows[i].exposure == t.rows[i].bound))
    && (forall i, j :: 0 <= i < j < |t.rows| ==> t.rows[i].id != t.rows[j].id)
  }

  predicate GroupsAgree(t: Table) {
    forall r, q :: r in t.runs && q in t.runs && t.runs[r].event == t.event && t.runs[q].event == t.event
                   && t.runs[r].group.Some? && t.runs[r].group == t.runs[q].group
                   ==> t.runs[r].groupCap == t.runs[q].groupCap
  }

  ghost predicate CapsHold(t: Table) {
    && RowsOk(t) && GroupsAgree(t) && t.daily >= 0.0 && t.cap >= 0.0
    && (forall r :: r in t.runs ==> t.runs[r].cap >= 0.0 && (t.runs[r].group.Some? ==> t.runs[r].groupCap >= 0.0))
    && Exposure(t, WholeEvent) <= t.cap
    && (forall day :: Exposure(t, OneDay(day)) <= t.daily)
    && (forall r :: r in t.runs && t.runs[r].event == t.event ==> Exposure(t, OneRun(r)) <= t.runs[r].cap)
    && (forall r :: r in t.runs && t.runs[r].event == t.event && t.runs[r].group.Some? ==>
          Exposure(t, OneGroup(t.runs[r].group.value)) <= t.runs[r].groupCap)
  }

  lemma ExposureSnoc(t: Table, scope: Scope, rows: seq<Charge>, c: Charge)
    ensures ExposureOf(t, scope, rows + [c]) ==
            ExposureOf(t, scope, rows) + (if Covers(t, scope, c.run) then c.exposure else 0.0)
  {
    assert (rows + [c])[..|rows|] == rows;
  }

  lemma {:induction false} ExposureUpdate(t: Table, scope: Scope, rows: seq<Charge>, k: nat, c: Charge)
    requires k < |rows| && c.run == rows[k].run
    ensures ExposureOf(t, scope, rows[k := c]) ==
            ExposureOf(t, scope, rows) + (if Covers(t, scope, c.run) then c.exposure - rows[k].exposure else 0.0)
  {
    var n := |rows| - 1;
    if k == n {
      assert rows[k := c][..n] == rows[..n];
    } else {
      assert rows[k := c][..n] == rows[..n][k := c];
      ExposureUpdate(t, scope, rows[..n], k, c);
    }
  }

  /** Exposure depends on the table only through its runs and event. */
  lemma {:induction false} ExposureFrame(t: Table, u: Table, scope: Scope, rows: seq<Charge>)
    requires forall i :: 0 <= i < |rows| ==> (Covers(t, scope, rows[i].run) <==> Covers(u, scope, rows[i].run))
    ensures ExposureOf(t, scope, rows) == ExposureOf(u, scope, rows)
  {
    if rows != [] {
      ExposureFrame(t, u, scope, rows[..|rows|-1]);
    }
  }

  lemma {:induction false} ExposureNone(t: Table, scope: Scope, rows: seq<Charge>)
    requires forall i :: 0 <= i < |rows| ==> !Covers(t, scope, rows[i].run)
    ensures ExposureOf(t, scope, rows) == 0.0
  {
    if rows != [] {
      ExposureNone(t, scope, rows[..|rows|-1]);
    }
  }

  lemma ReserveKeepsRows(t: Table, run: string, provider: string, id: string, bound: real)
    requires RowsOk(t) && Reserve(t, run, provider, id, bound).Success?
    ensures RowsOk(Reserve(t, run, provider, id, bound).value)
  {
  }

  lemma ReserveExposure(t: Table, run: string, provider: string, id: string, bound: real, scope: Scope)
    requires Reserve(t, run, provider, id, bound).Success?
    ensures Exposure(Reserve(t, run, provider, id, bound).value, scope) ==
            Exposure(t, scope) + (if Covers(t, scope, run) then bound else 0.0)
  {
    var u := Reserve(t, run, provider, id, bound).value;
    ExposureFrame(t, u, scope, t.rows);
    ExposureSnoc(u, scope, t.rows, u.rows[|t.rows|]);
  }

  /** A reservation is admitted only inside all four caps, and keeps them. */
  lemma ReserveKeepsCaps(t: Table, run: string, provider: string, id: string, bound: real)
    requires CapsHold(t) && Reserve(t, run, provider, id, bound).Success?
    ensures CapsHold(Reserve(t, run, provider, id, bound).value)
  {
    var u := Reserve(t, run, provider, id, bound).value;
    ReserveKeepsRows(t, run, provider, id, bound);
    assert u.runs == t.runs && u.event == t.event && u.cap == t.cap && u.daily == t.daily;
    ReserveExposure(t, run, provider, id, bound, WholeEvent);
    forall day ensures Exposure(u, OneDay(day)) <= u.daily {
      ReserveExposure(t, run, provider, id, bound, OneDay(day));
    }
    forall r | r in u.runs && u.runs[r].event == u.event ensures Exposure(u, OneRun(r)) <= u.runs[r].cap {
      ReserveExposure(t, run, provider, id, bound, OneRun(r));
    }
    forall r | r in u.runs && u.runs[r].event == u.event && u.runs[r].group.Some?
      ensures Exposure(u, OneGroup(u.runs[r].group.value)) <= u.runs[r].groupCap
    {
      ReserveExposure(t, run, provider, id, bound, OneGroup(u.runs[r].group.value));
    }
  }

  /** Settlement never raises an exposure, so it keeps every cap. */
  lemma SettleNeverRaises(t: Table, id: string, charged: Option<real>, scope: Scope)
    requires RowsOk(t) && Settle(t, id, charged).Success?
    ensures RowsOk(Settle(t, id, charged).value)
    ensures Exposure(Settle(t, id, charged).value, scope) <= Exposure(t, scope)
  {
    var u := Settle(t, id, charged).value;
    var k := Find(t.rows, id);
    assert t.rows[k].exposure >= u.rows[k].exposure;
    ExposureFrame(t, u, scope, t.rows);
    ExposureUpdate(u, scope, t.rows, k, u.rows[k]);
  }

  lemma SettleKeepsCaps(t: Table, id: string, charged: Option<real>)
    requires CapsHold(t) && Settle(t, id, charged).Success?
    ensures CapsHold(Settle(t, id, charged).value)
  {
    var u := Settle(t, id, charged).value;
    SettleNeverRaises(t, id, charged, WholeEvent);
    forall scope: Scope ensures Exposure(u, scope) <= Exposure(t, scope) {
      SettleNeverRaises(t, id, charged, scope);
    }
  }

  lemma ConfigureExposure(t: Table, run: string, given: Pin, scope: Scope)
    requires RowsOk(t) && ConfigureRun(t, run, given).Success?
    ensures Exposure(ConfigureRun(t, run, given).value, scope) == Exposure(t, scope)
  {
    var u := ConfigureRun(t, run, given).value;
    assert run in t.runs ==> u.runs == t.runs;
    ExposureFrame(t, u, scope, t.rows);
  }

  /** The group of a new run is either unused or already capped at the same amount. */
  lemma ConfigureGroup(t: Table, run: string, given: Pin)
    requires CapsHold(t) && ConfigureRun(t, run, given).Success? && given.group.Some?
    ensures Exposure(t, OneGroup(given.group.value)) <= given.groupCap
  {
    if r :| r in t.runs && t.runs[r].event == t.event && t.runs[r].group == given.group {
      assert t.runs[r].groupCap == given.groupCap;
    } else {
      ExposureNone(t, OneGroup(given.group.value), t.rows);
    }
  }

  /** A new run inherits the exposure of its day and group, and both caps still hold. */
  lemma ConfigureKeepsCaps(t: Table, run: string, given: Pin)
    requires CapsHold(t) && ConfigureRun(t, run, given).Success?
    ensures CapsHold(ConfigureRun(t, run, given).value)
  {
    var u := ConfigureRun(t, run, given).value;
    if run in t.runs {
      assert u.runs == t.runs;
      return;
    }
    ConfigureExposure(t, run, given, WholeEvent);
    forall day ensures Exposure(u, OneDay(day)) <= u.daily {
      ConfigureExposure(t, run, given, OneDay(day));
    }
    forall r | r in u.runs && u.runs[r].event == u.event ensures Exposure(u, OneRun(r)) <= u.runs[r].cap {
      ConfigureExposure(t, run, given, OneRun(r));
      if r == run {
        ExposureNone(t, OneRun(run), t.rows);
      }
    }
    forall r | r in u.runs && u.runs[r].event == u.event && u.runs[r].group.Some?
      ensures Exposure(u, OneGroup(u.runs[r].group.value)) <= u.runs[r].groupCap
    {
      ConfigureExposure(t, run, given, OneGroup(u.runs[r].group.value));
      if r == run {
        ConfigureGroup(t, run, given);
      }
    }
    ConfigureAgrees(t, run, given);
  }

  lemma ConfigureAgrees(t: Table, run: string, given: Pin)
    requires RowsOk(t) && GroupsAgree(t) && ConfigureRun(t, run, given).Success?
    ensures RowsOk(ConfigureRun(t, run, given).value) && GroupsAgree(ConfigureRun(t, run, given).value)
  {
    var u, pin := ConfigureRun(t, run, given).value, Pinned(t, given);
    assert forall r :: r in t.runs && pin.group.Some? ==> !SameGroup(t, r, pin);
  }

  // ---------------------------------------------------------------- whole runs

  datatype Call =
    | DoConfigure(run: string, pin: Pin)
    | DoReserve(run: string, provider: string, id: string, bound: real)
    | DoSettle(id: string, charged: Option<real>)

  function Outcome(t: Table, c: Call): Result<Table, Error> {
    match c
    case DoConfigure(run, pin) => ConfigureRun(t, run, pin)
    case DoReserve(run, provider, id, bound) => Reserve(t, run, provider, id, bound)
    case DoSettle(id, charged) => Settle(t, id, charged)
  }

  function After(t: Table, calls: seq<Call>): Table {
    if calls == [] then t
    else
      var u := After(t, calls[..|calls|-1]);
      var r := Outcome(u, calls[|calls|-1]);
      if r.Success? then r.value else u
  }

  /** No sequence of calls, accepted or refused, takes any exposure above its cap. */
  lemma {:induction false} CapsHoldForever(t: Table, calls: seq<Call>)
    requires CapsHold(t)
    ensures CapsHold(After(t, calls))
  {
    if calls != [] {
      CapsHoldForever(t, calls[..|calls|-1]);
      var u := After(t, calls[..|calls|-1]);
      var c := calls[|calls|-1];
      if Outcome(u, c).Success? {
        match c
        case DoConfigure(run, pin) => ConfigureKeepsCaps(u, run, pin);
        case DoReserve(run, provider, id, bound) => ReserveKeepsCaps(u, run, provider, id, bound);
        case DoSettle(id, charged) => SettleKeepsCaps(u, id, charged);
      }
    }
  }

  /** An uncertain charge keeps its whole bound for good: nothing removes or lowers it. */
  lemma {:induction false} UncertainIsForever(t: Table, calls: seq<Call>, k: nat)
    requires RowsOk(t) && k < |t.rows| && t.rows[k].state == Uncertain
    ensures RowsOk(After(t, calls))
    ensures k < |After(t, calls).rows| && After(t, calls).rows[k] == t.rows[k]
  {
    if calls != [] {
      UncertainIsForever(t, calls[..|calls|-1], k);
      var u, c := After(t, calls[..|calls|-1]), calls[|calls|-1];
      if Outcome(u, c).Success? {
        UncertainStep(u, c, k);
      }
    }
  }

  lemma UncertainStep(u: Table, c: Call, k: nat)
    requires RowsOk(u) && k < |u.rows| && u.rows[k].state == Uncertain && Outcome(u, c).Success?
    ensures var w := Outcome(u, c).value; RowsOk(w) && k < |w.rows| && w.rows[k] == u.rows[k]
  {
    match c
    case DoConfigure(_, _) =>
    case DoReserve(run, provider, id, bound) => ReserveKeepsRows(u, run, provider, id, bound);
    case DoSettle(id, charged) => SettleNeverRaises(u, id, charged, WholeEvent);
  }
}
