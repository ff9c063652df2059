/** The return codes of SQLExecute and SQLParamData, from what the server has seen and where the array has ended. */
module DaeCodes {
  import opened DaeModel
  import opened DaeRuns

  /** How many paramsets the server has rejected. */
  function Failures(events: seq<Event>): nat {
    if events == [] then 0
    else (if events[0].Exec? && !events[0].ok then 1 else 0) + Failures(events[1..])
  }

  lemma {:induction false} FailuresSplit(a: seq<Event>, b: seq<Event>)
    ensures Failures(a + b) == Failures(a) + Failures(b)
  {
    if a == [] {
      assert a + b == b;
    } else {
      assert (a + b)[0] == a[0] && (a + b)[1..] == a[1..] + b;
      FailuresSplit(a[1..], b);
    }
  }

  predicate Fails(cell: Cell, stale: bool) { cell.Bad? || cell.Refused? || (stale && cell.Value?) }

  /** The first cell from `i` on that does not convert is one that is not bound, or whose types cannot be converted. */
  predicate Unbound(cells: seq<Cell>, i: nat, stale: bool) {
    exists k :: i <= k < |cells| && FirstFailing(cells, i, k, stale) && cells[k].Refused?
  }

  predicate FirstFailing(cells: seq<Cell>, i: nat, k: int, stale: bool) {
    i <= k < |cells| && Fails(cells[k], stale) && forall h :: i <= h < k ==> !Fails(cells[h], stale)
  }

  lemma {:induction false} ConvertEnds(cells: seq<Cell>, i: nat, done: bool, stale: bool, dae: int)
    requires i <= |cells| && -1 <= dae
    ensures Convert(cells, i, done, stale, dae).Rejected? <==> Unbound(cells, i, stale)
    decreases |cells| - i
  {
    if i < |cells| {
      if Fails(cells[i], stale) {
        assert FirstFailing(cells, i, i, stale);
      } else {
        ConvertEnds(cells, i + 1, done, stale, if cells[i].Dae? && !done && dae < 0 then i else dae);
        UnboundNext(cells, i, stale);
      }
    }
  }

  lemma UnboundNext(cells: seq<Cell>, i: nat, stale: bool)
    requires i < |cells| && !Fails(cells[i], stale)
    ensures Unbound(cells, i, stale) <==> Unbound(cells, i + 1, stale)
  {
    if Unbound(cells, i, stale) {
      var k :| i <= k < |cells| && FirstFailing(cells, i, k, stale) && cells[k].Refused?;
      assert FirstFailing(cells, i + 1, k, stale);
    }
    if Unbound(cells, i + 1, stale) {
      var k :| i + 1 <= k < |cells| && FirstFailing(cells, i + 1, k, stale) && cells[k].Refused?;
      assert FirstFailing(cells, i, k, stale);
    }
  }

  /** The code of a call that does not ask for data. `failures` counts the rejected paramsets, and one whose conversion
      fails; `unbound` is true if the call ends at a parameter that is not bound, or cannot be converted at all. */
  predicate CodeIs(rc: Rc, failures: nat, unbound: bool, arraySize: nat) {
    && rc != SQL_NEED_DATA
    && (rc == SQL_ERROR <==> if failures == 0 then unbound else failures >= arraySize)
    && (rc == SQL_SUCCESS <==> failures == 0 && !unbound)
  }

  /** Whether a call that stops at paramset `stop` does so because of an unbound parameter, or of a failing conversion;
      `record` is true if an error was on record before. */
  predicate EndsUnbound(op: Op, stop: nat, record: bool)
    requires op.Valid()
  {
    stop < op.Count() && Unbound(op.cells[stop], 0, record)
  }

  function Failing(op: Op, events: seq<Event>, stop: nat, record: bool): nat
    requires op.Valid()
  {
    Failures(events) + if stop < op.Count() && !EndsUnbound(op, stop, record) then 1 else 0
  }

  lemma StopCode(op: Op, s: State, j: nat, errors: nat)
    requires Fits(op, s) && j < op.Count() && !op.ignored[j] && Blocked(op, j, s.error)
    ensures var unbound := EndsUnbound(op, j, s.error);
            CodeIs(Rows(op, s, j, false, errors).rc, Plus(errors, !unbound), unbound, op.arraySize)
  {
    ConvertMeets(op, j, DaeDone(op, s), s.error);
    ConvertEnds(op.cells[j], 0, DaeDone(op, s), s.error, -1);
  }

  lemma EndCode(op: Op, s: State, errors: nat)
    requires Fits(op, s)
    ensures Rows(op, s, op.Count(), false, errors).events == []
    ensures CodeIs(Rows(op, s, op.Count(), false, errors).rc, errors, false, op.arraySize)
  {
  }

  lemma OneFailure(op: Op, ps: nat, j: nat, swapped: bool, rest: seq<Event>)
    requires op.Valid() && j < op.Count()
    ensures Failures((Handing(op, j, ps, swapped) + [Exec(ps, j, op.succeeds[j])]) + rest)
            == Failures(rest) + if op.succeeds[j] then 0 else 1
  {
    var exec := [Exec(ps, j, op.succeeds[j])];
    FailuresSplit(Handing(op, j, ps, swapped) + exec, rest);
    FailuresSplit(Handing(op, j, ps, swapped), exec);
    FailuresSplit(PushParams(op, ps, j), if swapped then PushParams(op, ps + 1, j) else []);
    assert Failures(exec) == (if op.succeeds[j] then 0 else 1) + Failures([]);
  }

  /** The loop from paramset `j` on, with `errors` failures before. */
  lemma {:induction false} RowsCode(op: Op, s: State, j: nat, errors: nat)
    requires Fits(op, s) && j <= op.Count() && (DaeDone(op, s) ==> !s.error)
    requires Rows(op, s, j, false, errors).rc != SQL_NEED_DATA
    ensures var o, stop := Rows(op, s, j, false, errors), Stop(op, j, s.error);
            var record := s.error || Failures(o.events) > 0;
            CodeIs(o.rc, errors + Failing(op, o.events, stop, record), EndsUnbound(op, stop, record), op.arraySize)
    decreases op.Count() - j
  {
    hide Rows, Unbound, Failures, Blocked, CodeIs;
    assert Failures([]) == 0 by { NoFailures(); }
    if j == op.Count() {
      EndCode(op, s, errors);
    } else if op.ignored[j] {
      RowsIgnores(op, s, j, false, errors);
      RowsCode(op, s.(rowsProcessed := s.rowsProcessed + 1, status := s.status[j := Unused]), j + 1, errors);
    } else if Blocked(op, j, s.error) {
      RowsStops(op, s, j, errors);
      StopCode(op, s, j, errors);
    } else if HasDae(op, j) && !DaeDone(op, s) {
      RowsSuspends(op, s, j, errors);
    } else {
      RowsPerforms(op, s, j, errors);
      var t, more := PerformedAt(op, s, j), Plus(errors, !op.succeeds[j]);
      RowsCode(op, t, j + 1, more);
      OneFailure(op, s.ps, j, false, Rows(op, t, j + 1, false, more).events);
    }
  }

  lemma NoFailures()
    ensures Failures([]) == 0
  {
  }

  /** The paramset a call of SQLExecute ends at, if it does not ask for data: the loop starts behind the one that is
      resumed, or at the first one; HY010 may be on record. */
  function EndsAt(op: Op, s: State): nat
    requires op.Valid() && (Resuming(op, s) ==> s.daeRow <= op.Count())
  {
    if !Resuming(op, s) then Stop(op, 0, SecondCall(op, s))
    else if op.ignored[s.daeRow - 1] then Stop(op, s.daeRow, false)
    else Stop(op, s.daeRow, !op.succeeds[s.daeRow - 1])
  }

  predicate SecondCall(op: Op, s: State) { s.putParam > NO_DATA_NEEDED && !DaeDone(op, s) }

  /** SQLExecute, called by the application or resumed by SQLParamData, when it does not ask for data: SQL_ERROR if all
      paramsets of the array have failed, or nothing has failed and it has ended at an unbound parameter; SQL_SUCCESS if
      nothing has failed and it has not ended there; otherwise SQL_SUCCESS_WITH_INFO. */
  lemma ExecuteCode(op: Op, s: State)
    requires MayExecute(op, s) && Execute(op, s).rc != SQL_NEED_DATA
    ensures var o, stop := Execute(op, s), EndsAt(op, s);
            var record := SecondCall(op, s) || Failures(o.events) > 0;
            CodeIs(o.rc, Failing(op, o.events, stop, record), EndsUnbound(op, stop, record), op.arraySize)
  {
    hide Rows, Unbound, Failures, CodeIs, Stop;
    var t := s.(error := SecondCall(op, s), daeRow := 0,
                rowsProcessed := if s.putParam > NO_DATA_NEEDED then s.rowsProcessed else 0);
    if Resuming(op, s) {
      ResumedCode(op, t, s.daeRow - 1);
    } else {
      RowsCode(op, t, 0, 0);
    }
  }

  lemma ResumedCode(op: Op, s: State, j: nat)
    requires Fits(op, s) && j < op.Count() && !s.error && Rows(op, s, j, true, 0).rc != SQL_NEED_DATA
    ensures var o, stop := Rows(op, s, j, true, 0), Stop(op, j + 1, !op.ignored[j] && !op.succeeds[j]);
            var record := Failures(o.events) > 0;
            CodeIs(o.rc, Failing(op, o.events, stop, record), EndsUnbound(op, stop, record), op.arraySize)
  {
    hide Rows, EndsUnbound, Failures, CodeIs, Stop, Suspended, Perform;
    if op.ignored[j] {
      RowsIgnores(op, s, j, true, 0);
      RowsCode(op, s.(rowsProcessed := s.rowsProcessed + 1, status := s.status[j := Unused]), j + 1, 0);
    } else {
      LiveCode(op, s, j, Perform(op, s.(rowsProcessed := s.rowsProcessed + 1), j));
    }
  }

  lemma LiveCode(op: Op, s: State, j: nat, t: State)
    requires Fits(op, s) && j < op.Count() && !s.error && Rows(op, s, j, true, 0).rc != SQL_NEED_DATA
    requires !op.ignored[j] && t == Perform(op, s.(rowsProcessed := s.rowsProcessed + 1), j)
    ensures var o, stop := Rows(op, s, j, true, 0), Stop(op, j + 1, !op.succeeds[j]);
            var record := Failures(o.events) > 0;
            CodeIs(o.rc, Failing(op, o.events, stop, record), EndsUnbound(op, stop, record), op.arraySize)
  {
    hide Rows, EndsUnbound, Failures, CodeIs, Stop, Suspended;
    var errors := Plus(0, !op.succeeds[j]);
    RowsResumes(op, s, j, 0);
    assert Fits(op, t) && t.error == !op.succeeds[j] && !DaeDone(op, t);
    RowsCode(op, t, j + 1, errors);
    ResumedFailures(s.ps, j, op.succeeds[j], Rows(op, t, j + 1, false, errors).events);
  }

  lemma ResumedFailures(ps: nat, j: nat, ok: bool, rest: seq<Event>)
    ensures Failures([Exec(ps, j, ok)] + rest) == Failures(rest) + if ok then 0 else 1
  {
    hide Failures;
    FailuresSplit([Exec(ps, j, ok)], rest);
    ExecFailure(ps, j, ok);
  }

  lemma ExecFailure(ps: nat, j: nat, ok: bool)
    ensures Failures([Exec(ps, j, ok)]) == if ok then 0 else 1
  {
    assert Failures([Exec(ps, j, ok)]) == (if ok then 0 else 1) + Failures([]);
  }

  /** An SQLParamData that ends the operation gives what the execution it resumes gives. */
  lemma ParamDataCode(op: Op, s: State)
    requires Suspended(op, s) && ParamData(op, s).rc != SQL_NEED_DATA
    ensures var t := s.(putParam := op.paramCount, rowsProcessed := s.rowsProcessed - 1);
            && MayExecute(op, t) && ParamData(op, s) == Execute(op, t)
            && var o, stop := ParamData(op, s), EndsAt(op, t);
               var record := Failures(o.events) > 0;
               CodeIs(o.rc, Failing(op, o.events, stop, record), EndsUnbound(op, stop, record), op.arraySize)
  {
    hide Execute, CodeIs, Unbound, Failures, Stop;
    if NextCell(op, s) < op.paramCount {
      ParamDataAsks(op, s);
    }
    ParamDataReenters(op, s);
    var t := s.(putParam := op.paramCount, rowsProcessed := s.rowsProcessed - 1);
    var o := Execute(op, t);
    if o.rc == SQL_NEED_DATA {
      ParamDataAsks(op, o.s);
    }
    ExecuteCode(op, t);
  }

  // ---------- Whole operations ----------

  /** How many of the paramsets below `stop` are executed and rejected. */
  function Rejections(op: Op, j: nat, stop: nat): nat
    requires op.Valid() && j <= stop <= op.Count()
    decreases stop - j
  {
    if j == stop then 0 else (if !op.ignored[j] && !op.succeeds[j] then 1 else 0) + Rejections(op, j + 1, stop)
  }

  predicate NoDae(op: Op)
    requires op.Valid()
  {
    forall j :: 0 <= j < op.Count() && !op.ignored[j] ==> !HasDae(op, j)
  }

  lemma {:induction false} StraightFailures(op: Op, j: nat, ps: nat, serverSide: bool, stale: bool)
    requires op.Valid() && j <= op.Count() && NoDae(op)
    ensures Failures(Straight(op, j, ps, serverSide, stale)) == Rejections(op, j, Stop(op, j, stale))
    decreases op.Count() - j
  {
    hide Failures, Straight, Blocked, Asking;
    NoFailures();
    if j == op.Count() || (!op.ignored[j] && Blocked(op, j, stale)) {
      StraightEnds(op, j, ps, serverSide, stale);
    } else if op.ignored[j] {
      StraightIgnores(op, j, ps, serverSide, stale);
      StraightFailures(op, j + 1, ps, serverSide, stale);
    } else {
      var rest := Straight(op, j + 1, ps, serverSide, Leaves(op, j, stale));
      StraightNext(op, j, ps, serverSide, stale);
      StraightFailures(op, j + 1, ps, serverSide, Leaves(op, j, stale));
      NothingAsked(op, j, 0, ps);
      var exec := [Exec(ps, j, op.succeeds[j])];
      assert Handing(op, j, ps, false) + ([] + (exec + rest)) == (Handing(op, j, ps, false) + exec) + rest;
      OneFailure(op, ps, j, false, rest);
    }
  }

  lemma StraightEnds(op: Op, j: nat, ps: nat, serverSide: bool, stale: bool)
    requires op.Valid() && j <= op.Count()
    requires j == op.Count() || (!op.ignored[j] && Blocked(op, j, stale))
    ensures Straight(op, j, ps, serverSide, stale) == [] && Stop(op, j, stale) == j
  {
  }

  lemma StraightIgnores(op: Op, j: nat, ps: nat, serverSide: bool, stale: bool)
    requires op.Valid() && j < op.Count() && op.ignored[j]
    ensures Straight(op, j, ps, serverSide, stale) == Straight(op, j + 1, ps, serverSide, stale)
    ensures Stop(op, j, stale) == Stop(op, j + 1, stale)
  {
  }

  /** An array without data-at-execution cells, on an idle statement: the code follows from how many paramsets are
      rejected before it stops, and from why it stops. */
  lemma RunCode(op: Op, s: State)
    requires Fits(op, s) && s.putParam == NO_DATA_NEEDED && NoDae(op)
    ensures var o, stop := Run(op, s), Stop(op, 0, false);
            var rejected := Rejections(op, 0, stop);
            && Failures(Straight(op, 0, s.ps, s.serverSide, false)) == rejected
            && var unbound := EndsUnbound(op, stop, rejected > 0);
               CodeIs(o.rc, rejected + (if stop < op.Count() && !unbound then 1 else 0), unbound, op.arraySize)
  {
    hide CodeIs, Unbound, Failures, Stop, Straight, Execute, Rejections;
    var o := Execute(op, s);
    NeverSuspends(op, s);
    ExecuteCode(op, s);
    RunIsStraight(op, s);
    StraightFailures(op, 0, s.ps, s.serverSide, false);
  }

  lemma NeverSuspends(op: Op, s: State)
    requires Fits(op, s) && s.putParam == NO_DATA_NEEDED && NoDae(op)
    ensures Execute(op, s).rc != SQL_NEED_DATA && Run(op, s) == Execute(op, s)
  {
    hide Execute;
  }

  /** One ordinary paramset that the server rejects, and two of which it rejects the last. */
  lemma RejectedCodes(s: State, t: State)
    requires s.putParam == t.putParam == NO_DATA_NEEDED && |s.status| == 1 && |t.status| == 2
    ensures Execute(Op(1, 1, [[Value]], [false], [false], [false], [[[]]]), s).rc == SQL_ERROR
    ensures Execute(Op(1, 2, [[Value], [Value]], [false, false], [true, false], [false, false], [[[]], [[]]]), t).rc
            == SQL_SUCCESS_WITH_INFO
  {
  }
}
