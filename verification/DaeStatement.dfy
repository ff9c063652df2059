/** The statement handle itself: the loops of the driver over the fields they share, each proved to
    do what DaeModel says. */
module DaeStatement {
  import opened DaeModel

  class Statement {
    const op: Op
    const status: array<Status>       // the application's array
    var putParam: int
    var daeRow: nat
    var error: bool
    var rowsProcessed: int
    var ps: nat
    var serverSide: bool
    var bound: int
    var log: seq<Event>

    constructor (op: Op, status: array<Status>, ps: nat, serverSide: bool)
      requires op.Valid() && status.Length == op.Count()
      ensures this.op == op && this.status == status && log == []
      ensures Snapshot() == State(NO_DATA_NEEDED, 0, false, 0, status[..], ps, serverSide, -1)
    {
      this.op := op;
      this.status := status;
      putParam, daeRow, error, rowsProcessed := NO_DATA_NEEDED, 0, false, 0;
      this.ps, this.serverSide, bound, log := ps, serverSide, -1, [];
    }

    ghost function Snapshot(): State
      reads this, status
    {
      State(putParam, daeRow, error, rowsProcessed, status[..], ps, serverSide, bound)
    }

    /** What the call has done is `o`. */
    twostate predicate Did(o: Outcome, rc: Rc)
      reads this, status
    {
      Snapshot() == o.s && rc == o.rc && log == old(log) + o.events
    }

    method PushBindArray()
      modifies this`log
      ensures log == old(log) + PushParams(op, ps, bound)
    {
      if op.paramCount > 0 {
        log := log + [Push(ps, bound)];
      }
    }

    /** Converting a paramset; the first cell to ask for is kept, and the loop goes on. */
    method ConvertParamset(j: nat) returns (r: Conversion)
      requires op.Valid() && j < op.Count()
      modifies this`error, this`bound
      ensures r == Convert(op.cells[j], 0, putParam >= op.paramCount, old(error), -1)
      ensures error == (old(error) || !r.Ready?) && bound == if r.Ready? then j else -1
    {
      var dae := -1;
      for i := 0 to op.paramCount
        invariant -1 <= dae && error == old(error)
        invariant Convert(op.cells[j], 0, putParam >= op.paramCount, error, -1)
                  == Convert(op.cells[j], i, putParam >= op.paramCount, error, dae)
      {
        match op.cells[j][i]
        case Null =>
        case Value =>
          if error { bound := -1; return Failed; }
        case Dae =>
          if putParam < op.paramCount && dae == -1 { dae := i; }
        case Bad => error, bound := true, -1; return Failed;
        case Refused => error, bound := true, -1; return Rejected;
      }
      bound := j;
      return Ready(dae);
    }

    method DoExecute(j: nat) returns (ok: bool)
      requires Fits(op, Snapshot()) && j < op.Count()
      modifies this`log, this`error, this`putParam, status
      ensures Snapshot() == Perform(op, old(Snapshot()), j) && ok == op.succeeds[j]
      ensures log == old(log) + [Exec(ps, j, ok)]
    {
      ok := op.succeeds[j];
      log := log + [Exec(ps, j, ok)];
      putParam := NO_DATA_NEEDED;
      if !ok {
        error := true;
        status[j] := if j + 1 == op.Count() then Status.Error else DiagUnavailable;
      } else {
        status[j] := Status.Success;
      }
    }

    /** One turn of the loop over the paramsets. */
    method ExecuteParamset(j: nat, resuming: bool) returns (next: Next)
      requires Fits(op, Snapshot()) && j < op.Count()
      modifies this, status
      ensures var t := Paramset(op, old(Snapshot()), j, resuming);
              Snapshot() == t.s && next == t.next && log == old(log) + t.events
    {
      rowsProcessed := rowsProcessed + 1;
      if op.ignored[j] {
        status[j] := Unused;
        return GoOn(false);
      }
      if !resuming {
        var converted := ConvertParamset(j);
        match converted
        case Failed => return Ends(true, SQL_SUCCESS);
        case Rejected => return Ends(false, SQL_ERROR);
        case Ready(dae) =>
          PushBindArray();
          if dae >= 0 {
            putParam, daeRow := dae - 1, j + 1;
            SwapForServerSide(j);
            return Suspends;
          }
      }
      var ok := DoExecute(j);
      return GoOn(!ok);
    }

    method Execute() returns (rc: Rc)
      requires MayExecute(op, Snapshot())
      modifies this, status
      ensures Did(DaeModel.Execute(op, old(Snapshot())), rc)
    {
      hide Rows;
      var start, resuming := 0, false;
      error := false;
      if putParam >= op.paramCount && daeRow > 0 {
        start, resuming := daeRow - 1, true;
      }
      daeRow := 0;
      if putParam > NO_DATA_NEEDED && !(putParam >= op.paramCount) {
        error := true;               // HY010
      }
      if !(putParam > NO_DATA_NEEDED) {
        rowsProcessed := 0;
      }
      rc := ExecuteRows(start, resuming);
    }

    /** The loop over the paramsets, from where it starts or was interrupted. */
    method ExecuteRows(start: nat, interrupted: bool) returns (rc: Rc)
      requires Fits(op, Snapshot()) && start <= op.Count()
      modifies this, status
      ensures Did(Rows(op, old(Snapshot()), start, interrupted, 0), rc)
    {
      hide Paramset, Convert, Perform, Suspend, FirstDae, HasDae;
      var j, resuming, errors := start, interrupted, 0;
      ghost var goal := Rows(op, Snapshot(), j, resuming, 0);
      while j < op.Count()
        invariant j <= op.Count() && Fits(op, Snapshot())
        invariant var rest := Rows(op, Snapshot(), j, resuming, errors);
                  goal.s == rest.s && goal.rc == rest.rc && old(log) + goal.events == log + rest.events
      {
        var next := ExecuteParamset(j, resuming);
        match next {
          case GoOn(failed) =>
            if failed {
              errors := errors + 1;
            }
          case Suspends => return SQL_NEED_DATA;
          case Ends(counted, integral) => return Aggregate(op, if counted then errors + 1 else errors, integral);
        }
        j, resuming := j + 1, false;
      }
      return Aggregate(op, errors, SQL_SUCCESS);
    }

    /** Long data needs a server-side statement; the new one gets the bind array as well. */
    method SwapForServerSide(j: nat)
      requires op.Valid() && j < op.Count()
      modifies this`ps, this`serverSide, this`log
      ensures if !old(serverSide) && op.swaps[j]
              then serverSide && ps == old(ps) + 1 && log == old(log) + PushParams(op, ps, bound)
              else unchanged(this)
    {
      if !serverSide && op.swaps[j] {
        ps, serverSide := ps + 1, true;
        PushBindArray();
      }
    }

    /** SQLParamData; `row` and `param` tell the application which cell is wanted. */
    method ParamData() returns (rc: Rc, row: nat, param: nat)
      requires Fits(op, Snapshot()) && AskRow(Snapshot()) < op.Count()
      modifies this, status
      ensures Did(DaeModel.ParamData(op, old(Snapshot())), rc)
      ensures rc == SQL_NEED_DATA ==> row == AskRow(Snapshot()) && param == putParam
      decreases op.Count() - daeRow
    {
      hide Suspended, NextCell, DaeModel.Execute, DaeModel.ParamData;
      var i;
      row, i := NextDae();
      if op.paramCount == 0 || i < op.paramCount {
        ParamDataAsks(op, Snapshot());
      } else {
        ParamDataReenters(op, Snapshot());
      }
      param := i;
      if op.paramCount == 0 {
        error := true;               // HY010
        return SQL_ERROR, row, param;
      }
      if i < op.paramCount {
        putParam := i;
        log := log + [Ask(row, i)];
        return SQL_NEED_DATA, row, param;
      }
      putParam := op.paramCount;
      rowsProcessed := rowsProcessed - 1;
      rc := Execute();
      if rc == SQL_NEED_DATA {
        rc, row, param := ParamData();
      }
    }

    /** The row and the next data-at-execution cell of it, or the number of its cells. */
    method NextDae() returns (row: nat, i: nat)
      requires op.Valid() && AskRow(Snapshot()) < op.Count()
      ensures row == AskRow(Snapshot()) && i == NextCell(op, Snapshot())
    {
      row := if daeRow > 1 then daeRow - 1 else 0;
      i := if putParam > -1 then putParam + 1 else 0;
      if i > op.paramCount {
        return row, op.paramCount;
      }
      ghost var from := i;
      while i < op.paramCount
        invariant from <= i <= op.paramCount && FirstDae(op.cells[row], from) == FirstDae(op.cells[row], i)
      {
        if op.cells[row][i].Dae? {
          return;
        }
        i := i + 1;
      }
    }

    method PutData(put: Put) returns (rc: Rc)
      requires Fits(op, Snapshot()) && 0 <= putParam < op.paramCount
      modifies this`error, this`log
      ensures Did(DaeModel.PutData(op, old(Snapshot()), put), rc)
    {
      error := false;
      match put
      case NullData => return SQL_SUCCESS;
      case Lost => error := true; return SQL_ERROR;
      case Sent(data) => log := log + [LongData(ps, putParam, data)]; return SQL_SUCCESS;
    }

    /** SQLCancel; PutParam survives exactly if the query is killed. */
    method Cancel(odbc2: bool, busy: bool) returns (rc: Rc, action: CancelAction)
      modifies this`error, this`putParam, this`log
      ensures action == ActionFor(op, old(Snapshot()), odbc2, busy)
      ensures Did(DaeModel.Cancel(old(Snapshot()), action), rc)
      ensures putParam == if action.KillQuery? then old(putParam) else NO_DATA_NEEDED
    {
      error := false;
      if !odbc2 && putParam > NO_DATA_NEEDED && !(putParam >= op.paramCount) {
        ForgetData();
        return SQL_SUCCESS, GiveUp;
      }
      if busy {
        return SQL_SUCCESS, KillQuery;
      }
      ForgetData();
      return SQL_SUCCESS, CloseCursor;
    }

    /** RESET_DAE_STATUS. */
    method ForgetData()
      modifies this`putParam, this`log
      ensures putParam == NO_DATA_NEEDED
      ensures log == if old(putParam) == NO_DATA_NEEDED then old(log) else old(log) + [Cancelled]
    {
      if putParam != NO_DATA_NEEDED {
        log := log + [Cancelled];
      }
      putParam := NO_DATA_NEEDED;
    }
  }
}
