/** Data-at-execution over parameter arrays: the state that survives between the calls, and what
    SQLExecute, SQLParamData, SQLPutData and SQLCancel do to it. */
module DaeModel {

  /** What the application has put into one cell of the parameter array. */
  datatype Cell =
    | Null     // no data pointer, or an indicator that stands for no value: the error record is not consulted
    | Value    // an ordinary value: its conversion ends by returning what the error record holds
    | Dae      // the value comes later, through SQLPutData
    | Bad      // a value whose own conversion fails
    | Refused  // the parameter is not bound, or its types cannot be converted

  /** One SQLPutData call, and how the client library takes it. */
  datatype Put = Sent(data: string) | Lost | NullData

  /** The application's side of one array operation, and how the server will answer. */
  datatype Op = Op(
    paramCount: nat,
    arraySize: nat,
    cells: seq<seq<Cell>>,   // one row per paramset
    ignored: seq<bool>,      // SQL_PARAM_IGNORE
    succeeds: seq<bool>,     // does the server accept the paramset
    swaps: seq<bool>,        // can a server-side statement be prepared at that paramset
    answers: seq<seq<seq<Put>>>)  // what the application sends when it is asked for a cell
  {
    ghost predicate Valid() {
      && |cells| == (if paramCount > 0 then arraySize else 1)
      && |ignored| == |succeeds| == |swaps| == |cells|
      && |answers| == |cells|
      && forall j :: 0 <= j < |cells| ==> |cells[j]| == |answers[j]| == paramCount
    }

    function Count(): nat { |cells| }
  }

  datatype Status = Untouched | Unused | Success | Error | DiagUnavailable

  /** Everything the server sees, and every parameter the application is asked for. */
  datatype Event =
    | Push(ps: nat, row: int)                    // the bind array, holding the values of `row`
    | Ask(row: int, param: nat)                  // SQLParamData points the application at a cell
    | LongData(ps: nat, param: nat, data: string)
    | Exec(ps: nat, row: int, ok: bool)
    | Cancelled

  datatype Rc = SQL_SUCCESS | SQL_SUCCESS_WITH_INFO | SQL_ERROR | SQL_NEED_DATA

  const NO_DATA_NEEDED := -2

  /** What a statement remembers between two calls. */
  datatype State = State(
    putParam: int,
    daeRow: nat,             // 1-based, 0 if there is nothing to resume
    error: bool,             // the error record holds SQL_ERROR
    rowsProcessed: int,
    status: seq<Status>,
    ps: nat,                 // the prepared statement in use
    serverSide: bool,
    bound: int)              // the paramset whose values are in the bind array, -1 if they are mixed

  /** The result of a call: the new state, the return code, and what happened meanwhile. */
  datatype Outcome = Outcome(s: State, rc: Rc, events: seq<Event>)
  {
    function After(earlier: seq<Event>): Outcome { this.(events := earlier + events) }
  }

  predicate DaeDone(op: Op, s: State) { s.putParam >= op.paramCount }

  predicate Resuming(op: Op, s: State) { DaeDone(op, s) && s.daeRow > 0 }

  predicate HasDae(op: Op, j: nat)
    requires j < op.Count()
  {
    Dae in op.cells[j]
  }

  ghost predicate Fits(op: Op, s: State) { op.Valid() && |s.status| == op.Count() }

  /** The statement waits for the application: either it has just been suspended, or it has asked
      for the cell `putParam` of the paramset it stands at. */
  ghost predicate Suspended(op: Op, s: State) {
    && Fits(op, s)
    && 1 <= s.daeRow <= op.Count()
    && !op.ignored[s.daeRow - 1]
    && -1 <= s.putParam < op.paramCount
    && HasDae(op, s.daeRow - 1)
    && (Asked(op, s) || FirstDae(op.cells[s.daeRow - 1], 0) == s.putParam + 1)
  }

  ghost predicate Asked(op: Op, s: State)
    requires op.Valid() && 1 <= s.daeRow <= op.Count() && s.putParam < op.paramCount
  {
    s.putParam >= 0 && op.cells[s.daeRow - 1][s.putParam].Dae?
  }

  /** The first data-at-execution cell at or after `i`, or the length if there is none. */
  function FirstDae(cells: seq<Cell>, i: nat): (d: nat)
    requires i <= |cells|
    ensures i <= d <= |cells|
    ensures d < |cells| ==> cells[d].Dae?
    ensures forall k :: i <= k < d ==> !cells[k].Dae?
    decreases |cells| - i
  {
    if i == |cells| || cells[i].Dae? then i else FirstDae(cells, i + 1)
  }

  datatype Conversion = Ready(dae: int) | Failed | Rejected

  /** Converting the cells of a paramset from `i` on. `done` is the state of the data-at-execution
      mark, `error` that of the error record, `dae` the first cell to ask for so far. */
  function Convert(cells: seq<Cell>, i: nat, done: bool, error: bool, dae: int): (r: Conversion)
    requires i <= |cells| && -1 <= dae
    ensures r.Ready? <==> forall k :: i <= k < |cells| ==>
              !cells[k].Bad? && !cells[k].Refused? && !(error && cells[k].Value?)
    ensures r.Ready? && (dae >= 0 || done) ==> r.dae == dae
    ensures r.Ready? && dae < 0 && !done ==>
              r.dae == if FirstDae(cells, i) < |cells| then FirstDae(cells, i) else -1
    decreases |cells| - i
  {
    if i == |cells| then Ready(dae)
    else match cells[i]
      case Null => Convert(cells, i + 1, done, error, dae)
      case Value => if error then Failed else Convert(cells, i + 1, done, error, dae)
      case Dae => Convert(cells, i + 1, done, error, if done || dae >= 0 then dae else i)
      case Bad => Failed
      case Refused => Rejected
  }

  function PushParams(op: Op, ps: nat, row: int): seq<Event> {
    if op.paramCount > 0 then [Push(ps, row)] else []
  }

  /** What executing a paramset that has been handed over leaves; the data-at-execution mark is reset. */
  function Perform(op: Op, s: State, j: nat): State
    requires Fits(op, s) && j < op.Count()
  {
    var ok := op.succeeds[j];
    s.(error := s.error || !ok,
       putParam := NO_DATA_NEEDED,
       status := s.status[j := if ok then Success else if j + 1 == op.Count() then Error else DiagUnavailable])
  }

  predicate Swaps(op: Op, j: nat, serverSide: bool)
    requires op.Valid() && j < op.Count()
  {
    HasDae(op, j) && !serverSide && op.swaps[j]
  }

  /** Remembering where to continue, and exchanging a client-side statement for a server-side one. */
  function Suspend(op: Op, s: State, j: nat, dae: nat): State
    requires Fits(op, s) && j < op.Count()
  {
    var t := s.(putParam := dae - 1, daeRow := j + 1);
    if !s.serverSide && op.swaps[j] then t.(ps := s.ps + 1, serverSide := true) else t
  }

  function Aggregate(op: Op, errors: nat, rc: Rc): Rc {
    if errors == 0 then rc else if errors < op.arraySize then SQL_SUCCESS_WITH_INFO else SQL_ERROR
  }

  /** How the loop leaves a paramset. */
  datatype Next = GoOn(failed: bool) | Suspends | Ends(counted: bool, rc: Rc)

  datatype Turn = Turn(s: State, events: seq<Event>, next: Next)

  /** Nothing is under way, or the paramset whose values have been supplied comes next. */
  predicate Orderly(op: Op, s: State, j: nat, resuming: bool)
    requires op.Valid()
  {
    s.putParam == NO_DATA_NEEDED || (resuming && j < op.Count() && !op.ignored[j])
  }

  /** One paramset; `resuming` if it has been handed over already. */
  function Paramset(op: Op, s: State, j: nat, resuming: bool): (t: Turn)
    requires Fits(op, s) && j < op.Count()
    ensures Fits(op, t.s) && (t.next.Ends? ==> t.next.rc != SQL_NEED_DATA)
    ensures t.next.Suspends? ==> Suspended(op, t.s) && t.s.daeRow == j + 1 && !Asked(op, t.s) && !resuming
    ensures !t.next.Suspends? ==>
              && t.s.daeRow == s.daeRow && t.s.putParam in {NO_DATA_NEEDED, s.putParam}
              && (Orderly(op, s, j, resuming) ==> t.s.putParam == NO_DATA_NEEDED)
  {
    var counted := s.(rowsProcessed := s.rowsProcessed + 1);
    var exec := [Exec(s.ps, j, op.succeeds[j])];
    if op.ignored[j] then Turn(counted.(status := s.status[j := Unused]), [], GoOn(false))
    else if resuming then Turn(Perform(op, counted, j), exec, GoOn(!op.succeeds[j]))
    else match Convert(op.cells[j], 0, DaeDone(op, s), s.error, -1)
      case Failed => Turn(counted.(error := true, bound := -1), [], Ends(true, SQL_SUCCESS))
      case Rejected => Turn(counted.(error := true, bound := -1), [], Ends(false, SQL_ERROR))
      case Ready(dae) =>
        var bound := counted.(bound := j);
        var push := PushParams(op, s.ps, j);
        if dae >= 0 then
          var t := Suspend(op, bound, j, dae);
          Turn(t, push + if t.ps != s.ps then PushParams(op, t.ps, t.bound) else [], Suspends)
        else Turn(Perform(op, bound, j), push + exec, GoOn(!op.succeeds[j]))
  }

  function Plus(errors: nat, counted: bool): nat { if counted then errors + 1 else errors }

  /** The paramsets from `j` on. */
  function Rows(op: Op, s: State, j: nat, resuming: bool, errors: nat): (o: Outcome)
    requires Fits(op, s) && j <= op.Count()
    ensures Fits(op, o.s)
    ensures o.rc != SQL_NEED_DATA ==> o.s.daeRow == s.daeRow && o.s.putParam in {NO_DATA_NEEDED, s.putParam}
    ensures o.rc != SQL_NEED_DATA && Orderly(op, s, j, resuming) ==> o.s.putParam == NO_DATA_NEEDED
    ensures o.rc == SQL_NEED_DATA ==>
              Suspended(op, o.s) && o.s.daeRow > (if resuming then j + 1 else j) && !Asked(op, o.s)
    decreases op.Count() - j
  {
    if j == op.Count() then Outcome(s, Aggregate(op, errors, SQL_SUCCESS), [])
    else
      var t := Paramset(op, s, j, resuming);
      match t.next
      case GoOn(failed) => Rows(op, t.s, j + 1, false, Plus(errors, failed)).After(t.events)
      case Suspends => Outcome(t.s, SQL_NEED_DATA, t.events)
      case Ends(counted, rc) => Outcome(t.s, Aggregate(op, Plus(errors, counted), rc), t.events)
  }

  /** The row SQLParamData looks at. DaeRowNumber is 1-based; if there is none, it is the first row. */
  function AskRow(s: State): nat { if s.daeRow > 1 then s.daeRow - 1 else 0 }

  ghost predicate MayExecute(op: Op, s: State) { Fits(op, s) && (Resuming(op, s) ==> s.daeRow <= op.Count()) }

  /** A call while data is needed leaves HY010 on record and forgets the row, and goes on. */
  function Execute(op: Op, s: State): (o: Outcome)
    requires MayExecute(op, s)
    ensures Fits(op, o.s)
    ensures o.rc != SQL_NEED_DATA ==> o.s.daeRow == 0
    ensures o.rc != SQL_NEED_DATA && (s.putParam == NO_DATA_NEEDED || (Resuming(op, s) && !op.ignored[s.daeRow - 1]))
            ==> o.s.putParam == NO_DATA_NEEDED
    ensures o.rc == SQL_NEED_DATA ==>
              && Suspended(op, o.s) && o.s.daeRow > (if Resuming(op, s) then s.daeRow else 0) && !Asked(op, o.s)
              && AskRow(o.s) < op.Count()
  {
    var t := s.(error := s.putParam > NO_DATA_NEEDED && !DaeDone(op, s),
                daeRow := 0,
                rowsProcessed := if s.putParam > NO_DATA_NEEDED then s.rowsProcessed else 0);
    if Resuming(op, s) then Rows(op, t, s.daeRow - 1, true, 0) else Rows(op, t, 0, false, 0)
  }

  /** The next cell to ask for, or the number of parameters. */
  function NextCell(op: Op, s: State): (i: nat)
    requires op.Valid() && AskRow(s) < op.Count()
    ensures i <= op.paramCount && (i < op.paramCount ==> op.cells[AskRow(s)][i].Dae? && i > s.putParam)
  {
    if s.putParam >= op.paramCount then op.paramCount
    else FirstDae(op.cells[AskRow(s)], if s.putParam > -1 then s.putParam + 1 else 0)
  }

  /** SQLParamData: the next cell to ask for, or the rest of the array. */
  function ParamData(op: Op, s: State): (o: Outcome)
    requires Fits(op, s) && AskRow(s) < op.Count()
    ensures Fits(op, o.s) && AskRow(o.s) < op.Count()
    ensures Suspended(op, s) && o.rc != SQL_NEED_DATA ==> o.s.putParam == NO_DATA_NEEDED
    ensures Suspended(op, s) && o.rc == SQL_NEED_DATA ==>
              Suspended(op, o.s) && Asked(op, o.s)
              && (o.s.daeRow > s.daeRow || (o.s.daeRow == s.daeRow && o.s.putParam > s.putParam))
    ensures o.rc == SQL_NEED_DATA ==> 0 <= o.s.putParam < op.paramCount
    decreases op.Count() - s.daeRow
  {
    var i := NextCell(op, s);
    if op.paramCount == 0 then Outcome(s.(error := true), SQL_ERROR, [])
    else if i < op.paramCount then Outcome(s.(putParam := i), SQL_NEED_DATA, [Ask(AskRow(s), i)])
    else
      var o := Execute(op, s.(putParam := op.paramCount, rowsProcessed := s.rowsProcessed - 1));
      if o.rc == SQL_NEED_DATA then ParamData(op, o.s).After(o.events) else o
  }

  lemma ParamDataReenters(op: Op, s: State)
    requires Fits(op, s) && AskRow(s) < op.Count() && op.paramCount > 0 && NextCell(op, s) == op.paramCount
    ensures var t := s.(putParam := op.paramCount, rowsProcessed := s.rowsProcessed - 1);
            && MayExecute(op, t)
            && var o := Execute(op, t);
               && (o.rc == SQL_NEED_DATA ==>
                     Fits(op, o.s) && AskRow(o.s) < op.Count() && op.Count() - o.s.daeRow < op.Count() - s.daeRow
                     && ParamData(op, s) == ParamData(op, o.s).After(o.events))
               && (o.rc != SQL_NEED_DATA ==> ParamData(op, s) == o)
  {
    hide Execute, NextCell, Asked;
  }

  lemma ParamDataAsks(op: Op, s: State)
    requires Fits(op, s) && AskRow(s) < op.Count() && (op.paramCount > 0 ==> NextCell(op, s) < op.paramCount)
    ensures ParamData(op, s)
            == if op.paramCount == 0 then Outcome(s.(error := true), SQL_ERROR, [])
               else Outcome(s.(putParam := NextCell(op, s)), SQL_NEED_DATA, [Ask(AskRow(s), NextCell(op, s))])
  {
    hide Execute, NextCell, Asked;
  }

  /** SQLPutData for the cell that has been asked for. */
  function PutData(op: Op, s: State, put: Put): (o: Outcome)
    requires Fits(op, s) && 0 <= s.putParam < op.paramCount
    ensures Suspended(op, s) && Asked(op, s) ==> Suspended(op, o.s) && Asked(op, o.s)
    ensures o.s == s.(error := put.Lost?)
  {
    match put
    case Sent(data) => Outcome(s.(error := false), SQL_SUCCESS, [LongData(s.ps, s.putParam, data)])
    case Lost => Outcome(s.(error := true), SQL_ERROR, [])
    case NullData => Outcome(s.(error := false), SQL_SUCCESS, [])
  }

  datatype CancelAction = GiveUp | CloseCursor | KillQuery

  /** What SQLCancel does about the statement: data that is waited for is given up; otherwise the cursor is closed,
      unless another thread has the connection and the query has to be killed at the server. For ODBC 2 there is no
      such first case. */
  function ActionFor(op: Op, s: State, odbc2: bool, busy: bool): CancelAction {
    if !odbc2 && s.putParam > NO_DATA_NEEDED && !DaeDone(op, s) then GiveUp else if busy then KillQuery else CloseCursor
  }

  /** Closing the cursor gives the data up as well; daeRow stays where it is. */
  function Cancel(s: State, action: CancelAction): (o: Outcome)
    ensures o.s == s.(error := false, putParam := o.s.putParam)
    ensures o.s.putParam == s.putParam <==> action.KillQuery? || s.putParam == NO_DATA_NEEDED
  {
    if action.KillQuery? || s.putParam == NO_DATA_NEEDED then Outcome(s.(error := false), SQL_SUCCESS, [])
    else Outcome(s.(error := false, putParam := NO_DATA_NEEDED), SQL_SUCCESS, [Cancelled])
  }
}
