/** A whole array operation, however often it is suspended, does what one straight loop does. */
module DaeRuns {
  import opened DaeModel

  function PutAll(op: Op, s: State, puts: seq<Put>): (o: Outcome)
    requires Suspended(op, s) && Asked(op, s)
    ensures Suspended(op, o.s) && Asked(op, o.s)
    ensures o.s == s.(error := o.s.error)
    ensures o.events == Sending(s.ps, s.putParam, puts)
    decreases |puts|
  {
    if puts == [] then Outcome(s, SQL_SUCCESS, [])
    else
      var first := PutData(op, s, puts[0]);
      PutAll(op, first.s, puts[1..]).After(first.events)
  }

  ghost predicate MayServe(op: Op, o: Outcome) {
    && Fits(op, o.s)
    && (if o.rc == SQL_NEED_DATA then Suspended(op, o.s) && Asked(op, o.s) else o.s.putParam == NO_DATA_NEEDED)
  }

  /** The application's loop after SQLParamData has answered: the pieces of the value, and SQLParamData again. */
  function Serve(op: Op, asked: Outcome): (o: Outcome)
    requires MayServe(op, asked)
    ensures Fits(op, o.s) && o.s.putParam == NO_DATA_NEEDED && o.rc != SQL_NEED_DATA
    decreases if asked.rc == SQL_NEED_DATA then op.Count() - asked.s.daeRow + 1 else 0, op.paramCount - asked.s.putParam
  {
    if asked.rc == SQL_NEED_DATA then
      var put := PutAll(op, asked.s, op.answers[asked.s.daeRow - 1][asked.s.putParam]);
      Serve(op, ParamData(op, put.s)).After(asked.events + put.events)
    else asked
  }

  ghost predicate Consistent(op: Op, o: Outcome) {
    && Fits(op, o.s)
    && (if o.rc == SQL_NEED_DATA then Suspended(op, o.s) else o.s.putParam == NO_DATA_NEEDED)
  }

  function Served(op: Op, o: Outcome): (r: Outcome)
    requires Consistent(op, o)
    ensures Fits(op, r.s) && r.s.putParam == NO_DATA_NEEDED && r.rc != SQL_NEED_DATA
  {
    if o.rc == SQL_NEED_DATA then Serve(op, ParamData(op, o.s).After(o.events)) else o
  }

  /** SQLExecute, and then the application's loop for as long as data is needed. */
  function Run(op: Op, s: State): (o: Outcome)
    requires Fits(op, s) && s.putParam == NO_DATA_NEEDED
    ensures Fits(op, o.s) && o.s.putParam == NO_DATA_NEEDED && o.rc != SQL_NEED_DATA
  {
    Served(op, Execute(op, s))
  }

  // ---------- The straight loop ----------

  function Sending(ps: nat, param: nat, puts: seq<Put>): seq<Event> {
    if puts == [] then []
    else (if puts[0].Sent? then [LongData(ps, param, puts[0].data)] else []) + Sending(ps, param, puts[1..])
  }

  /** Asking for the cells of a paramset from `i` on, each followed by its pieces. */
  function Asking(op: Op, j: nat, i: nat, ps: nat): seq<Event>
    requires op.Valid() && j < op.Count() && i <= op.paramCount
    decreases op.paramCount - i
  {
    if i == op.paramCount then []
    else (if op.cells[j][i].Dae? then [Ask(j, i)] + Sending(ps, i, op.answers[j][i]) else []) + Asking(op, j, i + 1, ps)
  }

  /** The conversion of paramset `j` fails: on its own, or because of an error left from an earlier one. */
  predicate Blocked(op: Op, j: nat, stale: bool)
    requires op.Valid() && j < op.Count()
  {
    exists c :: c in op.cells[j] && (c.Bad? || c.Refused? || (stale && c.Value?))
  }

  /** Whether paramset `j` leaves an error on record for the next one. */
  predicate Leaves(op: Op, j: nat, stale: bool)
    requires op.Valid() && j < op.Count()
  {
    !op.succeeds[j] || (stale && !HasDae(op, j))
  }

  function Handing(op: Op, j: nat, ps: nat, swapped: bool): seq<Event> {
    PushParams(op, ps, j) + if swapped then PushParams(op, ps + 1, j) else []
  }

  /** One pass over the paramsets with nothing remembered in between but the statement in use and
      whether an error is on record. */
  function Straight(op: Op, j: nat, ps: nat, serverSide: bool, stale: bool): seq<Event>
    requires op.Valid() && j <= op.Count()
    decreases op.Count() - j
  {
    if j == op.Count() then []
    else if op.ignored[j] then Straight(op, j + 1, ps, serverSide, stale)
    else if Blocked(op, j, stale) then []
    else
      var swapped := Swaps(op, j, serverSide);
      var used := if swapped then ps + 1 else ps;
      Handing(op, j, ps, swapped)
      + (Asking(op, j, 0, used)
         + ([Exec(used, j, op.succeeds[j])]
            + Straight(op, j + 1, used, serverSide || swapped, Leaves(op, j, stale))))
  }

  /** The paramset the operation ends at: the first one that cannot be converted, if any. */
  function Stop(op: Op, j: nat, stale: bool): (k: nat)
    requires op.Valid() && j <= op.Count()
    ensures j <= k <= op.Count()
    decreases op.Count() - j
  {
    if j == op.Count() then j
    else if op.ignored[j] then Stop(op, j + 1, stale)
    else if Blocked(op, j, stale) then j
    else Stop(op, j + 1, Leaves(op, j, stale))
  }

  function StatusOf(op: Op, j: nat): Status
    requires op.Valid() && j < op.Count()
  {
    if op.ignored[j] then Unused
    else if op.succeeds[j] then Success
    else if j + 1 == op.Count() then Error
    else DiagUnavailable
  }

  /** The status entries from `j` up to where the operation ends, the others as they were. */
  function Statuses(op: Op, j: nat, stop: nat, before: seq<Status>): (after: seq<Status>)
    requires op.Valid() && |before| == op.Count()
    ensures |after| == |before|
  {
    seq(op.Count(), k requires 0 <= k < op.Count() => if j <= k < stop then StatusOf(op, k) else before[k])
  }

  function Counted(op: Op, j: nat, stop: nat): int
    requires op.Valid()
  {
    if stop < op.Count() then stop + 1 - j else stop - j
  }

  /** What has happened from paramset `j` on is what the straight loop does. */
  ghost predicate Continues(op: Op, s: State, j: nat, o: Outcome)
    requires Fits(op, s) && j <= op.Count()
  {
    var stop := Stop(op, j, s.error);
    && o.events == Straight(op, j, s.ps, s.serverSide, s.error)
    && o.s.rowsProcessed == s.rowsProcessed + Counted(op, j, stop)
    && o.s.status == Statuses(op, j, stop, s.status)
  }

  /** The same from the middle of the paramset the statement is suspended at. */
  ghost predicate Resumes(op: Op, s: State, o: Outcome)
    requires Suspended(op, s)
  {
    var j := s.daeRow - 1;
    var ok := op.succeeds[j];
    var stop := Stop(op, j + 1, !ok);
    && o.events == Asking(op, j, s.putParam + 1, s.ps)
                   + ([Exec(s.ps, j, ok)] + Straight(op, j + 1, s.ps, s.serverSide, !ok))
    && o.s.rowsProcessed == s.rowsProcessed + Counted(op, j + 1, stop)
    && o.s.status == Statuses(op, j, stop, s.status)
  }

  // ---------- The proof ----------

  lemma {:induction false} AskingSkips(op: Op, j: nat, i: nat, ps: nat)
    requires op.Valid() && j < op.Count() && i <= op.paramCount
    ensures Asking(op, j, i, ps) == Asking(op, j, FirstDae(op.cells[j], i), ps)
    decreases op.paramCount - i
  {
    if i < op.paramCount && !op.cells[j][i].Dae? {
      AskingSkips(op, j, i + 1, ps);
    }
  }

  lemma {:induction false} NothingAsked(op: Op, j: nat, i: nat, ps: nat)
    requires op.Valid() && j < op.Count() && !HasDae(op, j) && i <= op.paramCount
    ensures Asking(op, j, i, ps) == []
    decreases op.paramCount - i
  {
    if i < op.paramCount {
      NothingAsked(op, j, i + 1, ps);
    }
  }

  lemma FirstDaeExists(op: Op, j: nat)
    requires op.Valid() && j < op.Count()
    ensures HasDae(op, j) <==> FirstDae(op.cells[j], 0) < op.paramCount
  {
    if HasDae(op, j) {
      var k :| 0 <= k < |op.cells[j]| && op.cells[j][k] == Dae;
    }
  }

  lemma ConvertMeets(op: Op, j: nat, done: bool, stale: bool)
    requires op.Valid() && j < op.Count()
    ensures var r := Convert(op.cells[j], 0, done, stale, -1);
            && (r.Ready? <==> !Blocked(op, j, stale))
            && (r.Ready? ==> r.dae == if HasDae(op, j) && !done then FirstDae(op.cells[j], 0) else -1)
  {
    var cells := op.cells[j];
    FirstDaeExists(op, j);
    if Blocked(op, j, stale) {
      var c :| c in cells && (c.Bad? || c.Refused? || (stale && c.Value?));
    } else {
      assert forall k :: 0 <= k < |cells| ==> cells[k] in cells;
    }
  }

  /** The state a paramset is suspended in. */
  function SuspendedAt(op: Op, s: State, j: nat): State
    requires Fits(op, s) && j < op.Count()
  {
    Suspend(op, s.(rowsProcessed := s.rowsProcessed + 1, bound := j), j, FirstDae(op.cells[j], 0))
  }

  function PerformedAt(op: Op, s: State, j: nat): State
    requires Fits(op, s) && j < op.Count()
  {
    Perform(op, s.(rowsProcessed := s.rowsProcessed + 1, bound := j), j)
  }

  lemma RowsIgnores(op: Op, s: State, j: nat, resuming: bool, errors: nat)
    requires Fits(op, s) && j < op.Count() && op.ignored[j]
    ensures Rows(op, s, j, resuming, errors)
            == Rows(op, s.(rowsProcessed := s.rowsProcessed + 1, status := s.status[j := Unused]), j + 1, false, errors)
  {
    hide Paramset;
    ParamsetIgnores(op, s, j, resuming);
    var counted := s.(rowsProcessed := s.rowsProcessed + 1, status := s.status[j := Unused]);
    var rest := Rows(op, counted, j + 1, false, errors);
    assert [] + rest.events == rest.events;
  }

  lemma ParamsetIgnores(op: Op, s: State, j: nat, resuming: bool)
    requires Fits(op, s) && j < op.Count() && op.ignored[j]
    ensures Paramset(op, s, j, resuming)
            == Turn(s.(rowsProcessed := s.rowsProcessed + 1, status := s.status[j := Unused]), [], GoOn(false))
  {
    hide Convert, Suspend, Perform;
  }

  lemma RowsSuspends(op: Op, s: State, j: nat, errors: nat)
    requires Fits(op, s) && j < op.Count() && !DaeDone(op, s)
    requires !op.ignored[j] && !Blocked(op, j, s.error) && HasDae(op, j)
    ensures Rows(op, s, j, false, errors)
            == Outcome(SuspendedAt(op, s, j), SQL_NEED_DATA, Handing(op, j, s.ps, Swaps(op, j, s.serverSide)))
  {
    ConvertMeets(op, j, DaeDone(op, s), s.error);
  }

  lemma RowsPerforms(op: Op, s: State, j: nat, errors: nat)
    requires Fits(op, s) && j < op.Count() && !op.ignored[j] && !Blocked(op, j, s.error)
    requires DaeDone(op, s) || !HasDae(op, j)
    ensures Rows(op, s, j, false, errors)
            == Rows(op, PerformedAt(op, s, j), j + 1, false, Plus(errors, !op.succeeds[j]))
                 .After(Handing(op, j, s.ps, false) + [Exec(s.ps, j, op.succeeds[j])])
  {
    ConvertMeets(op, j, DaeDone(op, s), s.error);
  }

  lemma RowsStops(op: Op, s: State, j: nat, errors: nat)
    requires Fits(op, s) && j < op.Count()
    requires !op.ignored[j] && Blocked(op, j, s.error)
    ensures var o := Rows(op, s, j, false, errors);
            && o.rc != SQL_NEED_DATA && o.events == []
            && o.s == s.(rowsProcessed := s.rowsProcessed + 1, error := true, bound := -1)
  {
    ConvertMeets(op, j, DaeDone(op, s), s.error);
  }

  lemma RowsResumes(op: Op, s: State, j: nat, errors: nat)
    requires Fits(op, s) && j < op.Count() && !op.ignored[j]
    ensures Rows(op, s, j, true, errors)
            == Rows(op, Perform(op, s.(rowsProcessed := s.rowsProcessed + 1), j), j + 1, false,
                    Plus(errors, !op.succeeds[j]))
                 .After([Exec(s.ps, j, op.succeeds[j])])
  {
  }

  lemma Assoc(a: seq<Event>, b: seq<Event>, c: seq<Event>)
    ensures (a + b) + c == a + (b + c)
  {
  }

  /** One turn of the application's loop. */
  lemma ServeTurn(op: Op, asked: Outcome, put: Outcome)
    requires MayServe(op, asked) && asked.rc == SQL_NEED_DATA
    requires put == PutAll(op, asked.s, op.answers[asked.s.daeRow - 1][asked.s.putParam])
    ensures Serve(op, asked) == Serve(op, ParamData(op, put.s)).After(asked.events + put.events)
  {
    hide ParamData, PutAll;
  }

  lemma ServeAfter(op: Op, asked: Outcome, earlier: seq<Event>)
    requires MayServe(op, asked)
    ensures Serve(op, asked.After(earlier)) == Serve(op, asked).After(earlier)
  {
    hide ParamData, PutAll;
    if asked.rc == SQL_NEED_DATA {
      var put := PutAll(op, asked.s, op.answers[asked.s.daeRow - 1][asked.s.putParam]);
      ServeTurn(op, asked, put);
      ServeTurn(op, asked.After(earlier), put);
      Assoc(earlier, asked.events, put.events);
      Assoc(earlier, asked.events + put.events, Serve(op, ParamData(op, put.s)).events);
    }
  }

  lemma ParamDataResumes(op: Op, s: State)
    requires Suspended(op, s)
    requires FirstDae(op.cells[s.daeRow - 1], s.putParam + 1) == op.paramCount
    ensures var o := Execute(op, s.(putParam := op.paramCount, rowsProcessed := s.rowsProcessed - 1));
            && Consistent(op, o)
            && ParamData(op, s) == if o.rc == SQL_NEED_DATA then ParamData(op, o.s).After(o.events) else o
  {
    hide Rows, Execute, FirstDae;
  }

  lemma ServeNothing(op: Op, o: Outcome)
    requires MayServe(op, o) && o.rc != SQL_NEED_DATA
    ensures Serve(op, o) == o
  {
  }

  /** After the last value of a paramset, serving goes on exactly where the resumed execution stops. */
  lemma ServeResumes(op: Op, s: State)
    requires Suspended(op, s)
    requires FirstDae(op.cells[s.daeRow - 1], s.putParam + 1) == op.paramCount
    ensures Serve(op, ParamData(op, s))
            == Served(op, Execute(op, s.(putParam := op.paramCount, rowsProcessed := s.rowsProcessed - 1)))
  {
    hide Execute, ParamData, Serve, FirstDae;
    var o := Execute(op, s.(putParam := op.paramCount, rowsProcessed := s.rowsProcessed - 1));
    ParamDataResumes(op, s);
    if o.rc != SQL_NEED_DATA {
      ServeNothing(op, o);
    }
  }

  lemma ResumedExecution(op: Op, s: State)
    requires Suspended(op, s)
    ensures var j := s.daeRow - 1;
            Execute(op, s.(putParam := op.paramCount, rowsProcessed := s.rowsProcessed - 1))
            == Rows(op, Perform(op, s.(error := false, daeRow := 0), j),
                    j + 1, false, Plus(0, !op.succeeds[j])).After([Exec(s.ps, j, op.succeeds[j])])
  {
    var j := s.daeRow - 1;
    var t := s.(putParam := op.paramCount, rowsProcessed := s.rowsProcessed - 1, error := false, daeRow := 0);
    assert Execute(op, s.(putParam := op.paramCount, rowsProcessed := s.rowsProcessed - 1)) == Rows(op, t, j, true, 0);
    assert Perform(op, t.(rowsProcessed := t.rowsProcessed + 1), j) == Perform(op, s.(error := false, daeRow := 0), j);
  }

  lemma SuspendedStep(op: Op, s: State, j: nat, o: Outcome)
    requires Fits(op, s) && j < op.Count() && !op.ignored[j]
    requires HasDae(op, j) && !Blocked(op, j, s.error)
    requires Suspended(op, SuspendedAt(op, s, j)) && Resumes(op, SuspendedAt(op, s, j), o)
    ensures Continues(op, s, j, o.After(Handing(op, j, s.ps, Swaps(op, j, s.serverSide))))
  {
    hide Asking, Rows;
    AskingSkips(op, j, 0, SuspendedAt(op, s, j).ps);
  }

  lemma PerformedStep(op: Op, s: State, j: nat, o: Outcome)
    requires Fits(op, s) && j < op.Count() && !op.ignored[j]
    requires !HasDae(op, j) && !Blocked(op, j, s.error)
    requires Continues(op, PerformedAt(op, s, j), j + 1, o)
    ensures Continues(op, s, j, o.After(Handing(op, j, s.ps, false) + [Exec(s.ps, j, op.succeeds[j])]))
  {
    hide Straight, Stop, Asking, Statuses, Blocked, PushParams;
    var stop := Stop(op, j + 1, PerformedAt(op, s, j).error);
    var exec, rest := [Exec(s.ps, j, op.succeeds[j])], Straight(op, j + 1, s.ps, s.serverSide, Leaves(op, j, s.error));
    NothingAsked(op, j, 0, s.ps);
    StraightNext(op, j, s.ps, s.serverSide, s.error);
    StatusesNext(op, j, stop, s.status);
    assert Handing(op, j, s.ps, false) + ([] + (exec + rest)) == (Handing(op, j, s.ps, false) + exec) + rest;
  }

  lemma StraightNext(op: Op, j: nat, ps: nat, serverSide: bool, stale: bool)
    requires op.Valid() && j < op.Count() && !op.ignored[j] && !Blocked(op, j, stale) && !HasDae(op, j)
    ensures Straight(op, j, ps, serverSide, stale)
            == Handing(op, j, ps, false)
               + (Asking(op, j, 0, ps)
                  + ([Exec(ps, j, op.succeeds[j])] + Straight(op, j + 1, ps, serverSide, Leaves(op, j, stale))))
    ensures Stop(op, j, stale) == Stop(op, j + 1, Leaves(op, j, stale))
  {
    hide Asking, Blocked, Leaves, PushParams;
  }

  lemma StatusesNext(op: Op, j: nat, stop: nat, before: seq<Status>)
    requires op.Valid() && |before| == op.Count() && j < stop <= op.Count()
    ensures Statuses(op, j + 1, stop, before[j := StatusOf(op, j)]) == Statuses(op, j, stop, before)
  {
  }

  lemma IgnoredStep(op: Op, s: State, j: nat, o: Outcome)
    requires Fits(op, s) && j < op.Count() && op.ignored[j]
    requires Continues(op, s.(rowsProcessed := s.rowsProcessed + 1, status := s.status[j := Unused]), j + 1, o)
    ensures Continues(op, s, j, o)
  {
  }

  lemma SuspendedCase(op: Op, s: State, j: nat, errors: nat)
    requires Fits(op, s) && j < op.Count() && s.putParam == NO_DATA_NEEDED
    requires !op.ignored[j] && !Blocked(op, j, s.error) && HasDae(op, j)
    requires Suspended(op, SuspendedAt(op, s, j))
    requires Resumes(op, SuspendedAt(op, s, j), Serve(op, ParamData(op, SuspendedAt(op, s, j))))
    ensures Continues(op, s, j, Served(op, Rows(op, s, j, false, errors)))
  {
    RowsSuspends(op, s, j, errors);
    ServeAfter(op, ParamData(op, SuspendedAt(op, s, j)), Handing(op, j, s.ps, Swaps(op, j, s.serverSide)));
    SuspendedStep(op, s, j, Serve(op, ParamData(op, SuspendedAt(op, s, j))));
  }

  lemma PerformedCase(op: Op, s: State, j: nat, errors: nat, rest: Outcome)
    requires Fits(op, s) && j < op.Count() && s.putParam == NO_DATA_NEEDED
    requires !op.ignored[j] && !Blocked(op, j, s.error) && !HasDae(op, j)
    requires rest == Rows(op, PerformedAt(op, s, j), j + 1, false, Plus(errors, !op.succeeds[j]))
    requires Continues(op, PerformedAt(op, s, j), j + 1, Served(op, rest))
    ensures Continues(op, s, j, Served(op, Rows(op, s, j, false, errors)))
  {
    RowsPerforms(op, s, j, errors);
    ServedAfter(op, rest, Handing(op, j, s.ps, false) + [Exec(s.ps, j, op.succeeds[j])]);
    PerformedStep(op, s, j, Served(op, rest));
  }

  /** From paramset `j` on, with nothing handed over yet. */
  lemma {:induction false} RowsRun(op: Op, s: State, j: nat, errors: nat)
    requires Fits(op, s) && j <= op.Count() && s.putParam == NO_DATA_NEEDED
    ensures Continues(op, s, j, Served(op, Rows(op, s, j, false, errors)))
    decreases op.Count() - j, op.paramCount + 2
  {
    hide Serve, ParamData, Paramset;
    if j == op.Count() {
      assert s.status == Statuses(op, j, j, s.status);
    } else if op.ignored[j] {
      var t := s.(rowsProcessed := s.rowsProcessed + 1, status := s.status[j := Unused]);
      RowsIgnores(op, s, j, false, errors);
      RowsRun(op, t, j + 1, errors);
      IgnoredStep(op, s, j, Served(op, Rows(op, t, j + 1, false, errors)));
    } else if Blocked(op, j, s.error) {
      RowsStops(op, s, j, errors);
      assert s.status == Statuses(op, j, j, s.status);
    } else if HasDae(op, j) {
      RowsSuspends(op, s, j, errors);
      SuspendedRun(op, SuspendedAt(op, s, j));
      SuspendedCase(op, s, j, errors);
    } else {
      var rest := Plus(errors, !op.succeeds[j]);
      RowsRun(op, PerformedAt(op, s, j), j + 1, rest);
      PerformedCase(op, s, j, errors, Rows(op, PerformedAt(op, s, j), j + 1, false, rest));
    }
  }

  lemma ServedAfter(op: Op, o: Outcome, earlier: seq<Event>)
    requires Consistent(op, o)
    ensures Served(op, o.After(earlier)) == Served(op, o).After(earlier)
  {
    hide Serve, ParamData, Execute;
    if o.rc == SQL_NEED_DATA {
      var asked := ParamData(op, o.s);
      assert asked.After(earlier + o.events) == asked.After(o.events).After(earlier);
      ServeAfter(op, asked.After(o.events), earlier);
    }
  }

  lemma AskedStep(op: Op, s: State, i: nat, t: State, o: Outcome)
    requires Suspended(op, s) && Suspended(op, t)
    requires i == FirstDae(op.cells[s.daeRow - 1], s.putParam + 1) < op.paramCount
    requires t == s.(putParam := i, error := t.error) && Resumes(op, t, o)
    ensures Resumes(op, s, o.After([Ask(s.daeRow - 1, i)] + Sending(s.ps, i, op.answers[s.daeRow - 1][i])))
  {
    hide Straight, Stop;
    var j := s.daeRow - 1;
    AskingSkips(op, j, s.putParam + 1, s.ps);
    assert Asking(op, j, i, s.ps) == [Ask(j, i)] + Sending(s.ps, i, op.answers[j][i]) + Asking(op, j, i + 1, s.ps);
  }

  lemma ResumedStep(op: Op, s: State, o: Outcome)
    requires Suspended(op, s)
    requires FirstDae(op.cells[s.daeRow - 1], s.putParam + 1) == op.paramCount
    requires Continues(op, Perform(op, s.(error := false, daeRow := 0), s.daeRow - 1), s.daeRow, o)
    ensures Resumes(op, s, o.After([Exec(s.ps, s.daeRow - 1, op.succeeds[s.daeRow - 1])]))
  {
    hide Straight, Stop;
    AskingSkips(op, s.daeRow - 1, s.putParam + 1, s.ps);
  }

  lemma ResumedCase(op: Op, s: State, rest: Outcome)
    requires Suspended(op, s)
    requires FirstDae(op.cells[s.daeRow - 1], s.putParam + 1) == op.paramCount
    requires rest == Rows(op, Perform(op, s.(error := false, daeRow := 0), s.daeRow - 1), s.daeRow, false,
                          Plus(0, !op.succeeds[s.daeRow - 1]))
    requires Continues(op, Perform(op, s.(error := false, daeRow := 0), s.daeRow - 1), s.daeRow, Served(op, rest))
    ensures Resumes(op, s, Serve(op, ParamData(op, s)))
  {
    ServeResumes(op, s);
    ResumedExecution(op, s);
    ServedAfter(op, rest, [Exec(s.ps, s.daeRow - 1, op.succeeds[s.daeRow - 1])]);
    ResumedStep(op, s, Served(op, rest));
  }

  lemma AskedCase(op: Op, s: State, i: nat, put: Outcome)
    requires Suspended(op, s) && i == FirstDae(op.cells[s.daeRow - 1], s.putParam + 1) < op.paramCount
    requires Suspended(op, s.(putParam := i)) && put == PutAll(op, s.(putParam := i), op.answers[s.daeRow - 1][i])
    requires Resumes(op, put.s, Serve(op, ParamData(op, put.s)))
    ensures Resumes(op, s, Serve(op, ParamData(op, s)))
  {
    hide Serve, PutAll, Execute, Resumes;
    var rest := Serve(op, ParamData(op, put.s));
    var asked := Outcome(s.(putParam := i), SQL_NEED_DATA, [Ask(s.daeRow - 1, i)]);
    assert ParamData(op, s) == asked;
    AskedStep(op, s, i, put.s, rest);
    ServeTurn(op, asked, put);
  }

  /** From the middle of a suspended paramset on. */
  lemma {:induction false} SuspendedRun(op: Op, s: State)
    requires Suspended(op, s)
    ensures Resumes(op, s, Serve(op, ParamData(op, s)))
    decreases op.Count() - (s.daeRow - 1), op.paramCount - s.putParam
  {
    hide Serve, ParamData, Resumes, Continues, Rows, PutAll;
    var j := s.daeRow - 1;
    var i := FirstDae(op.cells[j], s.putParam + 1);
    if i < op.paramCount {
      var put := PutAll(op, s.(putParam := i), op.answers[j][i]);
      SuspendedRun(op, put.s);
      AskedCase(op, s, i, put);
    } else {
      var u := Perform(op, s.(error := false, daeRow := 0), j);
      var errors := Plus(0, !op.succeeds[j]);
      RowsRun(op, u, j + 1, errors);
      ResumedCase(op, s, Rows(op, u, j + 1, false, errors));
    }
  }

  /** The run theorem: whatever the layout, the ignored paramsets and the failures are, an operation
      started on an idle statement, whatever it remembers of an earlier one, is the straight loop. */
  lemma RunIsStraight(op: Op, s: State)
    requires Fits(op, s) && s.putParam == NO_DATA_NEEDED
    ensures var o, stop := Run(op, s), Stop(op, 0, false);
            && o.events == Straight(op, 0, s.ps, s.serverSide, false)
            && o.s.rowsProcessed == Counted(op, 0, stop)
            && o.s.status == Statuses(op, 0, stop, s.status)
            && o.s.putParam == NO_DATA_NEEDED
  {
    RowsRun(op, s.(error := false, daeRow := 0, rowsProcessed := 0), 0, 0);
  }
}
