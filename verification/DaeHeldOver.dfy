/** SQLExecute while data is needed: a call that the Driver Manager would not let through, and that the driver does not
    stop either. What it does to the bind array that is held, and what the calls after it do. */
module DaeHeldOver {
  import opened DaeModel
  import opened DaeRuns
  import opened DaeProtocol

  /** The first paramset that is not ignored. */
  function FirstLive(op: Op, j: nat): (k: nat)
    requires op.Valid() && j <= op.Count()
    ensures j <= k <= op.Count() && (k < op.Count() ==> !op.ignored[k]) && forall i :: j <= i < k ==> op.ignored[i]
    decreases op.Count() - j
  {
    if j == op.Count() || !op.ignored[j] then j else FirstLive(op, j + 1)
  }

  /** A loop from the first paramset on gets nowhere: there is no paramset to execute, or the first one does not
      convert. */
  predicate Stuck(op: Op, stale: bool)
    requires op.Valid()
  {
    FirstLive(op, 0) == op.Count() || Blocked(op, FirstLive(op, 0), stale)
  }

  /** What such a loop leaves of the statement. */
  function GotNowhere(op: Op, s: State, j: nat): State
    requires Fits(op, s) && j <= op.Count()
  {
    var k := FirstLive(op, j);
    s.(rowsProcessed := s.rowsProcessed + Counted(op, j, k),
       status := Statuses(op, j, k, s.status),
       error := s.error || k < op.Count(),
       bound := if k < op.Count() then -1 else s.bound)
  }

  /** Without a paramset that has been handed over, the loop starts with the first one that is not ignored, whatever is
      left of an earlier operation. */
  lemma {:induction false} RowsFrom(op: Op, s: State, j: nat)
    requires Fits(op, s) && j <= op.Count() && op.paramCount > 0
    ensures var o, k := Rows(op, s, j, false, 0), FirstLive(op, j);
            if k == op.Count() || Blocked(op, k, s.error) then o.events == [] && o.s == GotNowhere(op, s, j)
            else o.events != [] && o.events[0] == Push(s.ps, k)
    decreases op.Count() - j
  {
    hide Rows, Blocked, Statuses;
    if j == op.Count() {
      NoRows(op, s);
      assert Statuses(op, j, j, s.status) == s.status by { NoStatuses(op, j, s.status); }
    } else if op.ignored[j] {
      RowsIgnores(op, s, j, false, 0);
      RowsFrom(op, s.(rowsProcessed := s.rowsProcessed + 1, status := s.status[j := Unused]), j + 1);
      IgnoredStatuses(op, j, FirstLive(op, j), s.status);
    } else {
      FirstTurn(op, s, j);
      NoStatuses(op, j, s.status);
    }
  }

  lemma NoRows(op: Op, s: State)
    requires Fits(op, s)
    ensures var o := Rows(op, s, op.Count(), false, 0); o.events == [] && o.s == s
  {
  }

  lemma NoStatuses(op: Op, j: nat, before: seq<Status>)
    requires op.Valid() && |before| == op.Count()
    ensures Statuses(op, j, j, before) == before
  {
  }

  lemma IgnoredStatuses(op: Op, j: nat, stop: nat, before: seq<Status>)
    requires op.Valid() && |before| == op.Count() && j < stop <= op.Count() && op.ignored[j]
    ensures Statuses(op, j + 1, stop, before[j := Unused]) == Statuses(op, j, stop, before)
  {
    StatusesNext(op, j, stop, before);
  }

  lemma FirstTurn(op: Op, s: State, j: nat)
    requires Fits(op, s) && j < op.Count() && !op.ignored[j] && op.paramCount > 0
    ensures var o := Rows(op, s, j, false, 0);
            if Blocked(op, j, s.error)
            then o.events == [] && o.s == s.(rowsProcessed := s.rowsProcessed + 1, error := true, bound := -1)
            else o.events != [] && o.events[0] == Push(s.ps, j)
  {
    hide Rows, Blocked;
    if Blocked(op, j, s.error) {
      RowsStops(op, s, j, 0);
    } else if HasDae(op, j) && !DaeDone(op, s) {
      RowsSuspends(op, s, j, 0);
    } else {
      RowsPerforms(op, s, j, 0);
      assert (Handing(op, j, s.ps, false) + [Exec(s.ps, j, op.succeeds[j])])[0] == Push(s.ps, j);
    }
  }

  /** SQLExecute while an array is held: HY010 is recorded unless all its values have been supplied, the row is
      forgotten, and the loop starts at the first paramset. It hands an array over while the other one is held if and
      only if it gets anywhere; otherwise this is all it does. */
  lemma ExecuteOverHeld(op: Op, s: State, c: Custody)
    requires Fits(op, s) && op.paramCount > 0 && s.putParam >= -1 && !Resuming(op, s) && c.Held? && c.ps == s.ps
    ensures var o, t := Execute(op, s), s.(error := !DaeDone(op, s), daeRow := 0);
            && (Track(op, c, o.events) == Broken <==> !Stuck(op, t.error))
            && (Stuck(op, t.error) ==> Track(op, c, o.events) == c && o.s == GotNowhere(op, t, 0))
  {
    hide Rows, Blocked, FirstLive, GotNowhere;
    var t := s.(error := !DaeDone(op, s), daeRow := 0);
    RowsFrom(op, t, 0);
    var o := Execute(op, s);
    assert o == Rows(op, t, 0, false, 0);
    Track0(op, c);
    if o.events != [] {
      PushWhileHeld(op, c, o.events);
    }
  }

  lemma PushWhileHeld(op: Op, c: Custody, events: seq<Event>)
    requires op.Valid() && events != [] && events[0].Push? && c.Held? && events[0].ps == c.ps
    ensures Track(op, c, events) == Broken
  {
    BrokenTrack(op, events[1..]);
  }

  lemma {:induction false} BrokenTrack(op: Op, events: seq<Event>)
    requires op.Valid()
    ensures Track(op, Broken, events) == Broken
    decreases |events|
  {
    if events != [] {
      BrokenTrack(op, events[1..]);
    }
  }

  // ---------- What the calls after it do ----------

  /** The array is held, but the row it is held for has been forgotten. */
  ghost predicate HeldOver(op: Op, c: Custody, s: State) {
    && Fits(op, s) && op.paramCount > 0 && op.Count() > 0
    && s.daeRow == 0 && -1 <= s.putParam <= op.paramCount
    && c.Held? && c.ps == s.ps && -1 <= c.asked <= s.putParam
    && Stuck(op, !DaeDone(op, s))
  }

  /** The data-at-execution cells of the first paramset that are still asked for. */
  function CellsAfter(op: Op, i: int): nat
    requires op.Valid() && op.Count() > 0 && i >= -1
    decreases op.paramCount - i
  {
    if i + 1 >= op.paramCount then 0 else (if op.cells[0][i + 1].Dae? then 1 else 0) + CellsAfter(op, i + 1)
  }

  lemma {:induction false} CellsSkip(op: Op, i: int, d: nat)
    requires op.Valid() && op.Count() > 0 && -1 <= i < op.paramCount && d == FirstDae(op.cells[0], i + 1)
    ensures CellsAfter(op, i) == if d < op.paramCount then 1 + CellsAfter(op, d) else 0
    decreases op.paramCount - i
  {
    if i + 1 < op.paramCount && !op.cells[0][i + 1].Dae? {
      CellsSkip(op, i + 1, d);
    }
  }

  lemma StuckMore(op: Op)
    requires op.Valid()
    ensures Stuck(op, false) ==> Stuck(op, true)
  {
    if Stuck(op, false) && FirstLive(op, 0) < op.Count() {
      var c :| c in op.cells[FirstLive(op, 0)] && (c.Bad? || c.Refused?);
    }
  }

  /** SQLParamData then goes over the first paramset, whichever the array is held for, and after it starts the loop
      again. */
  lemma ParamDataHeldOver(op: Op, c: Custody, s: State)
    requires HeldOver(op, c, s)
    ensures var o, left := ParamData(op, s), CellsAfter(op, s.putParam);
            var d := Track(op, c, o.events);
            && (d == Broken <==> if left > 0 then c.row != 0 else !Stuck(op, false))
            && (d != Broken ==> HeldOver(op, d, o.s) && d.row == c.row)
            && (d != Broken && left > 0 ==> CellsAfter(op, o.s.putParam) == left - 1)
            && (d != Broken && left == 0 ==> CellsAfter(op, o.s.putParam) == 0)
  {
    hide Rows, Execute, FirstLive, Stuck, Track;
    var i := NextCell(op, s);
    if s.putParam < op.paramCount {
      CellsSkip(op, s.putParam, i);
    }
    if i < op.paramCount {
      Track1(op, c, Ask(0, i));
    } else {
      var t := s.(putParam := op.paramCount, rowsProcessed := s.rowsProcessed - 1);
      ReentryHeldOver(op, c, s, t);
    }
  }

  lemma ReentryHeldOver(op: Op, c: Custody, s: State, t: State)
    requires HeldOver(op, c, s) && NextCell(op, s) == op.paramCount
    requires t == s.(putParam := op.paramCount, rowsProcessed := s.rowsProcessed - 1)
    ensures var o := ParamData(op, s); var d := Track(op, c, o.events);
            && (d == Broken <==> !Stuck(op, false))
            && (d != Broken ==> HeldOver(op, d, o.s) && d.row == c.row && o.s.putParam == op.paramCount)
  {
    hide Rows, Execute, FirstLive, Stuck, Track;
    var e := Execute(op, t);
    ExecuteOverHeld(op, t, c);
    if !Stuck(op, false) && e.rc == SQL_NEED_DATA {
      var more := ParamData(op, e.s).events;
      TrackSplit(op, c, e.events, more);
      BrokenTrack(op, more);
    }
  }

  /** A call that does not end the wait: the same SQLExecute again, SQLParamData, data for the cell that has been asked
      for, or a cancel that only kills a query. */
  ghost predicate MayFollow(op: Op, c: Custody, s: State, call: Call) {
    && Fits(op, s) && AskRow(s) < op.Count()
    && match call
       case SQLExecute(next, status) => next == op && |status| == op.Count()
       case SQLParamData => true
       case SQLPutData(_) => 0 <= s.putParam < op.paramCount && (c.Held? ==> c.asked == s.putParam)
       case SQLCancel(odbc2, busy) => ActionFor(op, s, odbc2, busy) == KillQuery
  }

  ghost function AnswerTo(op: Op, c: Custody, s: State, call: Call): Outcome
    requires MayFollow(op, c, s, call)
  {
    match call
    case SQLExecute(_, status) => Execute(op, s.(status := status))
    case SQLParamData => ParamData(op, s)
    case SQLPutData(put) => PutData(op, s, put)
    case SQLCancel(_, _) => Cancel(s, KillQuery)
  }

  /** `calls` lead from custody `c` and state `s` to `d` and `e`. */
  ghost predicate Onward(op: Op, c: Custody, s: State, calls: seq<Call>, d: Custody, e: State)
    decreases |calls|
  {
    if calls == [] then d == c && e == s
    else
      && MayFollow(op, c, s, calls[0])
      && var o := AnswerTo(op, c, s, calls[0]);
         Onward(op, Track(op, c, o.events), o.s, calls[1..], d, e)
  }

  function Asks(calls: seq<Call>): nat {
    if calls == [] then 0 else (if calls[0].SQLParamData? then 1 else 0) + Asks(calls[1..])
  }

  /** With the array held for `row` and cell `putParam` asked for last: so many further SQLParamData lead to an array
      handed over, or a cell asked for, while another paramset is held. */
  predicate TooMany(op: Op, row: int, putParam: int, asks: nat)
    requires op.Valid() && op.Count() > 0 && putParam >= -1
  {
    if row == 0 then asks > CellsAfter(op, putParam) && !Stuck(op, false)
    else asks > 0 && (CellsAfter(op, putParam) > 0 || !Stuck(op, false))
  }

  lemma {:induction false} OnwardBroken(op: Op, s: State, calls: seq<Call>, d: Custody, e: State)
    requires op.Valid() && Onward(op, Broken, s, calls, d, e)
    ensures d == Broken
    decreases |calls|
  {
    hide AnswerTo, MayFollow;
    if calls != [] {
      var o := AnswerTo(op, Broken, s, calls[0]);
      BrokenTrack(op, o.events);
      OnwardBroken(op, o.s, calls[1..], d, e);
    }
  }

  lemma OtherHeldOver(op: Op, c: Custody, s: State, call: Call)
    requires HeldOver(op, c, s) && MayFollow(op, c, s, call) && !call.SQLParamData?
    ensures var o := AnswerTo(op, c, s, call);
            Track(op, c, o.events) == c && HeldOver(op, c, o.s) && o.s.putParam == s.putParam
  {
    hide Track, Stuck, Execute;
    Track0(op, c);
    if call.SQLPutData? && call.put.Sent? {
      Track1(op, c, LongData(s.ps, s.putParam, call.put.data));
    }
    if call.SQLExecute? {
      ExecuteOverHeld(op, s.(status := call.status), c);
    }
  }

  /** The custody of a forgotten array is broken if and only if the application calls SQLParamData once more than there
      are cells left in the first paramset, or at all if the array is not held for that one. */
  lemma {:induction false} OnwardExactly(op: Op, c: Custody, s: State, calls: seq<Call>, d: Custody, e: State)
    requires HeldOver(op, c, s) && Onward(op, c, s, calls, d, e)
    ensures d == Broken <==> TooMany(op, c.row, s.putParam, Asks(calls))
    ensures d != Broken ==> HeldOver(op, d, e)
    decreases |calls|
  {
    hide HeldOver, MayFollow, AnswerTo, CellsAfter, Stuck, Track;
    HeldOverHas(op, c, s);
    if calls != [] {
      var o := AnswerTo(op, c, s, calls[0]);
      var t := Track(op, c, o.events);
      if calls[0].SQLParamData? {
        AnswerIsParamData(op, c, s);
        ParamDataHeldOver(op, c, s);
        if t == Broken {
          OnwardBroken(op, o.s, calls[1..], d, e);
        } else {
          HeldOverHas(op, t, o.s);
          OnwardExactly(op, t, o.s, calls[1..], d, e);
        }
      } else {
        OtherHeldOver(op, c, s, calls[0]);
        OnwardExactly(op, c, o.s, calls[1..], d, e);
      }
    }
  }

  lemma HeldOverHas(op: Op, c: Custody, s: State)
    requires HeldOver(op, c, s)
    ensures op.Valid() && op.Count() > 0 && s.putParam >= -1 && c.Held?
    ensures Stuck(op, true)
  {
    StuckMore(op);
  }

  lemma AnswerIsParamData(op: Op, c: Custody, s: State)
    requires MayFollow(op, c, s, SQLParamData)
    ensures AnswerTo(op, c, s, SQLParamData) == ParamData(op, s)
  {
  }

  /** SQLExecute while data is needed, about any values in the application's arrays, and any calls after it that do not
      end the wait: the custody is broken if and only if the execution gets anywhere, or SQLParamData is called too
      often afterwards. */
  lemma SecondExecuteBreaks(op: Op, s: State, next: Op, status: seq<Status>, calls: seq<Call>, d: Custody, e: State)
    requires Suspended(op, s)
    requires next.Valid() && |status| == next.Count() > 0 && next.paramCount == op.paramCount
    requires var o := Execute(next, s.(status := status));
             Onward(next, Track(next, CustodyOf(op, s), o.events), o.s, calls, d, e)
    ensures d == Broken <==> !Stuck(next, true) || TooMany(next, s.daeRow - 1, s.putParam, Asks(calls))
    ensures d != Broken ==> HeldOver(next, d, e)
    ensures Stuck(next, true) ==>
              Execute(next, s.(status := status)).s
              == GotNowhere(next, s.(status := status, error := true, daeRow := 0), 0)
  {
    hide Execute, Onward, Stuck, Track, CellsAfter, FirstLive, Statuses, Counted, FirstDae;
    var t, c := s.(status := status), CustodyOf(op, s);
    ExecuteOverHeld(next, t, c);
    var o := Execute(next, t);
    if Stuck(next, true) {
      assert HeldOver(next, c, o.s);
      OnwardExactly(next, c, o.s, calls, d, e);
    } else {
      OnwardBroken(next, o.s, calls, d, e);
    }
  }

  /** A cancel that gives the data up or closes the cursor repairs it: whatever calls the Driver Manager lets through
      afterwards, the custody stays what the fields say. */
  lemma CancelRepairs(op: Op, c: Custody, s: State, action: CancelAction, calls: seq<Call>, end: End)
    requires HeldOver(op, c, s) && !action.KillQuery? && History(op, Cancel(s, action).s, calls, end)
    ensures Track(op, c, Cancel(s, action).events) == Free
    ensures AllValid(end.tagged) && end.op.Valid() && Settled(end.op, end.s)
    ensures TrackAll(Free, end.tagged) == CustodyOf(end.op, end.s) != Broken
  {
    hide History, TrackAll;
    Track1(op, c, Cancelled);
    NeverBroken(op, Cancel(s, action).s, calls, end);
    StartsFree(end.op, end.s);
  }

  /** One paramset of a data-at-execution cell and an ordinary one. */
  const PAIR := Op(2, 1, [[Dae, Value]], [false], [true], [false], [[[], []]])

  const FIRST_ASKED := State(0, 1, false, 1, [Untouched], 0, true, 0)

  /** Its first cell has been asked for. SQLExecute fails on the second one and forgets the row; SQLParamData, which
      would have finished the paramset, then hands the array over again. A cancel in between gives it back. */
  lemma ForgottenRow()
    ensures Suspended(PAIR, FIRST_ASKED) && CustodyOf(PAIR, FIRST_ASKED) == Held(0, 0, 0)
    ensures ParamData(PAIR, FIRST_ASKED).events == [Exec(0, 0, true)]
    ensures var o := Execute(PAIR, FIRST_ASKED);
            && o.events == [] && o.s == State(0, 0, true, 2, [Untouched], 0, true, -1) && !Suspended(PAIR, o.s)
            && ParamData(PAIR, o.s).events == [Push(0, 0), Exec(0, 0, true)]
            && Track(PAIR, Held(0, 0, 0), ParamData(PAIR, o.s).events) == Broken
            && Track(PAIR, Held(0, 0, 0), Cancel(o.s, GiveUp).events) == Free
  {
    hide Track, Execute, ParamData;
    PairSuspended();
    PairForgets();
    var t := State(0, 0, true, 2, [Untouched], 0, true, -1);
    PairRepeats(t);
    PushWhileHeld(PAIR, Held(0, 0, 0), [Push(0, 0), Exec(0, 0, true)]);
    Track1(PAIR, Held(0, 0, 0), Cancelled);
  }

  lemma PairSuspended()
    ensures Suspended(PAIR, FIRST_ASKED) && Asked(PAIR, FIRST_ASKED)
    ensures ParamData(PAIR, FIRST_ASKED).events == [Exec(0, 0, true)]
  {
  }

  lemma PairForgets()
    ensures var o := Execute(PAIR, FIRST_ASKED);
            o.events == [] && o.s == State(0, 0, true, 2, [Untouched], 0, true, -1)
  {
    hide Rows;
    var t := FIRST_ASKED.(error := true, daeRow := 0);
    assert Value in PAIR.cells[0] by { assert PAIR.cells[0][1] == Value; }
    assert Blocked(PAIR, 0, true);
    RowsStops(PAIR, t, 0, 0);
    assert Execute(PAIR, FIRST_ASKED) == Rows(PAIR, t, 0, false, 0);
  }

  lemma PairRepeats(t: State)
    requires t == State(0, 0, true, 2, [Untouched], 0, true, -1)
    ensures ParamData(PAIR, t).events == [Push(0, 0), Exec(0, 0, true)]
  {
  }
}
