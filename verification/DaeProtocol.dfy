/** Who holds the bind array. In every history of calls the Driver Manager lets through, cancels
    included, a paramset is handed over before its long data and executed without being handed over
    again. */
module DaeProtocol {
  import opened DaeModel
  import opened DaeRuns

  datatype Custody =
    | Free
    | Held(ps: nat, row: int, asked: int)   // the statement that has the paramset, and the last cell asked for
    | Broken

  /** One event, as the server has to see it. */
  function Next(op: Op, c: Custody, e: Event): Custody
    requires op.Valid()
  {
    match e
    case Push(ps, row) =>
      if c.Free? || (c.Held? && c.row == row && c.ps != ps && c.asked == -1) then Held(ps, row, -1) else Broken
    case Ask(row, i) =>
      if c.Held? && c.row == row && 0 <= row < op.Count() && c.asked < i < op.paramCount && op.cells[row][i].Dae?
      then c.(asked := i) else Broken
    case LongData(ps, i, _) =>
      if c.Held? && c.ps == ps && c.asked == i then c else Broken
    case Exec(ps, row, _) =>
      if op.paramCount == 0 then (if c.Free? then Free else Broken)
      else if c.Held? && c.ps == ps && c.row == row && 0 <= row < op.Count() && -1 <= c.asked < op.paramCount
              && FirstDae(op.cells[row], c.asked + 1) == op.paramCount
      then Free else Broken
    case Cancelled => if c.Held? then Free else Broken
  }

  function Track(op: Op, c: Custody, events: seq<Event>): Custody
    requires op.Valid()
    decreases |events|
  {
    if events == [] then c else Track(op, Next(op, c, events[0]), events[1..])
  }

  lemma {:induction false} TrackSplit(op: Op, c: Custody, a: seq<Event>, b: seq<Event>)
    requires op.Valid()
    ensures Track(op, c, a + b) == Track(op, Track(op, c, a), b)
    decreases |a|
  {
    if a == [] {
      assert a + b == b;
    } else {
      assert (a + b)[0] == a[0] && (a + b)[1..] == a[1..] + b;
      TrackSplit(op, Next(op, c, a[0]), a[1..], b);
    }
  }

  lemma Track0(op: Op, c: Custody)
    requires op.Valid()
    ensures Track(op, c, []) == c
  {
  }

  lemma Track1(op: Op, c: Custody, e: Event)
    requires op.Valid()
    ensures Track(op, c, [e]) == Next(op, c, e)
  {
    assert Track(op, c, [e]) == Track(op, Next(op, c, e), []);
  }

  /** What the fields of the statement say about the bind array. */
  ghost function CustodyOf(op: Op, s: State): Custody
    requires s.putParam == NO_DATA_NEEDED || Suspended(op, s)
  {
    if s.putParam == NO_DATA_NEEDED then Free
    else Held(s.ps, s.daeRow - 1, if Asked(op, s) then s.putParam else -1)
  }

  lemma {:induction false} RowsKeep(op: Op, s: State, j: nat, resuming: bool, errors: nat, c: Custody)
    requires Fits(op, s) && j <= op.Count()
    requires if resuming then
               && op.paramCount > 0 && j < op.Count() && !op.ignored[j]
               && c.Held? && c.ps == s.ps && c.row == j && -1 <= c.asked < op.paramCount
               && FirstDae(op.cells[j], c.asked + 1) == op.paramCount
             else s.putParam == NO_DATA_NEEDED && c.Free?
    ensures var o := Rows(op, s, j, resuming, errors); Track(op, c, o.events) == CustodyOf(op, o.s)
    decreases op.Count() - j, 1
  {
    hide Track, Next, Paramset, Perform;
    Track0(op, c);
    if j < op.Count() {
      var counted := s.(rowsProcessed := s.rowsProcessed + 1);
      if op.ignored[j] {
        RowsIgnores(op, s, j, resuming, errors);
        RowsKeep(op, counted.(status := s.status[j := Unused]), j + 1, false, errors, c);
      } else if resuming {
        ResumedKeeps(op, s, j, errors, c);
      } else {
        ConvertedKeeps(op, s, j, errors);
      }
    }
  }

  lemma {:induction false} ResumedKeeps(op: Op, s: State, j: nat, errors: nat, c: Custody)
    requires Fits(op, s) && op.paramCount > 0 && j < op.Count() && !op.ignored[j]
    requires c.Held? && c.ps == s.ps && c.row == j && -1 <= c.asked < op.paramCount
    requires FirstDae(op.cells[j], c.asked + 1) == op.paramCount
    ensures var o := Rows(op, s, j, true, errors); Track(op, c, o.events) == CustodyOf(op, o.s)
    decreases op.Count() - j, 0
  {
    hide Track, Rows;
    var exec := Exec(s.ps, j, op.succeeds[j]);
    var t, rest := Perform(op, s.(rowsProcessed := s.rowsProcessed + 1), j), Plus(errors, !op.succeeds[j]);
    RowsResumes(op, s, j, errors);
    RowsKeep(op, t, j + 1, false, rest, Free);
    Track1(op, c, exec);
    TrackSplit(op, c, [exec], Rows(op, t, j + 1, false, rest).events);
  }

  lemma {:induction false} ConvertedKeeps(op: Op, s: State, j: nat, errors: nat)
    requires Fits(op, s) && j < op.Count() && !op.ignored[j] && s.putParam == NO_DATA_NEEDED
    ensures var o := Rows(op, s, j, false, errors); Track(op, Free, o.events) == CustodyOf(op, o.s)
    decreases op.Count() - j, 0
  {
    hide Track, Rows;
    Track0(op, Free);
    FirstDaeExists(op, j);
    if Blocked(op, j, s.error) {
      RowsStops(op, s, j, errors);
    } else if HasDae(op, j) {
      RowsSuspends(op, s, j, errors);
      SuspendKeeps(op, s.(rowsProcessed := s.rowsProcessed + 1, bound := j), j, FirstDae(op.cells[j], 0));
    } else {
      RowsPerforms(op, s, j, errors);
      var rest := Plus(errors, !op.succeeds[j]);
      RowsKeep(op, PerformedAt(op, s, j), j + 1, false, rest, Free);
      HandAndExecute(op, s.ps, j);
      TrackSplit(op, Free, Handing(op, j, s.ps, false) + [Exec(s.ps, j, op.succeeds[j])],
                 Rows(op, PerformedAt(op, s, j), j + 1, false, rest).events);
    }
  }

  lemma HandAndExecute(op: Op, ps: nat, j: nat)
    requires op.Valid() && j < op.Count() && FirstDae(op.cells[j], 0) == op.paramCount
    ensures Track(op, Free, Handing(op, j, ps, false) + [Exec(ps, j, op.succeeds[j])]) == Free
  {
    var exec := Exec(ps, j, op.succeeds[j]);
    if op.paramCount > 0 {
      assert Handing(op, j, ps, false) == [Push(ps, j)];
      Track1(op, Free, Push(ps, j));
      TrackSplit(op, Free, [Push(ps, j)], [exec]);
      Track1(op, Held(ps, j, -1), exec);
    } else {
      assert Handing(op, j, ps, false) + [exec] == [exec];
      Track1(op, Free, exec);
    }
  }

  lemma SuspendKeeps(op: Op, s: State, j: nat, dae: nat)
    requires Fits(op, s) && j < op.Count() && !op.ignored[j]
    requires dae == FirstDae(op.cells[j], 0) < op.paramCount
    ensures var t := Suspend(op, s, j, dae);
            && Suspended(op, t) && !Asked(op, t)
            && Track(op, Free, Handing(op, j, s.ps, Swaps(op, j, s.serverSide))) == CustodyOf(op, t)
  {
    var t := Suspend(op, s, j, dae);
    Track1(op, Free, Push(s.ps, j));
    if t.ps != s.ps {
      assert Handing(op, j, s.ps, true) == [Push(s.ps, j)] + [Push(t.ps, j)];
      Track1(op, Held(s.ps, j, -1), Push(t.ps, j));
      TrackSplit(op, Free, [Push(s.ps, j)], [Push(t.ps, j)]);
    } else {
      assert Handing(op, j, s.ps, false) == [Push(s.ps, j)];
    }
  }

  lemma {:induction false} ParamDataKeeps(op: Op, s: State)
    requires Suspended(op, s)
    ensures var o := ParamData(op, s); Track(op, CustodyOf(op, s), o.events) == CustodyOf(op, o.s)
    decreases op.Count() - s.daeRow
  {
    hide Execute, ParamData, Track, Next, FirstDae;
    var j := s.daeRow - 1;
    var i := FirstDae(op.cells[j], s.putParam + 1);
    var c := CustodyOf(op, s);
    if i < op.paramCount {
      ParamDataAsks(op, s);
      AskKeeps(op, s, i);
    } else {
      ResumedExecutionKeeps(op, s);
      ParamDataReenters(op, s);
      var o := Execute(op, s.(putParam := op.paramCount, rowsProcessed := s.rowsProcessed - 1));
      if o.rc == SQL_NEED_DATA {
        ParamDataKeeps(op, o.s);
        TrackSplit(op, c, o.events, ParamData(op, o.s).events);
      }
    }
  }

  lemma AskKeeps(op: Op, s: State, i: nat)
    requires Suspended(op, s) && i == FirstDae(op.cells[s.daeRow - 1], s.putParam + 1) < op.paramCount
    ensures Suspended(op, s.(putParam := i))
    ensures Track(op, CustodyOf(op, s), [Ask(s.daeRow - 1, i)]) == CustodyOf(op, s.(putParam := i))
  {
    hide Track;
    Track1(op, CustodyOf(op, s), Ask(s.daeRow - 1, i));
  }

  /** The execution that goes on when the last value of a paramset has been supplied. */
  lemma ResumedExecutionKeeps(op: Op, s: State)
    requires Suspended(op, s) && FirstDae(op.cells[s.daeRow - 1], s.putParam + 1) == op.paramCount
    ensures var o := Execute(op, s.(putParam := op.paramCount, rowsProcessed := s.rowsProcessed - 1));
            && (if o.rc == SQL_NEED_DATA then Suspended(op, o.s) else o.s.putParam == NO_DATA_NEEDED)
            && Track(op, CustodyOf(op, s), o.events) == CustodyOf(op, o.s)
  {
    hide Rows, Track;
    var marked := s.(putParam := op.paramCount, rowsProcessed := s.rowsProcessed - 1);
    RowsKeep(op, marked.(error := false, daeRow := 0), s.daeRow - 1, true, 0, CustodyOf(op, s));
  }

  /** SQLExecute may be about other parameters than the execution before: another layout, another array, other
      answers of the server. */
  datatype Call =
    | SQLExecute(op: Op, status: seq<Status>)
    | SQLParamData
    | SQLPutData(put: Put)
    | SQLCancel(odbc2: bool, busy: bool)

  /** What the Driver Manager lets the application call while the statement is about `op`. */
  ghost predicate Allowed(op: Op, s: State, call: Call) {
    match call
    case SQLExecute(next, status) => next.Valid() && |status| == next.Count() && s.putParam == NO_DATA_NEEDED
    case SQLParamData => Suspended(op, s)
    case SQLPutData(_) => Suspended(op, s) && Asked(op, s)
    case SQLCancel(_, _) => true
  }

  function OpAfter(op: Op, call: Call): Op { if call.SQLExecute? then call.op else op }

  ghost function Answer(op: Op, s: State, call: Call): Outcome
    requires Allowed(op, s, call)
  {
    match call
    case SQLExecute(next, status) => Execute(next, s.(status := status))
    case SQLParamData => ParamData(op, s)
    case SQLPutData(put) => PutData(op, s, put)
    case SQLCancel(odbc2, busy) => Cancel(s, ActionFor(op, s, odbc2, busy))
  }

  ghost predicate Settled(op: Op, s: State) { s.putParam == NO_DATA_NEEDED || Suspended(op, s) }

  lemma AnswerKeeps(op: Op, s: State, call: Call)
    requires op.Valid() && Settled(op, s) && Allowed(op, s, call)
    ensures var o, next := Answer(op, s, call), OpAfter(op, call);
            && next.Valid() && Settled(next, o.s)
            && Track(next, CustodyOf(op, s), o.events) == CustodyOf(next, o.s)
  {
    hide Rows;
    match call
    case SQLExecute(next, status) =>
      RowsKeep(next, s.(status := status, error := false, daeRow := 0, rowsProcessed := 0), 0, false, 0, Free);
    case SQLParamData => ParamDataKeeps(op, s);
    case SQLPutData(put) =>
      Track0(op, CustodyOf(op, s));
      if put.Sent? {
        Track1(op, CustodyOf(op, s), LongData(s.ps, s.putParam, put.data));
      }
    case SQLCancel(_, _) =>
      Track0(op, CustodyOf(op, s));
      Track1(op, CustodyOf(op, s), Cancelled);
  }

  // ---------- Histories ----------

  /** An event, and the operation it belongs to. */
  type Tagged = (Op, Event)

  function Tag(op: Op, events: seq<Event>): (tagged: seq<Tagged>)
    ensures |tagged| == |events| && forall i :: 0 <= i < |events| ==> tagged[i] == (op, events[i])
  {
    seq(|events|, i requires 0 <= i < |events| => (op, events[i]))
  }

  ghost predicate AllValid(tagged: seq<Tagged>) { forall i :: 0 <= i < |tagged| ==> tagged[i].0.Valid() }

  ghost function TrackAll(c: Custody, tagged: seq<Tagged>): Custody
    requires AllValid(tagged)
    decreases |tagged|
  {
    if tagged == [] then c else TrackAll(Next(tagged[0].0, c, tagged[0].1), tagged[1..])
  }

  lemma {:induction false} TrackAllSplit(c: Custody, a: seq<Tagged>, b: seq<Tagged>)
    requires AllValid(a) && AllValid(b)
    ensures AllValid(a + b) && TrackAll(c, a + b) == TrackAll(TrackAll(c, a), b)
    decreases |a|
  {
    hide Next;
    if a == [] {
      assert a + b == b;
    } else {
      assert (a + b)[0] == a[0] && (a + b)[1..] == a[1..] + b;
      TrackAllSplit(Next(a[0].0, c, a[0].1), a[1..], b);
    }
  }

  lemma TrackAll1(c: Custody, e: Tagged)
    requires e.0.Valid()
    ensures TrackAll(c, [e]) == Next(e.0, c, e.1)
  {
    hide Next;
    assert TrackAll(c, [e]) == TrackAll(Next(e.0, c, e.1), []);
  }

  lemma {:induction false} TrackTagged(op: Op, c: Custody, events: seq<Event>)
    requires op.Valid()
    ensures TrackAll(c, Tag(op, events)) == Track(op, c, events)
    decreases |events|
  {
    hide Next;
    if events != [] {
      assert Tag(op, events)[1..] == Tag(op, events[1..]);
      TrackTagged(op, Next(op, c, events[0]), events[1..]);
    }
  }

  /** What a history comes to: the operation and the state at its end, and everything that happened. */
  datatype End = End(op: Op, s: State, tagged: seq<Tagged>)

  /** `calls` is a history the Driver Manager lets through, starting in `s`, with `e` at its end. */
  ghost predicate History(op: Op, s: State, calls: seq<Call>, e: End)
    decreases |calls|
  {
    if calls == [] then e == End(op, s, [])
    else
      && Allowed(op, s, calls[0])
      && var o, next := Answer(op, s, calls[0]), OpAfter(op, calls[0]);
         |o.events| <= |e.tagged| && e.tagged[..|o.events|] == Tag(next, o.events)
         && History(next, o.s, calls[1..], e.(tagged := e.tagged[|o.events|..]))
  }

  /** The custody of the bind array is never broken, and at any time is what the fields say. */
  lemma {:induction false} NeverBroken(op: Op, s: State, calls: seq<Call>, e: End)
    requires op.Valid() && Settled(op, s) && History(op, s, calls, e)
    ensures e.op.Valid() && Settled(e.op, e.s) && AllValid(e.tagged)
    ensures TrackAll(CustodyOf(op, s), e.tagged) == CustodyOf(e.op, e.s)
    decreases |calls|
  {
    hide Answer, Next, Suspended;
    if calls != [] {
      var o, next := Answer(op, s, calls[0]), OpAfter(op, calls[0]);
      var rest := e.(tagged := e.tagged[|o.events|..]);
      AnswerKeeps(op, s, calls[0]);
      NeverBroken(next, o.s, calls[1..], rest);
      TrackTagged(next, CustodyOf(op, s), o.events);
      assert e.tagged == Tag(next, o.events) + rest.tagged;
      TrackAllSplit(CustodyOf(op, s), Tag(next, o.events), rest.tagged);
    }
  }

  /** Between being handed over and being executed, a paramset is only asked about and sent long data. */
  ghost predicate OnlyData(events: seq<Tagged>, p: int, e: int, ps: nat, row: int) {
    && 0 <= p < e <= |events| && events[p].1 == Push(ps, row)
    && forall q :: p < q < e ==>
         || (events[q].1.Ask? && events[q].1.row == row)
         || (events[q].1.LongData? && events[q].1.ps == ps)
  }

  lemma {:induction false} BrokenStays(events: seq<Tagged>)
    requires AllValid(events)
    ensures TrackAll(Broken, events) == Broken
  {
    if events != [] {
      BrokenStays(events[1..]);
    }
  }

  lemma {:induction false} HeldSince(events: seq<Tagged>, e: nat) returns (p: nat)
    requires AllValid(events) && 0 < e <= |events| && TrackAll(Free, events[..e]).Held?
    ensures var c := TrackAll(Free, events[..e]); OnlyData(events, p, e, c.ps, c.row)
    decreases e
  {
    var before, last := TrackAll(Free, events[..e - 1]), events[e - 1];
    assert events[..e] == events[..e - 1] + [last];
    TrackAllSplit(Free, events[..e - 1], [last]);
    TrackAll1(before, last);
    p := e - 1;
    if !last.1.Push? {
      HeldOn(last.0, before, last.1);
      p := HeldSince(events, e - 1);
    }
  }

  /** The array is only held on by asking and sending. */
  lemma HeldOn(op: Op, c: Custody, e: Event)
    requires op.Valid() && Next(op, c, e).Held? && !e.Push?
    ensures c.Held? && Next(op, c, e).ps == c.ps && Next(op, c, e).row == c.row
    ensures (e.Ask? && e.row == c.row) || (e.LongData? && e.ps == c.ps)
  {
  }

  /** In a history that starts with an idle statement: whatever is executed has been handed over to
      that very statement, with nothing but its data in between, and so has whatever gets long data. */
  lemma HandedOverOnce(op: Op, s: State, calls: seq<Call>, end: End, e: nat) returns (p: nat)
    requires op.Valid() && s.putParam == NO_DATA_NEEDED && History(op, s, calls, end)
    requires e < |end.tagged| && end.tagged[e].0.paramCount > 0
    requires end.tagged[e].1.Exec? || end.tagged[e].1.LongData?
    ensures var event := end.tagged[e].1;
            && (event.Exec? ==> OnlyData(end.tagged, p, e, event.ps, event.row))
            && (event.LongData? ==> exists row :: OnlyData(end.tagged, p, e, event.ps, row))
  {
    hide History, Next, OnlyData, CustodyOf;
    NeverBroken(op, s, calls, end);
    StartsFree(op, s);
    StartsFree(end.op, end.s);
    var events := end.tagged;
    HeldBefore(events, e, CustodyOf(end.op, end.s));
    p := HeldSince(events, e);
    var c := TrackAll(Free, events[..e]);
    assert OnlyData(events, p, e, c.ps, c.row);
  }

  lemma StartsFree(op: Op, s: State)
    requires Settled(op, s)
    ensures s.putParam == NO_DATA_NEEDED ==> CustodyOf(op, s) == Free
    ensures CustodyOf(op, s) != Broken
  {
  }

  lemma HeldBefore(events: seq<Tagged>, e: nat, end: Custody)
    requires AllValid(events) && e < |events| && end != Broken && TrackAll(Free, events) == end
    requires events[e].0.paramCount > 0 && (events[e].1.Exec? || events[e].1.LongData?)
    ensures e > 0
    ensures var c, event := TrackAll(Free, events[..e]), events[e].1;
            c.Held? && c.ps == event.ps && (event.Exec? ==> c.row == event.row)
  {
    hide Next, TrackAll;
    var before, last := TrackAll(Free, events[..e]), events[e];
    TrackAllAt(Free, events, e);
    if Next(last.0, before, last.1) == Broken {
      BrokenStays(events[e + 1..]);
    }
    OnlyIfHeld(last.0, before, last.1);
    if e == 0 {
      NothingTracked(Free);
    }
  }

  lemma TrackAllAt(c: Custody, events: seq<Tagged>, e: nat)
    requires AllValid(events) && e < |events|
    ensures TrackAll(c, events) == TrackAll(Next(events[e].0, TrackAll(c, events[..e]), events[e].1), events[e + 1..])
  {
    hide Next, TrackAll;
    var last, rest := events[e], events[e + 1..];
    assert events == events[..e] + ([last] + rest);
    TrackAllSplit(c, events[..e], [last] + rest);
    TrackAllSplit(TrackAll(c, events[..e]), [last], rest);
    TrackAll1(TrackAll(c, events[..e]), last);
  }

  lemma NothingTracked(c: Custody)
    ensures TrackAll(c, []) == c
  {
  }

  lemma OnlyIfHeld(op: Op, c: Custody, e: Event)
    requires op.Valid() && op.paramCount > 0 && (e.Exec? || e.LongData?) && Next(op, c, e) != Broken
    ensures c.Held? && c.ps == e.ps && (e.Exec? ==> c.row == e.row)
  {
  }
}
