/** Which paramsets reach the server and which cells are asked for, and exactly when that is all of them. */
module DaeTrace {
  import opened DaeModel
  import opened DaeRuns

  function Executed(events: seq<Event>): seq<int> {
    if events == [] then []
    else (if events[0].Exec? then [events[0].row] else []) + Executed(events[1..])
  }

  function AskedFor(events: seq<Event>): seq<(int, nat)> {
    if events == [] then []
    else (if events[0].Ask? then [(events[0].row, events[0].param)] else []) + AskedFor(events[1..])
  }

  /** The paramsets from `j` up to `stop` that are not ignored, in order. */
  function Live(op: Op, j: nat, stop: nat): seq<int>
    requires op.Valid() && j <= stop <= op.Count()
    decreases stop - j
  {
    if j == stop then [] else (if op.ignored[j] then [] else [j]) + Live(op, j + 1, stop)
  }

  function DaeOf(op: Op, j: nat, i: nat): seq<(int, nat)>
    requires op.Valid() && j < op.Count() && i <= op.paramCount
    decreases op.paramCount - i
  {
    if i == op.paramCount then [] else (if op.cells[j][i].Dae? then [(j, i)] else []) + DaeOf(op, j, i + 1)
  }

  /** Their data-at-execution cells, in order. */
  function DaeCells(op: Op, j: nat, stop: nat): seq<(int, nat)>
    requires op.Valid() && j <= stop <= op.Count()
    decreases stop - j
  {
    if j == stop then [] else (if op.ignored[j] then [] else DaeOf(op, j, 0)) + DaeCells(op, j + 1, stop)
  }

  lemma {:induction false} ExecutedSplit(a: seq<Event>, b: seq<Event>)
    ensures Executed(a + b) == Executed(a) + Executed(b)
  {
    if a == [] {
      assert a + b == b;
    } else {
      var first := if a[0].Exec? then [a[0].row] else [];
      assert (a + b)[0] == a[0] && (a + b)[1..] == a[1..] + b;
      ExecutedSplit(a[1..], b);
      assert first + (Executed(a[1..]) + Executed(b)) == (first + Executed(a[1..])) + Executed(b);
    }
  }

  lemma {:induction false} AskedForSplit(a: seq<Event>, b: seq<Event>)
    ensures AskedFor(a + b) == AskedFor(a) + AskedFor(b)
  {
    if a == [] {
      assert a + b == b;
    } else {
      var first := if a[0].Ask? then [(a[0].row, a[0].param)] else [];
      assert (a + b)[0] == a[0] && (a + b)[1..] == a[1..] + b;
      AskedForSplit(a[1..], b);
      assert first + (AskedFor(a[1..]) + AskedFor(b)) == (first + AskedFor(a[1..])) + AskedFor(b);
    }
  }

  lemma Split(a: seq<Event>, b: seq<Event>)
    ensures Executed(a + b) == Executed(a) + Executed(b) && AskedFor(a + b) == AskedFor(a) + AskedFor(b)
  {
    hide Executed, AskedFor;
    ExecutedSplit(a, b);
    AskedForSplit(a, b);
  }

  lemma {:induction false} SendingTrace(ps: nat, i: nat, puts: seq<Put>)
    ensures Executed(Sending(ps, i, puts)) == [] && AskedFor(Sending(ps, i, puts)) == []
  {
    if puts != [] {
      SendingTrace(ps, i, puts[1..]);
      Split(if puts[0].Sent? then [LongData(ps, i, puts[0].data)] else [], Sending(ps, i, puts[1..]));
    }
  }

  lemma {:induction false} AskingTrace(op: Op, j: nat, i: nat, ps: nat)
    requires op.Valid() && j < op.Count() && i <= op.paramCount
    ensures Executed(Asking(op, j, i, ps)) == [] && AskedFor(Asking(op, j, i, ps)) == DaeOf(op, j, i)
    decreases op.paramCount - i
  {
    if i < op.paramCount {
      var sent := Sending(ps, i, op.answers[j][i]);
      var rest := Asking(op, j, i + 1, ps);
      AskingTrace(op, j, i + 1, ps);
      if op.cells[j][i].Dae? {
        SendingTrace(ps, i, op.answers[j][i]);
        Split([Ask(j, i)], sent);
        Split([Ask(j, i)] + sent, rest);
      } else {
        assert [] + rest == rest;
      }
    }
  }

  lemma BlockTrace(op: Op, j: nat, head: seq<Event>, used: nat, rest: seq<Event>)
    requires op.Valid() && j < op.Count() && forall e :: e in head ==> e.Push?
    ensures var block := head + (Asking(op, j, 0, used) + ([Exec(used, j, op.succeeds[j])] + rest));
            Executed(block) == [j] + Executed(rest) && AskedFor(block) == DaeOf(op, j, 0) + AskedFor(rest)
  {
    var exec := [Exec(used, j, op.succeeds[j])];
    PushTrace(head);
    AskingTrace(op, j, 0, used);
    Split(exec, rest);
    Split(Asking(op, j, 0, used), exec + rest);
    Split(head, Asking(op, j, 0, used) + (exec + rest));
  }

  lemma {:induction false} PushTrace(events: seq<Event>)
    requires forall e :: e in events ==> e.Push?
    ensures Executed(events) == [] && AskedFor(events) == []
  {
    if events != [] {
      assert events[0] in events;
      PushTrace(events[1..]);
    }
  }

  lemma {:induction false} StraightTrace(op: Op, j: nat, ps: nat, serverSide: bool, stale: bool)
    requires op.Valid() && j <= op.Count()
    ensures var events, stop := Straight(op, j, ps, serverSide, stale), Stop(op, j, stale);
            Executed(events) == Live(op, j, stop) && AskedFor(events) == DaeCells(op, j, stop)
    decreases op.Count() - j
  {
    hide Executed, AskedFor, Asking;
    if j == op.Count() || (!op.ignored[j] && Blocked(op, j, stale)) {
      PushTrace([]);
    } else if op.ignored[j] {
      StraightTrace(op, j + 1, ps, serverSide, stale);
    } else {
      var swapped := Swaps(op, j, serverSide);
      var used := if swapped then ps + 1 else ps;
      var rest := Straight(op, j + 1, used, serverSide || swapped, Leaves(op, j, stale));
      StraightTrace(op, j + 1, used, serverSide || swapped, Leaves(op, j, stale));
      BlockTrace(op, j, Handing(op, j, ps, swapped), used, rest);
    }
  }

  /** An error is on record when paramset `j` is converted: some earlier one has failed, and no
      paramset in between has made the application call SQLParamData, which starts with a clean record. */
  ghost predicate StaleAt(op: Op, j: nat)
    requires op.Valid() && j <= op.Count()
  {
    exists k :: Failed(op, k, j) && forall m :: k < m < j ==> op.ignored[m] || !HasDae(op, m)
  }

  ghost predicate Failed(op: Op, k: int, j: nat)
    requires op.Valid() && j <= op.Count()
  {
    0 <= k < j && !op.ignored[k] && !op.succeeds[k]
  }

  /** Every paramset can be converted on its own, and none that holds an ordinary value comes after a
      failed one without a suspension in between. */
  ghost predicate Undisturbed(op: Op)
    requires op.Valid()
  {
    forall j :: 0 <= j < op.Count() && !op.ignored[j] ==> !Blocked(op, j, StaleAt(op, j))
  }

  lemma StaleNext(op: Op, j: nat)
    requires op.Valid() && j < op.Count()
    ensures StaleAt(op, j + 1) == if op.ignored[j] then StaleAt(op, j) else Leaves(op, j, StaleAt(op, j))
  {
    if StaleAt(op, j + 1) {
      var k :| Failed(op, k, j + 1) && forall m :: k < m < j + 1 ==> op.ignored[m] || !HasDae(op, m);
      if k < j {
        assert Failed(op, k, j);
      }
    }
    if StaleAt(op, j) && (op.ignored[j] || !HasDae(op, j)) {
      var k :| Failed(op, k, j) && forall m :: k < m < j ==> op.ignored[m] || !HasDae(op, m);
      assert Failed(op, k, j + 1);
    }
    if !op.ignored[j] && !op.succeeds[j] {
      assert Failed(op, j, j + 1);
    }
  }

  lemma {:induction false} StopsWhereBlocked(op: Op, j: nat)
    requires op.Valid() && j <= op.Count()
    ensures var stop := Stop(op, j, StaleAt(op, j));
            && (stop < op.Count() ==> !op.ignored[stop] && Blocked(op, stop, StaleAt(op, stop)))
            && forall k :: j <= k < stop && !op.ignored[k] ==> !Blocked(op, k, StaleAt(op, k))
    decreases op.Count() - j
  {
    if j < op.Count() && (op.ignored[j] || !Blocked(op, j, StaleAt(op, j))) {
      StaleNext(op, j);
      StopsWhereBlocked(op, j + 1);
    }
  }

  lemma {:induction false} LiveGrows(op: Op, j: nat, stop: nat)
    requires op.Valid() && j <= stop < op.Count() && !op.ignored[stop]
    ensures |Live(op, j, stop)| < |Live(op, j, op.Count())|
    decreases stop - j
  {
    if j < stop {
      LiveGrows(op, j + 1, stop);
    }
  }

  /** The paramsets up to the one that stops the operation are executed once each, in order, and their
      data-at-execution cells are asked for once each, in order. That is all of them if and only if
      the array is undisturbed. */
  lemma TraceOfRun(op: Op, s: State)
    requires Fits(op, s) && s.putParam == NO_DATA_NEEDED
    ensures var events, stop := Run(op, s).events, Stop(op, 0, false);
            Executed(events) == Live(op, 0, stop) && AskedFor(events) == DaeCells(op, 0, stop)
    ensures Executed(Run(op, s).events) == Live(op, 0, op.Count()) <==> Undisturbed(op)
    ensures Undisturbed(op) ==>
              && AskedFor(Run(op, s).events) == DaeCells(op, 0, op.Count())
              && Run(op, s).s.rowsProcessed == op.Count()
              && forall j :: 0 <= j < op.Count() ==> Run(op, s).s.status[j] == StatusOf(op, j)
  {
    var stop := Stop(op, 0, false);
    RunIsStraight(op, s);
    StraightTrace(op, 0, s.ps, s.serverSide, false);
    assert !StaleAt(op, 0);
    StopsWhereBlocked(op, 0);
    if stop < op.Count() {
      LiveGrows(op, 0, stop);
    }
  }

  /** SQLCancel in the middle of an array, by giving the data up or by closing the cursor, leaves nothing behind: the
      next execution does, asks for, counts and reports what it would have done had the statement never been suspended.
      Killing the query leaves the statement suspended where it is. */
  lemma CancelForgets(op: Op, s: State, action: CancelAction)
    requires Suspended(op, s)
    ensures action.KillQuery? ==> Suspended(op, Cancel(s, action).s) && Cancel(s, action).s == s.(error := false)
    ensures !action.KillQuery? ==>
              var cancelled := Cancel(s, action).s;
              var untouched := State(NO_DATA_NEEDED, 0, false, 0, s.status, s.ps, s.serverSide, -1);
              var o, p := Run(op, cancelled), Run(op, untouched);
              o.events == p.events && o.s.rowsProcessed == p.s.rowsProcessed && o.s.status == p.s.status
  {
    if !action.KillQuery? {
      RunIsStraight(op, Cancel(s, action).s);
      RunIsStraight(op, State(NO_DATA_NEEDED, 0, false, 0, s.status, s.ps, s.serverSide, -1));
    }
  }

  /** SQLCancel while data is needed gives it up, whatever another thread does, unless the application is an ODBC 2 one
      and another thread is busy; the next SQLExecute then goes over the array from its first paramset on. */
  lemma CancelWhileWaiting(op: Op, s: State, odbc2: bool, busy: bool)
    requires Suspended(op, s)
    ensures var o := Cancel(s, ActionFor(op, s, odbc2, busy));
            && (o.s.putParam == NO_DATA_NEEDED <==> !(odbc2 && busy))
            && (odbc2 && busy ==> o.s == s.(error := false))
            && (!(odbc2 && busy) ==> Run(op, o.s).events == Straight(op, 0, s.ps, s.serverSide, false))
  {
    if !(odbc2 && busy) {
      RunIsStraight(op, Cancel(s, ActionFor(op, s, odbc2, busy)).s);
    }
  }

  /** Two paramsets of one ordinary value each; the server rejects the first one. */
  const REJECTED := Op(1, 2, [[Value], [Value]], [false, false], [false, true], [false, false], [[[]], [[]]])

  lemma RejectedStops()
    ensures REJECTED.Valid() && Stop(REJECTED, 0, false) == 1
  {
    var op := REJECTED;
    assert !Blocked(op, 0, false);
    assert op.cells[1][0] == Value && Blocked(op, 1, true);
  }

  lemma RejectedLive()
    ensures REJECTED.Valid() && Live(REJECTED, 0, 1) == [0]
  {
    assert Live(REJECTED, 0, 1) == [0] + Live(REJECTED, 1, 1);
  }

  /** The second paramset is never sent, although nothing is wrong with it. */
  lemma RejectedParamsetStopsTheArray(s: State)
    requires |s.status| == 2 && s.putParam == NO_DATA_NEEDED
    ensures Fits(REJECTED, s) && Executed(Run(REJECTED, s).events) == [0]
    ensures REJECTED.succeeds[1] && !Blocked(REJECTED, 1, false)
  {
    hide Run, Executed, AskedFor, Live, Stop, DaeCells;
    RejectedStops();
    RejectedLive();
    TraceOfRun(REJECTED, s);
  }
}
