/** What becomes of a cancel, a drop and an allocation: when they get what they ask for, and in which state they leave
    the driver if nobody else is in the way. */
module CancelRuns {
  import opened Common
  import opened DeletedStatements
  import opened CancelDrop

  /** A cancel that may look its address up owns the switch afterwards if and only if the address is neither listed nor
      held, and then the statement exists; otherwise it is over, and no switch has changed hands. */
  lemma CancelTakesTheSwitch(s: State, t: nat)
    requires Inv(s) && At(s, t).CancelChecks? && MayCancel(s, At(s, t).a)
    ensures Can(s, t, Continue)
    ensures var a, e := At(s, t).a, Step(s, t, Continue);
            && ((a in e.switches && e.switches[a] == t) <==> a !in s.deleted && a !in s.switches)
            && (a !in s.deleted && a !in s.switches ==> Cancelling(At(e, t)) && At(e, t).a == a && a in e.live)
            && (a in s.deleted || a in s.switches ==> At(e, t) == Idle && e.switches == s.switches && e.global == None)
  {
    if At(s, t).a !in s.deleted {
      UnlistedIsLive(s, At(s, t).a);
    }
  }

  /** A cancel that has the switch is never held up: whatever the other threads do meanwhile, it can go on, and two
      moves of its own later it is over and the switch is free. */
  lemma CancelNeverHeldUp(s: State, t: nat, moves: seq<(nat, Move)>, e: State)
    requires Inv(s) && Cancelling(At(s, t)) && Run(s, moves, e) && forall i :: 0 <= i < |moves| ==> moves[i].0 != t
    ensures Inv(e) && At(e, t) == At(s, t) && Can(e, t, Continue)
    ensures var n := Step(e, t, Continue); At(e, t).CancelWorks? ==> At(n, t) == Idle && At(e, t).a !in n.switches
    ensures var n := Step(e, t, Continue); At(e, t).CancelLocked? ==> At(n, t) == CancelWorks(At(e, t).a)
  {
    hide Inv, Run;
    InvRun(s, moves, e);
    OthersLeave(s, t, moves, e);
  }

  lemma {:induction false} OthersLeave(s: State, t: nat, moves: seq<(nat, Move)>, e: State)
    requires Run(s, moves, e) && forall i :: 0 <= i < |moves| ==> moves[i].0 != t
    ensures At(e, t) == At(s, t)
    decreases |moves|
  {
    hide Can, NextPc;
    if moves != [] {
      assert moves[0].0 != t;
      OthersLeave(Step(s, moves[0].0, moves[0].1), t, moves[1..], e);
    }
  }

  /** Several moves of one thread, none of which begins a call. */
  function On(t: nat, n: nat): seq<(nat, Move)> { if n == 0 then [] else [(t, Continue)] + On(t, n - 1) }

  /** One more move in front. */
  lemma {:induction false} OnFrom(s: State, t: nat, n: nat, e: State)
    requires Can(s, t, Continue) && Run(Step(s, t, Continue), On(t, n), e)
    ensures Run(s, On(t, n + 1), e)
  {
    hide Can, Step;
    RunFirst(s, t, Continue, On(t, n), e);
  }

  lemma {:induction false} OnNone(s: State, t: nat)
    ensures Run(s, On(t, 0), s)
  {
  }

  /** The state with the thread elsewhere. */
  function Moved(s: State, t: nat, p: Pc): State { s.(pc := s.pc[t := p]) }

  lemma MovedTwice(s: State, t: nat, p: Pc, q: Pc)
    ensures Moved(Moved(s, t, p), t, q) == Moved(s, t, q)
  {
    assert s.pc[t := p][t := q] == s.pc[t := q];
  }

  // ---------- A cancel nobody disturbs ----------

  /** Neither a cancel nor a drop of this handle is in progress. */
  ghost predicate Undisturbed(s: State, a: nat) {
    a in s.handles && forall u: nat :: Cancelling(At(s, u)) || Dropping(At(s, u)) ==> At(s, u).a != a
  }

  /** Its switch is free then. */
  lemma UndisturbedIsFree(s: State, a: nat)
    requires Inv(s) && Undisturbed(s, a)
    ensures a !in s.switches && a !in s.deleted && MayCancel(s, a)
  {
  }

  /** A cancel of a handle that nobody else cancels or drops gets to its work: then it has the switch, and the
      driver-wide lock is free again. When it is over everything is as before. */
  lemma CancelGetsThrough(s: State, t: nat, a: nat)
    requires Inv(s) && At(s, t).Idle? && s.global.None? && Undisturbed(s, a)
    ensures var works := Moved(s, t, CancelWorks(a)).(switches := s.switches[a := t]);
            && Run(s, [(t, StartCancel(a))] + On(t, 3), works)
            && Run(works, On(t, 1), Moved(s, t, Idle))
  {
    UndisturbedIsFree(s, a);
    hide Inv, Undisturbed, Run, On;
    var works := Moved(s, t, CancelWorks(a)).(switches := s.switches[a := t]);
    CancelStarts(s, t, a);
    RunFirst(s, t, StartCancel(a), On(t, 3), works);
    CancelEnds(s, t, a);
  }

  lemma CancelStarts(s: State, t: nat, a: nat)
    requires At(s, t).Idle? && s.global.None? && a !in s.switches && a !in s.deleted && MayCancel(s, a)
    ensures Can(s, t, StartCancel(a))
    ensures Run(Step(s, t, StartCancel(a)), On(t, 3), Moved(s, t, CancelWorks(a)).(switches := s.switches[a := t]))
  {
    hide Run, On, Can, Step;
    var s4 := Moved(s, t, CancelWorks(a)).(switches := s.switches[a := t]);
    CancelLooks(s, t, a);
    CancelLocks(s, t, a);
    OnNone(s4, t);
    OnFrom(Moved(s, t, CancelLocked(a)).(global := Some(t), switches := s.switches[a := t]), t, 0, s4);
    OnFrom(Moved(s, t, CancelChecks(a)).(global := Some(t)), t, 1, s4);
    OnFrom(Moved(s, t, CancelWaitsGlobal(a)), t, 2, s4);
  }

  lemma CancelLooks(s: State, t: nat, a: nat)
    requires At(s, t).Idle? && s.global.None?
    ensures var waits := Moved(s, t, CancelWaitsGlobal(a));
            && Can(s, t, StartCancel(a)) && Step(s, t, StartCancel(a)) == waits && Can(waits, t, Continue)
            && Step(waits, t, Continue) == Moved(s, t, CancelChecks(a)).(global := Some(t))
  {
    MovedTwice(s, t, CancelWaitsGlobal(a), CancelChecks(a));
  }

  lemma CancelLocks(s: State, t: nat, a: nat)
    requires s.global.None? && a !in s.switches && a !in s.deleted && MayCancel(s, a)
    ensures var checks := Moved(s, t, CancelChecks(a)).(global := Some(t));
            var locked := Moved(s, t, CancelLocked(a)).(global := Some(t), switches := s.switches[a := t]);
            && Can(checks, t, Continue) && Step(checks, t, Continue) == locked && Can(locked, t, Continue)
            && Step(locked, t, Continue) == Moved(s, t, CancelWorks(a)).(switches := s.switches[a := t])
  {
    MovedTwice(s, t, CancelChecks(a), CancelLocked(a));
    MovedTwice(s, t, CancelLocked(a), CancelWorks(a));
    assert s.switches[a := t][a := t] == s.switches[a := t];
  }

  lemma CancelEnds(s: State, t: nat, a: nat)
    requires s.global.None? && a !in s.switches
    ensures Run(Moved(s, t, CancelWorks(a)).(switches := s.switches[a := t]), On(t, 1), Moved(s, t, Idle))
  {
    hide Run, On;
    var s4 := Moved(s, t, CancelWorks(a)).(switches := s.switches[a := t]);
    MovedTwice(s, t, s4.pc[t], Idle);
    assert s.switches[a := t] - {a} == s.switches;
    assert Step(s4, t, Continue) == Moved(s, t, Idle);
    OnNone(Moved(s, t, Idle), t);
    OnFrom(s4, t, 0, Moved(s, t, Idle));
  }

  // ---------- A drop and an allocation nobody disturbs ----------

  /** What a drop leaves behind: the statement is gone, its address is the first one of the list, and every lock is
      free again. */
  function Dropped(s: State, t: nat, a: nat): State {
    Moved(s, t, Idle).(live := s.live - {a}, handles := s.handles - {a}, deleted := Remembered(s.deleted, a),
                       drops := [a] + s.drops)
  }

  /** The statement is cleaned under all three locks; it is freed with its own switch open. */
  lemma DropGetsThrough(s: State, t: nat, a: nat)
    requires At(s, t).Idle? && a in s.handles && LocksFree(s, a, Home(s, a))
    ensures var c := Home(s, a);
            var held := s.(global := Some(t), lists := s.lists[c := t], handles := s.handles - {a});
            var cleans := Moved(held, t, DropCleans(a, c)).(switches := s.switches[a := t]);
            var frees := Moved(held, t, DropFrees(a, c)).(deleted := Dropped(s, t, a).deleted, drops := [a] + s.drops);
            && Run(s, [(t, StartDrop(a))] + On(t, 3), cleans)
            && Run(cleans, On(t, 2), frees)
            && Run(frees, On(t, 2), Dropped(s, t, a))
  {
    hide Run, On;
    var c := Home(s, a);
    var held := s.(global := Some(t), lists := s.lists[c := t], handles := s.handles - {a});
    var cleans := Moved(held, t, DropCleans(a, c)).(switches := s.switches[a := t]);
    DropStarts(s, t, a);
    RunFirst(s, t, StartDrop(a), On(t, 3), cleans);
    DropForgets(s, t, a);
    DropEnds(s, t, a);
  }

  lemma DropStarts(s: State, t: nat, a: nat)
    requires At(s, t).Idle? && a in s.handles && LocksFree(s, a, Home(s, a))
    ensures var c := Home(s, a);
            var held := s.(global := Some(t), lists := s.lists[c := t], handles := s.handles - {a});
            && Can(s, t, StartDrop(a))
            && Run(Step(s, t, StartDrop(a)), On(t, 3),
                   Moved(held, t, DropCleans(a, c)).(switches := s.switches[a := t]))
  {
    hide Run, On, Can, Step, LocksFree;
    var c, out := Home(s, a), s.(handles := s.handles - {a});
    var s4 := Moved(out, t, DropCleans(a, c)).(global := Some(t), switches := s.switches[a := t],
                                               lists := s.lists[c := t]);
    DropBegins(s, t, a);
    DropLocks(s, t, a);
    OnNone(s4, t);
    OnFrom(Moved(out, t, DropWaitsLists(a)).(global := Some(t), switches := s.switches[a := t]), t, 0, s4);
    OnFrom(Moved(out, t, DropWaitsSwitch(a)).(global := Some(t)), t, 1, s4);
    OnFrom(Moved(out, t, DropWaitsGlobal(a)), t, 2, s4);
  }

  lemma DropBegins(s: State, t: nat, a: nat)
    requires At(s, t).Idle? && a in s.handles && LocksFree(s, a, Home(s, a))
    ensures var out := s.(handles := s.handles - {a});
            var waits := Moved(out, t, DropWaitsGlobal(a));
            && Can(s, t, StartDrop(a)) && Step(s, t, StartDrop(a)) == waits && Can(waits, t, Continue)
            && Step(waits, t, Continue) == Moved(out, t, DropWaitsSwitch(a)).(global := Some(t))
  {
    MovedTwice(s.(handles := s.handles - {a}), t, DropWaitsGlobal(a), DropWaitsSwitch(a));
  }

  lemma DropLocks(s: State, t: nat, a: nat)
    requires LocksFree(s, a, Home(s, a))
    ensures var c, out := Home(s, a), s.(handles := s.handles - {a});
            var first := Moved(out, t, DropWaitsSwitch(a)).(global := Some(t));
            var second := Moved(out, t, DropWaitsLists(a)).(global := Some(t), switches := s.switches[a := t]);
            && Can(first, t, Continue) && Step(first, t, Continue) == second && Can(second, t, Continue)
            && Step(second, t, Continue)
               == Moved(out, t, DropCleans(a, c)).(global := Some(t), switches := s.switches[a := t],
                                                   lists := s.lists[c := t])
  {
    MovedTwice(s.(handles := s.handles - {a}), t, DropWaitsSwitch(a), DropWaitsLists(a));
    MovedTwice(s.(handles := s.handles - {a}), t, DropWaitsLists(a), DropCleans(a, Home(s, a)));
    assert s.switches[a := t][a := t] == s.switches[a := t];
  }

  lemma DropForgets(s: State, t: nat, a: nat)
    requires LocksFree(s, a, Home(s, a))
    ensures var c := Home(s, a);
            var held := s.(global := Some(t), lists := s.lists[c := t], handles := s.handles - {a});
            Run(Moved(held, t, DropCleans(a, c)).(switches := s.switches[a := t]), On(t, 2),
                Moved(held, t, DropFrees(a, c)).(deleted := Remembered(s.deleted, a), drops := [a] + s.drops))
  {
    hide Run, On, Can, Step, Remembered;
    var c := Home(s, a);
    var held := s.(global := Some(t), lists := s.lists[c := t], handles := s.handles - {a});
    var later := held.(deleted := Remembered(s.deleted, a), drops := [a] + s.drops);
    var s6 := Moved(later, t, DropFrees(a, c));
    DropRemembers(s, t, a);
    DropOpens(later, t, a, c);
    OnNone(s6, t);
    OnFrom(Moved(later, t, DropRemembered(a, c)).(switches := s.switches[a := t]), t, 0, s6);
    OnFrom(Moved(held, t, DropCleans(a, c)).(switches := s.switches[a := t]), t, 1, s6);
  }

  lemma DropRemembers(s: State, t: nat, a: nat)
    ensures var c := Home(s, a);
            var held := s.(global := Some(t), lists := s.lists[c := t], handles := s.handles - {a});
            var later := held.(deleted := Remembered(s.deleted, a), drops := [a] + s.drops);
            var cleans := Moved(held, t, DropCleans(a, c)).(switches := s.switches[a := t]);
            && Can(cleans, t, Continue)
            && Step(cleans, t, Continue) == Moved(later, t, DropRemembered(a, c)).(switches := s.switches[a := t])
  {
    hide Remembered;
    var c := Home(s, a);
    assert s.lists[c := t][c := t] == s.lists[c := t];
    assert s.switches[a := t][a := t] == s.switches[a := t];
    MovedTwice(s, t, DropCleans(a, c), DropRemembered(a, c));
  }

  /** The switch is opened while the other two locks are kept. */
  lemma DropOpens(s: State, t: nat, a: nat, c: nat)
    requires s.global == Some(t) && a !in s.switches && c in s.lists && s.lists[c] == t
    ensures var kept := Moved(s, t, DropRemembered(a, c)).(switches := s.switches[a := t]);
            Can(kept, t, Continue) && Step(kept, t, Continue) == Moved(s, t, DropFrees(a, c))
  {
    assert s.lists[c := t] == s.lists;
    assert s.switches[a := t] - {a} == s.switches;
    MovedTwice(s, t, DropRemembered(a, c), DropFrees(a, c));
  }

  lemma DropEnds(s: State, t: nat, a: nat)
    requires LocksFree(s, a, Home(s, a))
    ensures var c := Home(s, a);
            var held := s.(global := Some(t), lists := s.lists[c := t], handles := s.handles - {a});
            Run(Moved(held, t, DropFrees(a, c)).(deleted := Remembered(s.deleted, a), drops := [a] + s.drops),
                On(t, 2), Dropped(s, t, a))
  {
    hide Run, On, Remembered;
    var c := Home(s, a);
    var held := s.(global := Some(t), lists := s.lists[c := t], handles := s.handles - {a},
                   deleted := Remembered(s.deleted, a), drops := [a] + s.drops);
    var s6 := Moved(held, t, DropFrees(a, c));
    var s7 := Moved(held, t, DropLeaves(a, c)).(live := s.live - {a});
    assert s.lists[c := t][c := t] == s.lists[c := t];
    assert Step(s6, t, Continue) == s7 by { MovedTwice(held, t, s6.pc[t], s7.pc[t]); }
    assert Step(s7, t, Continue) == Dropped(s, t, a) by {
      MovedTwice(held, t, s7.pc[t], Idle);
      assert s.lists[c := t] - {c} == s.lists;
    }
    OnNone(Dropped(s, t, a), t);
    OnFrom(s7, t, 0, Dropped(s, t, a));
    OnFrom(s6, t, 1, Dropped(s, t, a));
  }

  /** A cancel of one of the last fifty dropped statements, whose address is not in use again, finds it in the list and
      leaves everything as it was. */
  lemma LateCancelIsHarmless(s: State, t: nat, a: nat)
    requires Inv(s) && At(s, t).Idle? && s.global.None? && a in Last50(s.drops) && a !in s.live
    ensures Run(s, [(t, StartCancel(a))] + On(t, 2), Moved(s, t, Idle))
  {
    DroppedIsListed(s, a);
    hide Run, On, Can, Step, Inv;
    CancelLooks(s, t, a);
    CancelGoes(s, t, a);
    OnNone(Moved(s, t, Idle), t);
    OnFrom(Moved(s, t, CancelChecks(a)).(global := Some(t)), t, 0, Moved(s, t, Idle));
    OnFrom(Moved(s, t, CancelWaitsGlobal(a)), t, 1, Moved(s, t, Idle));
    RunFirst(s, t, StartCancel(a), On(t, 2), Moved(s, t, Idle));
  }

  lemma DroppedIsListed(s: State, a: nat)
    requires Recent(s) && a in Last50(s.drops) && a !in s.live
    ensures a in s.deleted
  {
    if a !in s.deleted {
      UnlistedIsLive(s, a);
    }
  }

  lemma CancelGoes(s: State, t: nat, a: nat)
    requires s.global.None? && MayCancel(s, a) && a in s.deleted
    ensures var checks := Moved(s, t, CancelChecks(a)).(global := Some(t));
            Can(checks, t, Continue) && Step(checks, t, Continue) == Moved(s, t, Idle)
  {
    MovedTwice(s, t, CancelChecks(a), Idle);
  }

  /** What an allocation leaves behind: a statement of the connection that the application has, and whose address is
      not among the deleted ones. */
  function Allocated(s: State, t: nat, a: nat, c: nat): State {
    Moved(s, t, Idle).(home := s.home[a := c], live := s.live + {a}, handles := s.handles + {a},
                       deleted := Forgotten(s.deleted, a))
  }

  /** The address is forgotten under the driver-wide lock and the lists lock, before the statement is handed out. */
  lemma AllocationGetsThrough(s: State, t: nat, a: nat, c: nat)
    requires At(s, t).Idle? && a !in s.live && s.global.None? && c !in s.lists
    ensures var made := s.(home := s.home[a := c], live := s.live + {a}, lists := s.lists[c := t]);
            var forgets := Moved(made, t, AllocForgets(a, c)).(global := Some(t));
            && Run(s, [(t, StartAlloc(a, c))] + On(t, 2), forgets)
            && Run(forgets, On(t, 2), Allocated(s, t, a, c))
    ensures Inv(s) ==> a !in Allocated(s, t, a, c).deleted
  {
    hide Run, On;
    var made := s.(home := s.home[a := c], live := s.live + {a}, lists := s.lists[c := t]);
    var forgets := Moved(made, t, AllocForgets(a, c)).(global := Some(t));
    AllocationStarts(s, t, a, c);
    RunFirst(s, t, StartAlloc(a, c), On(t, 2), forgets);
    AllocationEnds(s, t, a, c);
    if Inv(s) {
      ForgottenExactly(s.deleted, a);
    }
  }

  lemma AllocationStarts(s: State, t: nat, a: nat, c: nat)
    requires At(s, t).Idle? && a !in s.live && s.global.None? && c !in s.lists
    ensures var made := s.(home := s.home[a := c], live := s.live + {a}, lists := s.lists[c := t]);
            && Can(s, t, StartAlloc(a, c))
            && Run(Step(s, t, StartAlloc(a, c)), On(t, 2), Moved(made, t, AllocForgets(a, c)).(global := Some(t)))
  {
    hide Run, On, Can, Step;
    var made := s.(home := s.home[a := c], live := s.live + {a});
    var s3 := Moved(made, t, AllocForgets(a, c)).(lists := s.lists[c := t], global := Some(t));
    AllocationBegins(s, t, a, c);
    AllocationLocks(made, t, a, c);
    OnNone(s3, t);
    OnFrom(Moved(made, t, AllocWaitsGlobal(a, c)).(lists := s.lists[c := t]), t, 0, s3);
    OnFrom(Moved(made, t, AllocWaitsLists(a, c)), t, 1, s3);
  }

  lemma AllocationBegins(s: State, t: nat, a: nat, c: nat)
    requires At(s, t).Idle? && a !in s.live && c !in s.lists
    ensures var waits := Moved(s, t, AllocWaitsLists(a, c)).(home := s.home[a := c], live := s.live + {a});
            Can(s, t, StartAlloc(a, c)) && Step(s, t, StartAlloc(a, c)) == waits && Can(waits, t, Continue)
  {
  }

  lemma AllocationLocks(made: State, t: nat, a: nat, c: nat)
    requires made.global.None? && c !in made.lists
    ensures var first := Moved(made, t, AllocWaitsLists(a, c));
            var second := Moved(made, t, AllocWaitsGlobal(a, c)).(lists := made.lists[c := t]);
            && Can(first, t, Continue) && Step(first, t, Continue) == second && Can(second, t, Continue)
            && Step(second, t, Continue)
               == Moved(made, t, AllocForgets(a, c)).(lists := made.lists[c := t], global := Some(t))
  {
    MovedTwice(made, t, AllocWaitsLists(a, c), AllocWaitsGlobal(a, c));
    MovedTwice(made, t, AllocWaitsGlobal(a, c), AllocForgets(a, c));
    assert made.lists[c := t][c := t] == made.lists[c := t];
  }

  lemma AllocationEnds(s: State, t: nat, a: nat, c: nat)
    requires s.global.None? && c !in s.lists
    ensures var made := s.(home := s.home[a := c], live := s.live + {a}, lists := s.lists[c := t]);
            Run(Moved(made, t, AllocForgets(a, c)).(global := Some(t)), On(t, 2), Allocated(s, t, a, c))
  {
    hide Run, On, Can, Step, Forgotten;
    var made := s.(home := s.home[a := c], live := s.live + {a});
    var s3 := Moved(made, t, AllocForgets(a, c)).(lists := s.lists[c := t], global := Some(t));
    var after := made.(deleted := Forgotten(s.deleted, a));
    AllocationForgets(made, t, a, c);
    AllocationLeaves(after, t, a, c);
    OnNone(Allocated(s, t, a, c), t);
    OnFrom(Moved(after, t, AllocLeaves(a, c)).(lists := s.lists[c := t]), t, 0, Allocated(s, t, a, c));
    OnFrom(s3, t, 1, Allocated(s, t, a, c));
  }

  lemma AllocationForgets(made: State, t: nat, a: nat, c: nat)
    requires made.global.None? && c !in made.lists
    ensures var locked := Moved(made, t, AllocForgets(a, c)).(lists := made.lists[c := t], global := Some(t));
            && Can(locked, t, Continue)
            && Step(locked, t, Continue)
               == Moved(made, t, AllocLeaves(a, c)).(lists := made.lists[c := t], deleted := Forgotten(made.deleted, a))
  {
    hide Forgotten;
    MovedTwice(made, t, AllocForgets(a, c), AllocLeaves(a, c));
    assert made.lists[c := t][c := t] == made.lists[c := t];
  }

  lemma AllocationLeaves(after: State, t: nat, a: nat, c: nat)
    requires c !in after.lists
    ensures var locked := Moved(after, t, AllocLeaves(a, c)).(lists := after.lists[c := t]);
            && Can(locked, t, Continue)
            && Step(locked, t, Continue) == Moved(after, t, Idle).(handles := after.handles + {a})
  {
    MovedTwice(after, t, AllocLeaves(a, c), Idle);
    assert after.lists[c := t] - {c} == after.lists;
  }

  // ---------- A cancel and a drop that meet ----------

  /** A cancel that has the switch while a drop of the same statement waits for it: such a state can be reached, so
      that what holds of every cancel that has the switch is not empty. */
  lemma CancellingReachable()
    ensures exists e :: Reachable(e) && At(e, 2) == CancelWorks(7) && At(e, 1) == DropWaitsSwitch(7) && 7 in e.live
                        && !Can(e, 1, Continue)
  {
    hide Reachable, Can, Step;
    var e := CancelsSeven();
    MeetsDrop(e);
  }

  lemma ChecksSeven() returns (e: State)
    ensures Reachable(e)
    ensures e == State(map[1 := Idle, 2 := CancelChecks(7)], Some(2), map[], map[], map[7 := 3], {7}, {7}, [], [])
  {
    hide Reachable;
    e := HandsOutSeven();
    ReachableThen(e, 2, StartCancel(7));
    e := Step(e, 2, StartCancel(7));
    ReachableThen(e, 2, Continue);
    e := Step(e, 2, Continue);
  }

  lemma CancelsSeven() returns (e: State)
    ensures Reachable(e)
    ensures e == State(map[1 := Idle, 2 := CancelWorks(7)], None, map[7 := 2], map[], map[7 := 3], {7}, {7}, [], [])
  {
    hide Reachable;
    e := ChecksSeven();
    ReachableThen(e, 2, Continue);
    e := Step(e, 2, Continue);
    ReachableThen(e, 2, Continue);
    e := Step(e, 2, Continue);
  }

  lemma MeetsDrop(s: State)
    requires Reachable(s) && At(s, 2) == CancelWorks(7) && At(s, 1) == Idle && 7 in s.handles && 7 in s.live
    requires s.global == None && 7 in s.switches
    ensures exists e :: Reachable(e) && At(e, 2) == CancelWorks(7) && At(e, 1) == DropWaitsSwitch(7) && 7 in e.live
                        && !Can(e, 1, Continue)
  {
    hide Reachable;
    var e := s;
    ReachableThen(e, 1, StartDrop(7));
    e := Step(e, 1, StartDrop(7));
    ReachableThen(e, 1, Continue);
    e := Step(e, 1, Continue);
    assert At(e, 1) == DropWaitsSwitch(7) && At(e, 2) == CancelWorks(7);
  }
}
