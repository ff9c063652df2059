/** SQLCancel, SQLFreeHandle and SQLAllocHandle of several threads, lock by lock: the driver-wide lock, the
    switch in each statement, and the lists lock of each connection. */
module CancelDrop {
  import opened Common
  import opened DeletedStatements

  /** Where a thread stands, and which statement (and connection) it is about. */
  datatype Pc =
    | Idle
    | CancelWaitsGlobal(a: nat)
    | CancelChecks(a: nat)             // has the global lock, has to look the address up
    | CancelLocked(a: nat)             // has the global lock and the switch
    | CancelWorks(a: nat)              // has the switch
    | DropWaitsGlobal(a: nat)
    | DropWaitsSwitch(a: nat)          // has the global lock
    | DropWaitsLists(a: nat)           // has the global lock and the switch
    | DropCleans(a: nat, c: nat)       // has the global lock, the switch and the lists lock
    | DropRemembered(a: nat, c: nat)   // the same; the address is among the deleted ones
    | DropFrees(a: nat, c: nat)        // the switch is unlocked
    | DropLeaves(a: nat, c: nat)       // the statement is gone; the global and the lists lock are still held
    | AllocWaitsLists(a: nat, c: nat)  // the statement exists
    | AllocWaitsGlobal(a: nat, c: nat) // has the lists lock
    | AllocForgets(a: nat, c: nat)     // has both
    | AllocLeaves(a: nat, c: nat)      // has the lists lock; the address is not among the deleted ones

  datatype State = State(
    pc: map<nat, Pc>,
    global: Option<nat>,           // the owner of the driver-wide lock
    switches: map<nat, nat>,       // address -> owner of its CancelDropSwitch
    lists: map<nat, nat>,          // connection -> owner of its lists lock
    home: map<nat, nat>,           // address -> connection
    live: set<nat>,                // statements that exist
    handles: set<nat>,             // handles the application has, and is not freeing
    deleted: seq<nat>,             // the deleted-statement list
    drops: seq<nat>)               // every address dropped so far, the latest one first

  const START := State(map[], None, map[], map[], map[], {}, {}, [], [])

  function At(s: State, t: nat): Pc { if t in s.pc then s.pc[t] else Idle }

  predicate HasGlobal(p: Pc) {
    p.CancelChecks? || p.CancelLocked? || p.DropWaitsSwitch? || p.DropWaitsLists? || p.DropCleans? || p.DropRemembered?
    || p.DropFrees? || p.DropLeaves? || p.AllocForgets?
  }

  predicate HasSwitch(p: Pc) {
    p.CancelLocked? || p.CancelWorks? || p.DropWaitsLists? || p.DropCleans? || p.DropRemembered?
  }

  predicate HasLists(p: Pc) {
    || p.DropCleans? || p.DropRemembered? || p.DropFrees? || p.DropLeaves?
    || p.AllocWaitsGlobal? || p.AllocForgets? || p.AllocLeaves?
  }

  /** Between the successful try_lock on the switch and its unlock. */
  predicate Cancelling(p: Pc) { p.CancelLocked? || p.CancelWorks? }

  /** A drop or an allocation that has the statement to itself. */
  predicate Dropping(p: Pc) {
    p.DropWaitsGlobal? || p.DropWaitsSwitch? || p.DropWaitsLists? || p.DropCleans? || p.DropRemembered? || p.DropFrees?
  }

  predicate Allocating(p: Pc) { p.AllocWaitsLists? || p.AllocWaitsGlobal? || p.AllocForgets? || p.AllocLeaves? }

  predicate Owning(p: Pc) { Dropping(p) || Allocating(p) }

  datatype Move = StartCancel(a: nat) | StartDrop(a: nat) | StartAlloc(a: nat, c: nat) | Continue

  function Last50(drops: seq<nat>): seq<nat> { if |drops| <= MAX_TO_KEEP then drops else drops[..MAX_TO_KEEP] }

  /** What the application owes: a statement it cancels exists, or is among the last 50 dropped ones. */
  predicate MayCancel(s: State, a: nat) { a in s.live || a in Last50(s.drops) }

  /** The thread can make the move now. A handle is freed only once. */
  predicate Can(s: State, t: nat, m: Move) {
    match At(s, t)
    case Idle =>
      (match m
       case StartCancel(a) => true
       case StartDrop(a) => a in s.handles
       case StartAlloc(a, c) => a !in s.live
       case Continue => false)
    case CancelWaitsGlobal(_) => m.Continue? && s.global.None?
    case CancelChecks(a) => m.Continue? && MayCancel(s, a)
    case DropWaitsGlobal(_) => m.Continue? && s.global.None?
    case DropWaitsSwitch(a) => m.Continue? && a !in s.switches
    case DropWaitsLists(a) => m.Continue? && Home(s, a) !in s.lists
    case AllocWaitsLists(_, c) => m.Continue? && c !in s.lists
    case AllocWaitsGlobal(_, _) => m.Continue? && s.global.None?
    case _ => m.Continue?
  }

  function Home(s: State, a: nat): nat { if a in s.home then s.home[a] else 0 }

  /** The next position of the thread. */
  function NextPc(s: State, t: nat, m: Move): Pc
    requires Can(s, t, m)
  {
    match At(s, t)
    case Idle =>
      (match m
       case StartCancel(a) => CancelWaitsGlobal(a)
       case StartDrop(a) => DropWaitsGlobal(a)
       case StartAlloc(a, c) => AllocWaitsLists(a, c)
       case Continue => Idle)
    case CancelWaitsGlobal(a) => CancelChecks(a)
    case CancelChecks(a) => if a in s.deleted || a in s.switches then Idle else CancelLocked(a)
    case CancelLocked(a) => CancelWorks(a)
    case CancelWorks(a) => Idle
    case DropWaitsGlobal(a) => DropWaitsSwitch(a)
    case DropWaitsSwitch(a) => DropWaitsLists(a)
    case DropWaitsLists(a) => DropCleans(a, Home(s, a))
    case DropCleans(a, c) => DropRemembered(a, c)
    case DropRemembered(a, c) => DropFrees(a, c)
    case DropFrees(a, c) => DropLeaves(a, c)
    case DropLeaves(a, c) => Idle
    case AllocWaitsLists(a, c) => AllocWaitsGlobal(a, c)
    case AllocWaitsGlobal(a, c) => AllocForgets(a, c)
    case AllocForgets(a, c) => AllocLeaves(a, c)
    case AllocLeaves(a, c) => Idle
  }

  /** One move: a lock is taken on entering the positions that have it and given back on leaving them; the
      statement is created by the first move of an allocation, handed out by its last one, and freed by the
      drop after its address has been remembered. */
  function Step(s: State, t: nat, m: Move): State
    requires Can(s, t, m)
  {
    var p, q := At(s, t), NextPc(s, t, m);
    State(
      s.pc[t := q],
      if HasGlobal(q) then Some(t) else if HasGlobal(p) then None else s.global,
      if HasSwitch(q) then s.switches[q.a := t] else if HasSwitch(p) then s.switches - {p.a} else s.switches,
      if HasLists(q) then s.lists[q.c := t] else if HasLists(p) then s.lists - {p.c} else s.lists,
      if p.Idle? && m.StartAlloc? then s.home[m.a := m.c] else s.home,
      if p.Idle? && m.StartAlloc? then s.live + {m.a} else if p.DropFrees? then s.live - {p.a} else s.live,
      if p.Idle? && m.StartDrop? then s.handles - {m.a} else if p.AllocLeaves? then s.handles + {p.a} else s.handles,
      if p.DropCleans? then Remembered(s.deleted, p.a)
      else if p.AllocForgets? then Forgotten(s.deleted, p.a)
      else s.deleted,
      if p.DropCleans? then [p.a] + s.drops else s.drops)
  }

  /** The moves in turn, each by some thread, lead from `s` to `e`. */
  ghost predicate Run(s: State, moves: seq<(nat, Move)>, e: State)
    decreases |moves|
  {
    if moves == [] then s == e
    else Can(s, moves[0].0, moves[0].1) && Run(Step(s, moves[0].0, moves[0].1), moves[1..], e)
  }

  // ---------- What every step keeps ----------

  /** Every lock is owned by exactly the threads whose position says so. */
  ghost predicate GlobalAgrees(s: State) {
    forall t: nat :: HasGlobal(At(s, t)) <==> s.global == Some(t)
  }

  ghost predicate SwitchesAgree(s: State) {
    && (forall t: nat :: HasSwitch(At(s, t)) ==> At(s, t).a in s.switches && s.switches[At(s, t).a] == t)
    && (forall a :: a in s.switches ==> HasSwitch(At(s, s.switches[a])) && At(s, s.switches[a]).a == a)
  }

  ghost predicate ListsAgree(s: State) {
    && (forall t: nat :: HasLists(At(s, t)) ==> At(s, t).c in s.lists && s.lists[At(s, t).c] == t)
    && (forall c :: c in s.lists ==> HasLists(At(s, s.lists[c])) && At(s, s.lists[c]).c == c)
  }

  ghost predicate LocksAgree(s: State) { GlobalAgrees(s) && SwitchesAgree(s) && ListsAgree(s) }

  /** A drop or an allocation has its statement to itself, apart from a cancel. */
  ghost predicate OwnersAgree(s: State) {
    && (forall t: nat :: Owning(At(s, t)) ==> At(s, t).a in s.live && At(s, t).a !in s.handles)
    && (forall t: nat, u: nat :: Owning(At(s, t)) && Owning(At(s, u)) && At(s, t).a == At(s, u).a ==> t == u)
    && s.handles <= s.live
  }

  /** No statement is freed between a successful try_lock on its switch and the unlock. */
  ghost predicate CancelsSafe(s: State) {
    && (forall t: nat :: Cancelling(At(s, t)) ==> At(s, t).a in s.live)
    && (forall t: nat :: At(s, t).DropFrees? ==> At(s, t).a !in s.switches)
  }

  predicate JustDropped(p: Pc) { p.DropRemembered? || p.DropFrees? || p.DropLeaves? }

  /** Which statements cannot be listed, and which one comes first. */
  ghost predicate ListAgrees(s: State) {
    && Distinct(s.deleted) && |s.deleted| <= MAX_TO_KEEP
    && (forall a :: a in s.handles ==> a !in s.deleted)
    && (forall t: nat :: Dropping(At(s, t)) && !JustDropped(At(s, t)) ==> At(s, t).a !in s.deleted)
    && (forall t: nat :: At(s, t).AllocLeaves? ==> At(s, t).a !in s.deleted)
    && (forall t: nat :: JustDropped(At(s, t)) ==> s.deleted != [] && s.deleted[0] == At(s, t).a)
  }

  predicate Listed(deleted: seq<nat>, a: nat, h: nat) {
    IndexOf(deleted, a) <= h && IndexOf(deleted, a) < |deleted|
  }

  /** A dropped statement stays listed for fifty drops, unless its address is in use again. */
  ghost predicate Recent(s: State) {
    forall h :: 0 <= h < |s.drops| && h < MAX_TO_KEEP ==> s.drops[h] in s.live || Listed(s.deleted, s.drops[h], h)
  }

  ghost predicate Inv(s: State) { LocksAgree(s) && OwnersAgree(s) && CancelsSafe(s) && ListAgrees(s) && Recent(s) }

  lemma StartInv()
    ensures Inv(START)
  {
  }

  /** A lock is only taken when it is free, and kept for the same statement or connection. */
  lemma Takes(s: State, t: nat, m: Move)
    requires Can(s, t, m)
    ensures var p, q := At(s, t), NextPc(s, t, m);
            && (HasGlobal(q) && !HasGlobal(p) ==> s.global.None?)
            && (HasSwitch(q) ==> if HasSwitch(p) then q.a == p.a else q.a !in s.switches)
            && (HasLists(q) ==> if HasLists(p) then q.c == p.c else q.c !in s.lists)
  {
  }

  lemma LocksStep(s: State, t: nat, m: Move)
    requires LocksAgree(s) && Can(s, t, m)
    ensures LocksAgree(Step(s, t, m))
  {
    hide NextPc, Can, HasGlobal, HasSwitch, HasLists;
    Takes(s, t, m);
    var e := Step(s, t, m);
    assert At(e, t) == NextPc(s, t, m);
    assert forall u: nat :: u != t ==> At(e, u) == At(s, u);
  }

  /** A cancel that finds the address unlisted finds the statement alive. */
  lemma UnlistedIsLive(s: State, a: nat)
    requires Recent(s) && MayCancel(s, a) && a !in s.deleted
    ensures a in s.live
  {
    forall h | 0 <= h < |Last50(s.drops)| && Last50(s.drops)[h] == a
      ensures a in s.live
    {
      assert s.drops[h] == a;
    }
  }

  /** How a thread comes to own a statement, and how it goes on. */
  lemma Owns(s: State, t: nat, m: Move)
    requires Can(s, t, m)
    ensures var p, q := At(s, t), NextPc(s, t, m);
            && (Owning(q) ==> if Owning(p) then q.a == p.a && !p.DropFrees? && !p.AllocLeaves?
                              else p.Idle? && if m.StartDrop? then m.a == q.a && q.a in s.handles
                                              else m.StartAlloc? && m.a == q.a && q.a !in s.live)
            && (p.Idle? && (m.StartAlloc? || m.StartDrop?) ==> Owning(q))
            && (p.DropFrees? || p.AllocLeaves? ==> Owning(p) && !Owning(q))
  {
  }

  lemma OwnersStep(s: State, t: nat, m: Move)
    requires OwnersAgree(s) && Can(s, t, m)
    ensures OwnersAgree(Step(s, t, m))
  {
    hide NextPc, Can, HasGlobal, HasSwitch, HasLists, Owning;
    Owns(s, t, m);
    var e := Step(s, t, m);
    assert At(e, t) == NextPc(s, t, m);
    assert forall u: nat :: u != t ==> At(e, u) == At(s, u);
  }

  /** How a thread gets to cancel, and when a statement may be freed. */
  lemma Cancels(s: State, t: nat, m: Move)
    requires Can(s, t, m)
    ensures var p, q := At(s, t), NextPc(s, t, m);
            && (Cancelling(q) ==> q.a == p.a)
            && (Cancelling(q) && !Cancelling(p) ==> p.CancelChecks? && MayCancel(s, p.a) && p.a !in s.deleted)
            && (q.DropFrees? ==> p.DropRemembered? && q.a == p.a)
            && (HasSwitch(q) && !HasSwitch(p) ==> HasGlobal(q) && (HasGlobal(p) || s.global.None?))
            && (Cancelling(q) ==> HasSwitch(q)) && (p.DropFrees? ==> HasGlobal(p) && q.DropLeaves?)
  {
  }

  lemma CancelsStep(s: State, t: nat, m: Move)
    requires LocksAgree(s) && CancelsSafe(s) && Recent(s) && Can(s, t, m)
    ensures CancelsSafe(Step(s, t, m))
  {
    hide NextPc, Can, Recent, HasLists;
    Cancels(s, t, m);
    Takes(s, t, m);
    var e := Step(s, t, m);
    assert At(e, t) == NextPc(s, t, m);
    assert forall u: nat :: u != t ==> At(e, u) == At(s, u);
    if Cancelling(At(e, t)) && !Cancelling(At(s, t)) {
      UnlistedIsLive(s, At(s, t).a);
    }
  }

  /** How the list changes, and which positions matter for it. */
  lemma ListChanges(s: State, t: nat, m: Move)
    requires Can(s, t, m)
    ensures var p, q := At(s, t), NextPc(s, t, m);
            && (JustDropped(q) ==> HasGlobal(q) && q.a == p.a && (JustDropped(p) || p.DropCleans?))
            && (p.DropCleans? ==> HasGlobal(p) && JustDropped(q) && q.a == p.a && Dropping(p))
            && (p.AllocForgets? ==> HasGlobal(p) && q.AllocLeaves? && q.a == p.a && Owning(p))
            && (q.AllocLeaves? ==> p.AllocForgets?)
            && (Dropping(q) && !JustDropped(q) ==>
                  if p.Idle? then m.StartDrop? && q.a == m.a && q.a in s.handles
                  else Dropping(p) && !JustDropped(p) && q.a == p.a)
  {
  }

  lemma RememberedFirst(deleted: seq<nat>, x: nat)
    ensures Remembered(deleted, x) != [] && Remembered(deleted, x)[0] == x
    ensures forall y :: y in Remembered(deleted, x) ==> y == x || y in deleted
  {
  }

  lemma ForgottenShorter(deleted: seq<nat>, x: nat)
    ensures |Forgotten(deleted, x)| <= |deleted|
  {
  }

  lemma ListStep(s: State, t: nat, m: Move)
    requires GlobalAgrees(s) && OwnersAgree(s) && ListAgrees(s) && Can(s, t, m)
    ensures ListAgrees(Step(s, t, m))
  {
    hide NextPc, Can, HasSwitch, HasLists, Remembered, Forgotten, Distinct;
    ListChanges(s, t, m);
    var e := Step(s, t, m);
    assert At(e, t) == NextPc(s, t, m);
    assert forall u: nat :: u != t ==> At(e, u) == At(s, u);
    match At(s, t)
    case DropCleans(a, _) =>
      RememberedKeepsDistinct(s.deleted, a);
      RememberedFirst(s.deleted, a);
    case AllocForgets(a, _) =>
      ForgottenExactly(s.deleted, a);
      ForgottenShorter(s.deleted, a);
    case _ =>
  }

  lemma IndexRemembered(deleted: seq<nat>, x: nat, a: nat, h: nat)
    requires Listed(deleted, a, h) && h + 1 < MAX_TO_KEEP && a != x
    ensures Listed(Remembered(deleted, x), a, h + 1)
  {
    var k := IndexOf(deleted, a);
    assert Remembered(deleted, x)[k + 1] == a;
  }

  lemma IndexForgotten(deleted: seq<nat>, x: nat, a: nat, h: nat)
    requires Listed(deleted, a, h) && a != x
    ensures Listed(Forgotten(deleted, x), a, h)
  {
    var k, i := IndexOf(deleted, a), IndexOf(deleted, x);
    var f := Forgotten(deleted, x);
    if i < |deleted| {
      assert f[if k < i then k else k - 1] == a;
    }
  }

  lemma RecentStep(s: State, t: nat, m: Move)
    requires Inv(s) && Can(s, t, m)
    ensures Recent(Step(s, t, m))
  {
    var e := Step(s, t, m);
    forall h | 0 <= h < |e.drops| && h < MAX_TO_KEEP
      ensures e.drops[h] in e.live || Listed(e.deleted, e.drops[h], h)
    {
      var b := e.drops[h];
      match At(s, t)
      case DropCleans(a, _) =>
        if h > 0 && b != a && b !in s.live {
          IndexRemembered(s.deleted, a, b, h - 1);
        }
      case AllocForgets(a, _) =>
        if b != a && b !in s.live {
          IndexForgotten(s.deleted, a, b, h);
        }
      case _ =>
    }
  }

  lemma InvStep(s: State, t: nat, m: Move)
    requires Inv(s) && Can(s, t, m)
    ensures Inv(Step(s, t, m))
  {
    hide Step, Can;
    LocksStep(s, t, m);
    OwnersStep(s, t, m);
    CancelsStep(s, t, m);
    ListStep(s, t, m);
    RecentStep(s, t, m);
  }

  lemma {:induction false} InvRun(s: State, moves: seq<(nat, Move)>, e: State)
    requires Inv(s) && Run(s, moves, e)
    ensures Inv(e)
    decreases |moves|
  {
    hide Inv, Can, Step;
    if moves != [] {
      InvStep(s, moves[0].0, moves[0].1);
      InvRun(Step(s, moves[0].0, moves[0].1), moves[1..], e);
    }
  }

  /** In every interleaving, a statement exists from a cancel's successful try_lock on its switch to the unlock,
      and the locks the cancel relies on are its own. */
  lemma CancelledStaysAlive(moves: seq<(nat, Move)>, e: State, t: nat)
    requires Run(START, moves, e) && Cancelling(At(e, t))
    ensures At(e, t).a in e.live
    ensures At(e, t).a in e.switches && e.switches[At(e, t).a] == t
  {
    StartInv();
    InvRun(START, moves, e);
  }

  /** A cancel that finds the address in the list touches nothing of the statement; one that does not find it
      has a statement that exists, however often its address has been reused. */
  lemma CancelDecides(moves: seq<(nat, Move)>, e: State, t: nat)
    requires Run(START, moves, e) && At(e, t).CancelChecks? && MayCancel(e, At(e, t).a)
    ensures At(e, t).a !in e.deleted ==> At(e, t).a in e.live
    ensures At(e, t).a in e.handles ==> At(e, t).a !in e.deleted
  {
    StartInv();
    InvRun(START, moves, e);
    if At(e, t).a !in e.deleted {
      UnlistedIsLive(e, At(e, t).a);
    }
  }

  // ---------- Waiting ----------

  /** The owner of the lock that `t` needs next. */
  function Holder(s: State, t: nat): Option<nat> {
    match At(s, t)
    case CancelWaitsGlobal(_) => s.global
    case DropWaitsGlobal(_) => s.global
    case AllocWaitsGlobal(_, _) => s.global
    case DropWaitsSwitch(a) => if a in s.switches then Some(s.switches[a]) else None
    case DropWaitsLists(a) => if Home(s, a) in s.lists then Some(s.lists[Home(s, a)]) else None
    case AllocWaitsLists(_, c) => if c in s.lists then Some(s.lists[c]) else None
    case _ => None
  }

  /** `t` cannot go on before `u` has given back a lock. */
  predicate WaitsFor(s: State, t: nat, u: nat) { Holder(s, t) == Some(u) }

  /** A busy thread can go on exactly when it waits for nobody, and never waits for itself. */
  lemma WaitsOrGoes(s: State, t: nat)
    requires Inv(s) && !At(s, t).Idle? && (At(s, t).CancelChecks? ==> MayCancel(s, At(s, t).a))
    ensures Can(s, t, Continue) <==> Holder(s, t) == None
    ensures !WaitsFor(s, t, t)
  {
  }

  /** A cancel that anyone waits for waits for nobody itself: it is in no circle of waiting threads, so a cancel
      and a drop in particular never wait for each other. */
  lemma CancelNeverInCircle(s: State, t: nat, u: nat, v: nat)
    requires Inv(s) && WaitsFor(s, t, u)
    requires Cancelling(At(s, u)) || At(s, u).CancelWaitsGlobal? || At(s, u).CancelChecks?
    ensures !WaitsFor(s, u, v)
  {
  }

  /** A drop that has the global lock and an allocation that has the lists lock of the same connection, each
      waiting for the lock of the other. */
  predicate EmbraceOf(s: State, t: nat, u: nat) {
    At(s, t).DropWaitsLists? && At(s, u).AllocWaitsGlobal? && Home(s, At(s, t).a) == At(s, u).c
  }

  ghost predicate Embrace(s: State) { exists t: nat, u: nat :: EmbraceOf(s, t, u) }

  predicate Busy(s: State, t: nat) { !At(s, t).Idle? && Can(s, t, Continue) }

  /** The two wait for each other, and no step of any thread ever ends that. */
  lemma EmbraceForever(s: State, t: nat, u: nat, v: nat, m: Move)
    requires Inv(s) && EmbraceOf(s, t, u)
    ensures WaitsFor(s, t, u) && WaitsFor(s, u, t)
    ensures Can(s, v, m) ==> EmbraceOf(Step(s, v, m), t, u)
  {
    if Can(s, v, m) {
      assert v != t && v != u;
      var e := Step(s, v, m);
      assert At(e, t) == At(s, t) && At(e, u) == At(s, u);
      if At(s, v).Idle? && m.StartAlloc? {
        assert At(s, t).a in s.live && m.a !in s.live;
      }
    }
  }

  lemma {:induction false} EmbraceForEverAfter(s: State, t: nat, u: nat, moves: seq<(nat, Move)>, e: State)
    requires Inv(s) && EmbraceOf(s, t, u) && Run(s, moves, e)
    ensures EmbraceOf(e, t, u) && !Can(e, t, Continue) && !Can(e, u, Continue)
    decreases |moves|
  {
    hide Inv, Can, Step, EmbraceOf, WaitsFor;
    if moves == [] {
      EmbraceHolds(s, t, u);
    } else {
      EmbraceForever(s, t, u, moves[0].0, moves[0].1);
      InvStep(s, moves[0].0, moves[0].1);
      EmbraceForEverAfter(Step(s, moves[0].0, moves[0].1), t, u, moves[1..], e);
    }
  }

  lemma EmbraceHolds(s: State, t: nat, u: nat)
    requires Inv(s) && EmbraceOf(s, t, u)
    ensures !Can(s, t, Continue) && !Can(s, u, Continue)
  {
  }

  ghost predicate CancelsAllowed(s: State) { forall t: nat :: At(s, t).CancelChecks? ==> MayCancel(s, At(s, t).a) }

  /** Who can own the lock a thread waits for. */
  lemma HolderOwns(s: State, t: nat, u: nat)
    requires Inv(s) && WaitsFor(s, t, u)
    ensures match At(s, t)
            case DropWaitsSwitch(a) => Cancelling(At(s, u))
            case DropWaitsLists(a) => At(s, u).AllocLeaves? || EmbraceOf(s, t, u)
            case AllocWaitsLists(_, c) => HasLists(At(s, u))
            case _ => HasGlobal(At(s, u))
  {
  }

  predicate Awaiting(p: Pc) { p.CancelWaitsGlobal? || p.DropWaitsGlobal? || p.AllocWaitsGlobal? }

  /** Follows the locks from a waiting thread to one that can go on. */
  lemma Unblocked(s: State, t: nat) returns (u: nat)
    requires Inv(s) && CancelsAllowed(s) && !Embrace(s) && !At(s, t).Idle?
    ensures Busy(s, u)
    decreases if At(s, t).AllocWaitsLists? then 3
              else if Awaiting(At(s, t)) then 2 else if Holder(s, t).Some? then 1 else 0
  {
    hide Inv, Can, Home;
    WaitsOrGoes(s, t);
    if Holder(s, t) == None {
      return t;
    }
    HolderOwns(s, t, Holder(s, t).value);
    assert !EmbraceOf(s, t, Holder(s, t).value);
    u := Unblocked(s, Holder(s, t).value);
  }

  /** As long as no drop and allocation hold each other up, some thread that has not finished can go on. */
  lemma Progress(s: State, t: nat)
    requires Inv(s) && CancelsAllowed(s) && !Embrace(s) && !At(s, t).Idle?
    ensures exists u: nat :: Busy(s, u)
  {
    var u := Unblocked(s, t);
  }

  lemma {:induction false} RunThen(s: State, moves: seq<(nat, Move)>, e: State, t: nat, m: Move)
    requires Run(s, moves, e) && Can(e, t, m)
    ensures Run(s, moves + [(t, m)], Step(e, t, m))
    decreases |moves|
  {
    hide Can, Step;
    if moves == [] {
      assert Run(Step(e, t, m), [], Step(e, t, m));
      assert (moves + [(t, m)])[1..] == [];
    } else {
      RunThen(Step(s, moves[0].0, moves[0].1), moves[1..], e, t, m);
      assert (moves + [(t, m)])[1..] == moves[1..] + [(t, m)];
    }
  }

  ghost predicate Reachable(e: State) { exists moves :: Run(START, moves, e) }

  lemma ReachableStart()
    ensures Reachable(START)
  {
    assert Run(START, [], START);
  }

  lemma ReachableThen(e: State, t: nat, m: Move)
    requires Reachable(e) && Can(e, t, m)
    ensures Reachable(Step(e, t, m))
  {
    hide Run, Can, Step;
    var moves :| Run(START, moves, e);
    RunThen(START, moves, e, t, m);
  }

  /** With nobody else about, one thread creates statement 7 of connection 3. */
  lemma AllocatesSeven() returns (e: State)
    ensures Reachable(e)
    ensures e == State(map[1 := AllocForgets(7, 3)], Some(1), map[], map[3 := 1], map[7 := 3], {7}, {}, [], [])
  {
    hide Reachable;
    ReachableStart();
    ReachableThen(START, 1, StartAlloc(7, 3));
    e := Step(START, 1, StartAlloc(7, 3));
    assert e == State(map[1 := AllocWaitsLists(7, 3)], None, map[], map[], map[7 := 3], {7}, {}, [], []);
    ReachableThen(e, 1, Continue);
    e := Step(e, 1, Continue);
    ReachableThen(e, 1, Continue);
    e := Step(e, 1, Continue);
  }

  lemma HandsOutSeven() returns (e: State)
    ensures Reachable(e)
    ensures e == State(map[1 := Idle], None, map[], map[], map[7 := 3], {7}, {7}, [], [])
  {
    hide Reachable;
    e := AllocatesSeven();
    ReachableThen(e, 1, Continue);
    e := Step(e, 1, Continue);
    ReachableThen(e, 1, Continue);
    e := Step(e, 1, Continue);
  }

  lemma DropsSeven() returns (e: State)
    ensures Reachable(e)
    ensures e == State(map[1 := DropWaitsLists(7)], Some(1), map[7 := 1], map[], map[7 := 3], {7}, {}, [], [])
  {
    hide Reachable;
    e := HandsOutSeven();
    ReachableThen(e, 1, StartDrop(7));
    e := Step(e, 1, StartDrop(7));
    ReachableThen(e, 1, Continue);
    e := Step(e, 1, Continue);
    ReachableThen(e, 1, Continue);
    e := Step(e, 1, Continue);
  }

  /** The embrace can be reached: statement 7 of connection 3 is being dropped while another thread allocates
      statement 8 on the same connection. */
  lemma EmbraceReachable()
    ensures exists e :: Reachable(e) && EmbraceOf(e, 1, 2)
  {
    hide Reachable;
    var e := DropsSeven();
    ReachableThen(e, 2, StartAlloc(8, 3));
    e := Step(e, 2, StartAlloc(8, 3));
    ReachableThen(e, 2, Continue);
    e := Step(e, 2, Continue);
    assert EmbraceOf(e, 1, 2);
  }

  // ---------- What the application can do about it ----------

  /** A drop and an allocation on one connection are in progress together. */
  predicate OverlapOf(s: State, t: nat, u: nat) {
    Dropping(At(s, t)) && Allocating(At(s, u)) && Home(s, At(s, t).a) == At(s, u).c
  }

  ghost predicate Overlap(s: State) { exists t: nat, u: nat :: OverlapOf(s, t, u) }

  /** What can be seen before a call: no allocation on the connection is in progress when a statement of it is dropped,
      and no drop when one is allocated. */
  ghost predicate Apart(s: State, m: Move) {
    match m
    case StartDrop(a) => forall u: nat :: Allocating(At(s, u)) ==> At(s, u).c != Home(s, a)
    case StartAlloc(_, c) => forall t: nat :: Dropping(At(s, t)) ==> Home(s, At(s, t).a) != c
    case _ => true
  }

  /** A run in which every call keeps to that. */
  ghost predicate KeptApart(s: State, moves: seq<(nat, Move)>, e: State)
    decreases |moves|
  {
    if moves == [] then s == e
    else
      && Can(s, moves[0].0, moves[0].1)
      && (At(s, moves[0].0).Idle? ==> Apart(s, moves[0].1))
      && KeptApart(Step(s, moves[0].0, moves[0].1), moves[1..], e)
  }

  /** How a thread comes to drop or to allocate. */
  lemma Begins(s: State, t: nat, m: Move)
    requires Can(s, t, m)
    ensures var p, q := At(s, t), NextPc(s, t, m);
            && (Dropping(q) ==> if p.Idle? then m == StartDrop(q.a) else Dropping(p) && q.a == p.a)
            && (Allocating(q) ==> if p.Idle? then m == StartAlloc(q.a, q.c) else Allocating(p) && q.c == p.c)
            && (p.Idle? && m.StartAlloc? ==> m.a !in s.live)
  {
  }

  lemma ApartStep(s: State, t: nat, m: Move)
    requires OwnersAgree(s) && !Overlap(s) && Can(s, t, m) && (At(s, t).Idle? ==> Apart(s, m))
    ensures !Overlap(Step(s, t, m))
  {
    hide NextPc, Can, HasGlobal, HasSwitch, HasLists, Dropping, Allocating;
    Begins(s, t, m);
    var e := Step(s, t, m);
    assert At(e, t) == NextPc(s, t, m);
    forall x: nat, y: nat
      ensures !OverlapOf(e, x, y)
    {
      assert x != t ==> At(e, x) == At(s, x);
      assert y != t ==> At(e, y) == At(s, y);
      assert !OverlapOf(s, x, y);
      DropperLives(s, x);
      DropperLives(s, t);
      NotBoth(NextPc(s, t, m));
    }
  }

  lemma DropperLives(s: State, t: nat)
    requires OwnersAgree(s)
    ensures Dropping(At(s, t)) ==> At(s, t).a in s.live
  {
  }

  lemma NotBoth(p: Pc)
    ensures !(Dropping(p) && Allocating(p))
  {
  }

  lemma {:induction false} KeptApartRuns(s: State, moves: seq<(nat, Move)>, e: State)
    requires Inv(s) && !Overlap(s) && KeptApart(s, moves, e)
    ensures Run(s, moves, e) && Inv(e) && !Overlap(e)
    decreases |moves|
  {
    hide Inv, Can, Step, Overlap, Apart;
    if moves != [] {
      OwnersOf(s);
      InvStep(s, moves[0].0, moves[0].1);
      ApartStep(s, moves[0].0, moves[0].1);
      KeptApartRuns(Step(s, moves[0].0, moves[0].1), moves[1..], e);
    }
  }

  lemma OwnersOf(s: State)
    requires Inv(s)
    ensures OwnersAgree(s)
  {
  }

  lemma EmbraceOverlaps(s: State, t: nat, u: nat)
    requires EmbraceOf(s, t, u)
    ensures OverlapOf(s, t, u)
  {
  }

  lemma StartApart()
    ensures Inv(START) && !Overlap(START)
  {
    StartInv();
  }

  /** If the application keeps drops and allocations of one connection apart, which it can see before each call, then at
      every moment some thread that has not finished can go on. */
  lemma ApartNeverStops(moves: seq<(nat, Move)>, e: State, t: nat)
    requires KeptApart(START, moves, e) && CancelsAllowed(e) && !At(e, t).Idle?
    ensures exists u: nat :: Busy(e, u)
  {
    hide Inv, Run, KeptApart, Busy, OverlapOf, EmbraceOf;
    StartApart();
    KeptApartRuns(START, moves, e);
    forall x: nat, y: nat
      ensures !EmbraceOf(e, x, y)
    {
      assert !OverlapOf(e, x, y);
      if EmbraceOf(e, x, y) {
        EmbraceOverlaps(e, x, y);
      }
    }
    Progress(e, t);
  }

  /** The locks that a drop of `a` and an allocation on `c` begin with are free. */
  predicate LocksFree(s: State, a: nat, c: nat) { s.global.None? && a !in s.switches && c !in s.lists }

  /** If it does not, and the locks are free, the two can end up waiting for each other for ever. */
  lemma OverlapEmbraces(s: State, t: nat, u: nat)
    requires Inv(s) && At(s, t).DropWaitsGlobal? && At(s, u).AllocWaitsLists? && OverlapOf(s, t, u)
    requires LocksFree(s, At(s, t).a, At(s, u).c)
    ensures exists moves, e :: Run(s, moves, e) && EmbraceOf(e, t, u)
  {
    hide Inv, Run;
    var none: seq<(nat, Move)>, on := [], (t, Continue);
    var s1 := Step(s, t, Continue);
    var s2 := Step(s1, t, Continue);
    var s3 := Step(s2, u, Continue);
    assert EmbraceOf(s3, t, u);
    RunNone(s);
    RunThen(s, none, s, t, Continue);
    RunThen(s, none + [on], s1, t, Continue);
    RunThen(s, none + [on] + [on], s2, u, Continue);
  }

  lemma {:induction false} RunFirst(s: State, t: nat, m: Move, moves: seq<(nat, Move)>, e: State)
    requires Can(s, t, m) && Run(Step(s, t, m), moves, e)
    ensures Run(s, [(t, m)] + moves, e)
  {
    hide Can, Step;
    assert ([(t, m)] + moves)[1..] == moves;
  }

  /** A drop that is begun while an allocation on its connection is about to take the lists lock. */
  lemma CarelessDropEmbraces(s: State, t: nat, u: nat, a: nat)
    requires Inv(s) && At(s, t).Idle? && a in s.handles && At(s, u).AllocWaitsLists? && At(s, u).c == Home(s, a)
    requires LocksFree(s, a, Home(s, a))
    ensures !Apart(s, StartDrop(a))
    ensures exists moves, e :: Run(s, [(t, StartDrop(a))] + moves, e) && EmbraceOf(e, t, u)
  {
    hide Inv, Run;
    var next := Step(s, t, StartDrop(a));
    InvStep(s, t, StartDrop(a));
    assert At(next, u) == At(s, u);
    OverlapEmbraces(next, t, u);
    var moves, e :| Run(next, moves, e) && EmbraceOf(e, t, u);
    RunFirst(s, t, StartDrop(a), moves, e);
  }

  /** An allocation that is begun while a drop on its connection is about to take the driver-wide lock. */
  lemma CarelessAllocEmbraces(s: State, t: nat, u: nat, b: nat)
    requires Inv(s) && At(s, u).Idle? && b !in s.live && At(s, t).DropWaitsGlobal?
    requires LocksFree(s, At(s, t).a, Home(s, At(s, t).a))
    ensures !Apart(s, StartAlloc(b, Home(s, At(s, t).a)))
    ensures exists moves, e :: Run(s, [(u, StartAlloc(b, Home(s, At(s, t).a)))] + moves, e) && EmbraceOf(e, t, u)
  {
    hide Run, Recent, ListAgrees, CancelsSafe;
    var m := StartAlloc(b, Home(s, At(s, t).a));
    var next := Step(s, u, m);
    InvStep(s, u, m);
    DropperLives(s, t);
    assert At(next, t) == At(s, t) && Home(next, At(s, t).a) == Home(s, At(s, t).a);
    OverlapEmbraces(next, t, u);
    var moves, e :| Run(next, moves, e) && EmbraceOf(e, t, u);
    RunFirst(s, u, m, moves, e);
  }

  lemma RunNone(s: State)
    ensures Run(s, [], s)
  {
  }
}
