/** What every step of the scheduler keeps. */
module SchedInvariant {
  import opened Seqs
  import opened SchedModel

  datatype Event =
    | Tick
    | KeyboardWait(on: bool)
    | ExitCall
    | ForkCall
    | SleepCall(ticks: Int32)
    | SemInitCall(sem: SemId, value: int)
    | SemDestroyCall
    | SemWaitCall(sem: SemId)
    | SemPostCall(sem: SemId)
    | OtherCall

  // ---------------------------------------------------------------- the invariant

  /** Process i sits exactly where its state says. */
  ghost predicate At(s: Sys, i: nat)
    requires i < |s.procs|
  {
    var st := s.procs[i].state;
    && (i in s.runnable <==> i != s.current && st == Runnable)
    && (i in s.blocked <==> i != s.current && st == Blocked)
    && (i in s.free <==> i != s.current && st == Dead)
    && (i in s.waiting <==> i != s.current && st == SemBlocked)
    && (st == Running ==> i == s.current)
  }

  /** Each pcb[1..9] is current or on exactly one list, the one its state names. */
  ghost predicate Placed(s: Sys) {
    && s.Sized()
    && NoDup(s.runnable) && NoDup(s.blocked) && NoDup(s.free) && NoDup(s.waiting)
    && (forall i :: 0 < i < MAX_PCB_NUM ==> At(s, i))
    && (s.current != IDLE ==> s.procs[IDLE].state == Runnable)
  }

  ghost predicate OnCpu(s: Sys)
    requires s.Sized()
  {
    s.procs[s.current].state == Running && 1 <= s.procs[s.current].timeCount <= QUANTUM
  }

  /** p_num counts idle and the live processes; a live process has its index as pid. */
  ghost predicate Books(s: Sys) {
    && |s.procs| == MAX_PCB_NUM
    && s.pnum + |s.free| == MAX_PCB_NUM
    && forall i :: 0 <= i < MAX_PCB_NUM && s.procs[i].state != Dead ==> s.procs[i].pid == i
  }

  function Deficit(v: int): nat {
    if v < 0 then -v else 0
  }

  /** Sum over all semaphores of max(0, -value). */
  ghost function Debt(sems: map<SemId, int>): nat {
    if sems == map[] then 0
    else
      var k :| k in sems;
      Deficit(sems[k]) + Debt(sems - {k})
  }

  ghost predicate Inv(s: Sys) {
    && Placed(s) && OnCpu(s) && Books(s)
    && Debt(s.sems) == |s.waiting|
  }

  /** What the handlers themselves rely on. */
  ghost predicate Ready(s: Sys) {
    s.Sized() && s.procs[s.current].state == Running && s.current !in s.blocked
  }

  lemma InvReady(s: Sys)
    requires Inv(s)
    ensures Ready(s)
  {
    if s.current != IDLE {
      assert At(s, s.current);
    }
  }

  // ---------------------------------------------------------------- steps

  /** What a user program must respect when it makes a system call. */
  ghost predicate Permitted(s: Sys, e: Event)
    requires s.Sized()
  {
    match e
    case SemInitCall(a, v) => s.waiting == [] && 0 <= v
    case SemWaitCall(a) => a in s.sems && (s.sems[a] <= 0 ==> s.procs[s.current].psem.Some? && s.procs[s.current].psem.value in s.sems)
    case SemPostCall(a) => a in s.sems
    case _ => true
  }

  /** Idle makes no system calls; none are made while the kernel waits for the keyboard. */
  ghost predicate Enabled(s: Sys, e: Event)
    requires s.Sized()
  {
    match e
    case Tick => true
    case KeyboardWait(on) => s.current != IDLE && s.nesting != on
    case _ => s.current != IDLE && !s.nesting && Permitted(s, e)
  }

  /** None when the kernel halts. */
  function Step(s: Sys, e: Event): Option<Sys>
    requires Ready(s) && Enabled(s, e)
  {
    match e
    case Tick => Some(Timer(s))
    case KeyboardWait(on) => Some(s.(nesting := on))
    case ExitCall => Some(Exit(s))
    case ForkCall => Fork(s)
    case SleepCall(n) => Some(Sleep(s, n))
    case SemInitCall(a, v) => Some(SemInit(s, a, v))
    case SemDestroyCall => Some(SemDestroy(s))
    case SemWaitCall(a) => Some(SemWait(s, a))
    case SemPostCall(a) => SemPost(s, a)
    case OtherCall => Some(s)
  }

  // ---------------------------------------------------------------- schedule

  lemma Pushed(q: seq<nat>, c: nat)
    requires NoDup(q) && c !in q
    ensures NoDup(q + [c]) && forall i :: i in q + [c] <==> i in q || i == c
  {
  }

  lemma ParkPlaced(s: Sys)
    requires Placed(s) && s.MayLeave() && s.current != IDLE
    ensures var t := Park(s).(current := IDLE); forall i :: 0 < i < MAX_PCB_NUM ==> At(t, i)
    ensures var t := Park(s); NoDup(t.runnable) && NoDup(t.blocked) && NoDup(t.free) && NoDup(t.waiting)
  {
    var c := s.current;
    var st := s.procs[c].state;
    assert At(s, c);
    Pushed(s.Queue(if st == Running then Runnable else st), c);
    var t := Park(s).(current := IDLE);
    forall i | 0 < i < MAX_PCB_NUM
      ensures At(t, i)
    {
      assert At(s, i);
    }
  }

  lemma DispatchPlaced(u: Sys)
    requires Placed(u) && u.current == IDLE && u.runnable != [] && u.procs[IDLE].state == Runnable
    ensures Placed(Dispatch(u)) && OnCpu(Dispatch(u))
  {
    var t := Dispatch(u);
    var p := u.runnable[0];
    assert u.runnable == [p] + t.runnable;
    forall i | 0 < i < MAX_PCB_NUM
      ensures At(t, i)
    {
      assert At(u, i);
    }
  }

  lemma SchedulePlaced(s: Sys)
    requires Placed(s) && s.MayLeave()
    ensures Placed(Schedule(s)) && OnCpu(Schedule(s))
  {
    var t := Schedule(s);
    if s.current == IDLE {
      forall i | 0 < i < MAX_PCB_NUM
        ensures At(Park(s), i)
      {
        assert At(s, i);
      }
    } else {
      ParkPlaced(s);
    }
    if s.runnable != [] {
      DispatchPlaced(Park(s).(current := IDLE));
    } else {
      forall i | 0 < i < MAX_PCB_NUM
        ensures At(t, i)
      {
        assert At(s, i) && At(Park(s).(current := IDLE), i);
      }
    }
  }

  // ---------------------------------------------------------------- the other steps

  lemma {:induction false} SiftNoDup(procs: seq<Proc>, ids: seq<nat>, due: bool)
    requires NoDup(ids)
    ensures NoDup(Sift(procs, ids, due))
  {
    if ids != [] {
      SiftNoDup(procs, ids[..|ids| - 1], due);
    }
  }

  lemma {:induction false} WakeRest(s: Sys, k: nat)
    requires s.Sized() && NoDup(s.blocked) && k <= |s.blocked| && WakeupPrefix(s, k).Sized()
    ensures WakeEach(WakeupPrefix(s, k), s.blocked[k..]) == WakeupPrefix(s, |s.blocked|)
    decreases |s.blocked| - k
  {
    hide WakeupPrefix, WakeupOne, NoDup;
    if k < |s.blocked| {
      WakeupTurn(s, k);
      WakeupOneSized(WakeupPrefix(s, k), s.blocked[k]);
      WakeRest(s, k + 1);
      assert s.blocked[k..][1..] == s.blocked[k + 1..];
    }
  }

  lemma WakeupAll(s: Sys)
    requires s.Sized() && NoDup(s.blocked)
    ensures WakeupPrefix(s, 0) == s && TryToWakeup(s) == WakeupPrefix(s, |s.blocked|)
  {
    WakeupStart(s);
    WakeRest(s, 0);
    assert s.blocked[0..] == s.blocked;
  }

  /** try_to_wakeup, which changes the list while it goes along it, is a pure filter of the blocked list. */
  lemma WakeupIsFilter(s: Sys)
    requires s.Sized() && NoDup(s.blocked)
    ensures var t := TryToWakeup(s);
      && t == s.(procs := Slept(s.procs, s.blocked),
                 blocked := Sift(s.procs, s.blocked, false),
                 runnable := s.runnable + Sift(s.procs, s.blocked, true))
  {
    hide WakeEach, TryToWakeup, Sift, Slept, NoDup, Sys.Sized;
    WakeupAll(s);
    assert s.blocked[..|s.blocked|] == s.blocked && s.blocked[|s.blocked|..] == [];
    assert Sift(s.procs, s.blocked, false) + [] == Sift(s.procs, s.blocked, false);
  }

  lemma Joined(a: seq<nat>, b: seq<nat>)
    requires NoDup(a) && NoDup(b) && Apart(a, b)
    ensures NoDup(a + b) && forall i :: i in a + b <==> i in a || i in b
  {
    forall i, j | 0 <= i < j < |a + b|
      ensures (a + b)[i] != (a + b)[j]
    {
      assert i < |a| ==> a[i] !in b;
    }
  }

  lemma WakeupPlaced(s: Sys)
    requires Placed(s)
    ensures Placed(TryToWakeup(s))
  {
    WakeupIsFilter(s);
    var t := TryToWakeup(s);
    var woken := Sift(s.procs, s.blocked, true);
    SiftNoDup(s.procs, s.blocked, true);
    SiftNoDup(s.procs, s.blocked, false);
    forall i | i in s.runnable
      ensures i !in woken
    {
      assert At(s, i);
    }
    Joined(s.runnable, woken);
    forall i | 0 < i < MAX_PCB_NUM
      ensures At(t, i)
    {
      assert At(s, i);
    }
    assert s.current != IDLE ==> IDLE !in s.blocked;
  }

  lemma TimerPlaced(s: Sys)
    requires Placed(s) && OnCpu(s)
    ensures s.current !in s.blocked && Placed(Timer(s)) && OnCpu(Timer(s))
  {
    if s.current != IDLE {
      assert At(s, s.current);
    }
    if !s.nesting {
      var u := Spend(s);
      forall i | 0 < i < MAX_PCB_NUM
        ensures At(u, i)
      {
        assert At(s, i);
      }
      WakeupPlaced(u);
      if TryToWakeup(u).procs[u.current].timeCount == 0 {
        SchedulePlaced(TryToWakeup(u));
      }
    }
  }

  lemma LeavePlaced(s: Sys, st: PState)
    requires Placed(s) && s.current != IDLE && st != Runnable
    ensures Placed(Leave(s, st)) && OnCpu(Leave(s, st))
  {
    var t := s.WithProc(s.current, s.procs[s.current].(state := st));
    forall i | 0 < i < MAX_PCB_NUM
      ensures At(t, i)
    {
      assert At(s, i);
    }
    SchedulePlaced(t);
  }

  lemma ForkPlaced(s: Sys)
    requires Placed(s) && OnCpu(s) && Fork(s).Some?
    ensures Placed(Fork(s).value) && OnCpu(Fork(s).value)
  {
    hide Remove, IndexOf;
    var t := Fork(s).value;
    var c := s.pnum;
    assert At(s, c);
    RemoveNoDup<nat>(s.free, c);
    Pushed(s.runnable, c);
    forall i | 0 < i < MAX_PCB_NUM
      ensures At(t, i)
    {
      assert At(s, i);
    }
    assert forall j :: 0 <= j < |t.free| ==> t.free[j] in t.free;
  }

  lemma PostPlaced(s: Sys, sem: SemId)
    requires Placed(s) && OnCpu(s) && sem in s.sems && SemPost(s, sem).Some?
    ensures Placed(SemPost(s, sem).value) && OnCpu(SemPost(s, sem).value)
  {
    var t := SemPost(s, sem).value;
    if s.sems[sem] < 0 {
      var p := s.waiting[0];
      assert s.waiting == [p] + t.waiting;
      assert At(s, p);
      Pushed(s.runnable, p);
      forall i | 0 < i < MAX_PCB_NUM
        ensures At(t, i)
      {
        assert At(s, i);
      }
    } else {
      forall i | 0 < i < MAX_PCB_NUM
        ensures At(t, i)
      {
        assert At(s, i);
      }
    }
  }

  /** Changing anything but state and placement of processes. */
  lemma SamePlaced(s: Sys, t: Sys)
    requires Placed(s) && t.Sized() && t.current == s.current
    requires t.runnable == s.runnable && t.blocked == s.blocked && t.free == s.free && t.waiting == s.waiting
    requires forall i :: 0 <= i < MAX_PCB_NUM ==> t.procs[i].state == s.procs[i].state
    ensures Placed(t)
  {
    forall i | 0 < i < MAX_PCB_NUM
      ensures At(t, i)
    {
      assert At(s, i);
    }
  }

  // ---------------------------------------------------------------- what a dispatch leaves alone

  /** The same processes are alive, with the same pids, parents and semaphore pointers. */
  ghost predicate SameLife(s: Sys, t: Sys) {
    && |s.procs| == |t.procs|
    && forall i :: 0 <= i < |s.procs| ==>
      && t.procs[i].pid == s.procs[i].pid && t.procs[i].ppid == s.procs[i].ppid && t.procs[i].psem == s.procs[i].psem
      && (t.procs[i].state == Dead <==> s.procs[i].state == Dead)
  }

  ghost predicate SameGlobals(s: Sys, t: Sys) {
    t.pnum == s.pnum && t.sems == s.sems && t.nesting == s.nesting
  }

  /** The lists other than runnable after the current process has gone to its list in state st. */
  ghost predicate Left(s: Sys, t: Sys, st: PState) {
    && t.free == (if st == Dead then s.free + [s.current] else s.free)
    && t.waiting == (if st == SemBlocked then s.waiting + [s.current] else s.waiting)
    && t.blocked == (if st == Blocked then s.blocked + [s.current] else s.blocked)
  }

  lemma ParkLists(s: Sys)
    requires s.Sized() && s.MayLeave()
    ensures SameGlobals(s, Park(s)) && Left(s, Park(s), s.procs[s.current].state)
  {
  }

  lemma ScheduleLists(s: Sys)
    requires s.Sized() && s.MayLeave()
    ensures SameGlobals(s, Schedule(s)) && Left(s, Schedule(s), s.procs[s.current].state)
  {
    hide Park;
    ParkLists(s);
  }

  lemma ScheduleFrame(s: Sys)
    requires Placed(s) && s.MayLeave()
    ensures SameLife(s, Schedule(s))
  {
    if s.runnable != [] {
      assert At(s, s.runnable[0]);
    }
  }

  lemma WakeupFrame(s: Sys)
    requires Placed(s)
    ensures SameLife(s, TryToWakeup(s))
  {
    WakeupIsFilter(s);
    forall i | 0 <= i < MAX_PCB_NUM && i in s.blocked
      ensures s.procs[i].state != Dead
    {
      assert At(s, i);
    }
  }

  lemma SameLifeTrans(s: Sys, t: Sys, u: Sys)
    requires SameLife(s, t) && SameLife(t, u)
    ensures SameLife(s, u)
  {
  }

  /** The running process is not touched by a wake-up pass. */
  lemma WakeupStays(s: Sys)
    requires s.Sized() && s.procs[s.current].state == Running && s.current !in s.blocked
    ensures var t := TryToWakeup(s); t.MayLeave() && t.current == s.current && t.procs[t.current].state == Running
  {
  }

  lemma TimerFrame(s: Sys)
    requires Placed(s) && OnCpu(s)
    ensures s.current !in s.blocked && SameLife(s, Timer(s))
  {
    hide Schedule, TryToWakeup, Apart, NoDup;
    if s.current != IDLE {
      assert At(s, s.current);
    }
    if !s.nesting {
      var u := Spend(s);
      SamePlaced(s, u);
      WakeupFrame(u);
      WakeupPlaced(u);
      WakeupStays(u);
      var t := TryToWakeup(u);
      if t.procs[u.current].timeCount == 0 {
        ScheduleFrame(t);
        SameLifeTrans(u, t, Schedule(t));
      }
    }
  }

  lemma TimerLists(s: Sys)
    requires Ready(s)
    ensures SameGlobals(s, Timer(s)) && Timer(s).free == s.free && Timer(s).waiting == s.waiting
  {
    if !s.nesting {
      var t := TryToWakeup(Spend(s));
      if t.procs[t.current].timeCount == 0 {
        ScheduleLists(t);
      }
    }
  }

  lemma LeaveLists(s: Sys, st: PState)
    requires s.Sized() && s.current != IDLE && st != Runnable
    ensures SameGlobals(s, Leave(s, st)) && Left(s, Leave(s, st), st)
  {
    ScheduleLists(s.WithProc(s.current, s.procs[s.current].(state := st)));
  }

  lemma LeaveFrame(s: Sys, st: PState)
    requires Placed(s) && OnCpu(s) && s.current != IDLE && st != Runnable
    ensures SameLife(s.WithProc(s.current, s.procs[s.current].(state := st)), Leave(s, st))
  {
    var u := s.WithProc(s.current, s.procs[s.current].(state := st));
    forall i | 0 < i < MAX_PCB_NUM
      ensures At(u, i)
    {
      assert At(s, i);
    }
    ScheduleFrame(u);
  }

  // ---------------------------------------------------------------- semaphore debt

  lemma {:induction false} DebtWithout(m: map<SemId, int>, k: SemId)
    requires k in m
    ensures Debt(m) == Deficit(m[k]) + Debt(m - {k})
    decreases |m|
  {
    var j :| j in m && Debt(m) == Deficit(m[j]) + Debt(m - {j});
    if j != k {
      assert k in m - {j} && j in m - {k};
      DebtWithout(m - {j}, k);
      DebtWithout(m - {k}, j);
      assert m - {j} - {k} == m - {k} - {j};
    }
  }

  lemma DebtUpdate(m: map<SemId, int>, k: SemId, v: int)
    ensures Debt(m[k := v]) == Deficit(v) + Debt(m) - (if k in m then Deficit(m[k]) else 0)
  {
    DebtWithout(m[k := v], k);
    if k in m {
      DebtWithout(m, k);
      assert m[k := v] - {k} == m - {k};
    } else {
      assert m[k := v] - {k} == m;
    }
  }

  // ---------------------------------------------------------------- each step keeps the invariant

  lemma TickKeeps(s: Sys)
    requires Inv(s)
    ensures s.current !in s.blocked && Inv(Timer(s))
  {
    InvReady(s);
    TimerPlaced(s);
    TimerFrame(s);
    TimerLists(s);
  }

  lemma LeaveKeeps(u: Sys, st: PState)
    requires Placed(u) && OnCpu(u) && u.current != IDLE && st != Runnable
    requires forall i :: 0 <= i < MAX_PCB_NUM && u.procs[i].state != Dead ==> u.procs[i].pid == i
    requires u.pnum + |u.free| == MAX_PCB_NUM - if st == Dead then 1 else 0
    requires Debt(u.sems) == |u.waiting| + if st == SemBlocked then 1 else 0
    ensures Inv(Leave(u, st))
  {
    LeavePlaced(u, st);
    LeaveFrame(u, st);
    LeaveLists(u, st);
    Settled(u.WithProc(u.current, u.procs[u.current].(state := st)), Leave(u, st));
  }

  lemma Settled(u: Sys, t: Sys)
    requires Placed(t) && OnCpu(t) && SameLife(u, t) && SameGlobals(u, t)
    requires forall i :: 0 <= i < MAX_PCB_NUM && u.procs[i].state != Dead ==> u.procs[i].pid == i
    requires u.pnum + |t.free| == MAX_PCB_NUM && Debt(u.sems) == |t.waiting|
    ensures Inv(t)
  {
  }

  lemma ExitKeeps(s: Sys)
    requires Inv(s) && s.current != IDLE
    ensures Inv(Exit(s))
  {
    hide Leave, At;
    var u := s.(pnum := s.pnum - 1);
    SamePlaced(s, u);
    LeaveKeeps(u, Dead);
  }

  lemma SleepKeeps(s: Sys, n: Int32)
    requires Inv(s) && s.current != IDLE
    ensures Inv(Sleep(s, n))
  {
    var u := s.WithProc(s.current, s.procs[s.current].(sleepTime := n));
    SamePlaced(s, u);
    LeaveKeeps(u, Blocked);
  }

  lemma ForkKeeps(s: Sys)
    requires Inv(s) && Fork(s).Some?
    ensures Inv(Fork(s).value)
  {
    ForkPlaced(s);
    RemoveNoDup(s.free, s.pnum);
  }

  lemma SemInitKeeps(s: Sys, a: SemId, v: int)
    requires Inv(s) && s.waiting == [] && 0 <= v
    ensures Inv(SemInit(s, a, v))
  {
    SamePlaced(s, SemInit(s, a, v));
    DebtUpdate(s.sems, a, v);
    if a in s.sems {
      DebtWithout(s.sems, a);
    }
  }

  lemma SemWaitKeeps(s: Sys, a: SemId)
    requires Inv(s) && s.current != IDLE && a in s.sems
    ensures Inv(SemWait(s, a))
  {
    var u := s.(sems := s.sems[a := s.sems[a] - 1]);
    SamePlaced(s, u);
    DebtUpdate(s.sems, a, s.sems[a] - 1);
    if u.sems[a] < 0 {
      LeaveKeeps(u, SemBlocked);
    }
  }

  lemma SemPostKeeps(s: Sys, a: SemId)
    requires Inv(s) && a in s.sems
    ensures SemPost(s, a).Some? && Inv(SemPost(s, a).value)
  {
    DebtWithout(s.sems, a);
    DebtUpdate(s.sems, a, s.sems[a] + 1);
    PostPlaced(s, a);
    if s.sems[a] < 0 {
      assert At(s, s.waiting[0]);
    }
  }

  lemma StepKeeps(s: Sys, e: Event)
    requires Inv(s) && Ready(s) && Enabled(s, e) && Step(s, e).Some?
    ensures Inv(Step(s, e).value)
  {
    match e
    case Tick => TickKeeps(s);
    case ExitCall => ExitKeeps(s);
    case ForkCall => ForkKeeps(s);
    case SleepCall(n) => SleepKeeps(s, n);
    case SemInitCall(a, v) => SemInitKeeps(s, a, v);
    case SemDestroyCall => SamePlaced(s, SemDestroy(s));
    case SemWaitCall(a) => SemWaitKeeps(s, a);
    case SemPostCall(a) => SemPostKeeps(s, a);
    case KeyboardWait(on) => SamePlaced(s, s.(nesting := on));
    case OtherCall =>
  }

  // ---------------------------------------------------------------- the initial state

  lemma InitialPlaced()
    ensures var s := Initial(); Inv(s) && s.pnum == 1 && s.free == Upto(1, MAX_PCB_NUM)
  {
    var s := Initial();
    forall i | 0 < i < MAX_PCB_NUM
      ensures At(s, i)
    {
      assert s.free[i - 1] == i;
    }
  }

  lemma NoDupAppend(xs: seq<nat>, x: nat)
    requires NoDup(xs) && x !in xs
    ensures NoDup(xs + [x])
  {
  }

  /** Taking a PCB off the free list makes it one more runnable process. */
  lemma PrepareKeeps(s: Sys)
    requires Inv(s) && Prepare(s).Some?
    ensures Inv(Prepare(s).value)
  {
    hide Remove, NoDup, Debt;
    var t := Prepare(s).value;
    RemoveNoDup<nat>(s.free, s.pnum);
    assert At(s, s.pnum);
    forall i | 0 < i < MAX_PCB_NUM
      ensures At(t, i)
    {
      assert At(s, i);
    }
    NoDupAppend(s.runnable, s.pnum);
    forall k | 0 <= k < |t.free|
      ensures 0 < t.free[k] < MAX_PCB_NUM
    {
      assert t.free[k] in t.free;
    }
  }

  lemma BootKeeps()
    ensures Placed(Initial()) && OnCpu(Initial())
    ensures Prepare(Initial()).Some? && Inv(Prepare(Initial()).value)
  {
    hide At, NoDup, Debt, Remove;
    InitialPlaced();
    assert Upto(1, MAX_PCB_NUM)[0] == 1;
    PrepareKeeps(Initial());
  }
}
