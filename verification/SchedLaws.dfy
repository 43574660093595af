/** Who has the CPU for how long, in what order processes are served, and what stays with a process. */
module SchedLaws {
  import opened Seqs
  import opened SchedModel
  import opened SchedInvariant
  import opened SchedRuns
  import opened SchedTheorems

  // ---------------------------------------------------------------- the CPU changes hands

  /** A sleeper whose time is up at the next real tick. */
  ghost predicate Wakens(s: Sys, i: int) {
    i in s.blocked && 0 <= i < |s.procs| && s.procs[i].sleepTime == 1
  }

  /** Somebody is there to take the CPU at the next real tick. */
  ghost predicate Somebody(s: Sys) {
    s.runnable != [] || exists i :: Wakens(s, i)
  }

  /** The current process exits, sleeps or blocks. */
  ghost predicate GivesUp(s: Sys, e: Event) {
    e == ExitCall || e.SleepCall? || (e.SemWaitCall? && e.sem in s.sems && s.sems[e.sem] <= 0)
  }

  /** Giving up the CPU is a Leave, from a state that differs in the time the caller wants to sleep at most. */
  lemma Leaver(s: Sys, e: Event, t: Sys) returns (u: Sys, st: PState)
    requires Inv(s) && Next(s, e, t) && GivesUp(s, e)
    ensures s.Sized() && u.Sized() && Placed(u) && OnCpu(u) && u.current == s.current != IDLE && st !in {Runnable, Running}
    ensures t == Leave(u, st) && u.runnable == s.runnable && u.blocked == s.blocked && u.free == s.free && u.nesting == s.nesting
    ensures st == Blocked <==> e.SleepCall?
    ensures u.procs == if e.SleepCall? then s.procs[s.current := s.procs[s.current].(sleepTime := e.ticks)] else s.procs
  {
    hide Leave;
    match e {
      case ExitCall => u, st := s.(pnum := s.pnum - 1), Dead;
      case SleepCall(n) => u, st := s.WithProc(s.current, s.procs[s.current].(sleepTime := n)), Blocked;
      case SemWaitCall(a) => u, st := s.(sems := s.sems[a := s.sems[a] - 1]), SemBlocked;
    }
    SamePlaced(s, u);
  }

  lemma LeaveCurrent(u: Sys, st: PState)
    requires u.Sized() && u.current != IDLE && u.current !in u.runnable && st !in {Runnable, Running}
    ensures var t := Leave(u, st);
      && t.Sized() && t.current != u.current && t.procs[t.current].timeCount == 10
      && t.current == if u.runnable == [] then IDLE else u.runnable[0]
  {
    var v := u.WithProc(u.current, u.procs[u.current].(state := st));
    if u.runnable != [] {
      ScheduleQueue(v);
      assert u.runnable[0] in u.runnable;
    }
  }

  lemma ScheduleCurrent(s: Sys)
    requires s.Sized() && s.procs[s.current].state == Running && s.current !in s.runnable
    ensures var t := Schedule(s);
      && t.Sized() && t.procs[t.current].timeCount == 10
      && t.current == if s.runnable == [] then s.current else s.runnable[0]
  {
    if s.runnable != [] {
      ScheduleQueue(s);
    }
  }

  lemma SomeSifted(procs: seq<Proc>, ids: seq<nat>)
    ensures Sift(procs, ids, true) != [] <==> exists i :: i in ids && i < |procs| && procs[i].sleepTime == 1
  {
    var out := Sift(procs, ids, true);
    if out != [] {
      assert out[0] in out && Due(procs, out[0]);
    }
    if i :| i in ids && i < |procs| && procs[i].sleepTime == 1 {
      assert Due(procs, i) && i in out;
    }
  }

  /** What a real tick does before it looks at the quantum. */
  lemma WokenUp(s: Sys)
    requires Inv(s)
    ensures var t := TryToWakeup(Spend(s));
      && t.Sized() && t.current == s.current && t.MayLeave() && t.procs[t.current].state == Running
      && t.procs[t.current].timeCount == s.procs[s.current].timeCount - 1 && t.current !in t.runnable
      && (t.runnable != [] <==> Somebody(s)) && (s.runnable != [] ==> t.runnable != [] && t.runnable[0] == s.runnable[0])
  {
    hide Sift, Slept, Debt;
    InvPartition(s);
    InvReady(s);
    var u := Spend(s);
    WakeupIsFilter(u);
    SomeSifted(u.procs, u.blocked);
    SameSleepers(s, u);
    WakeupStays(u);
    assert s.current !in s.runnable && s.current !in s.blocked by {
      if s.current != IDLE { assert OnePlace(s, s.current); }
    }
  }

  lemma SameSleepers(s: Sys, u: Sys)
    requires s.Sized() && u == Spend(s)
    ensures (exists i :: Wakens(s, i)) <==> exists i :: i in u.blocked && i < |u.procs| && u.procs[i].sleepTime == 1
  {
    if i :| Wakens(s, i) {
      assert i in u.blocked && i < |u.procs| && u.procs[i].sleepTime == 1;
    }
    if i :| i in u.blocked && i < |u.procs| && u.procs[i].sleepTime == 1 {
      assert Wakens(s, i);
    }
  }

  lemma TimerCurrent(s: Sys)
    requires Inv(s) && Ready(s) && !s.nesting
    ensures var t := Timer(s); var left := s.procs[s.current].timeCount;
      && t.Sized()
      && (t.current != s.current <==> left == 1 && Somebody(s))
      && t.procs[t.current].timeCount == (if left == 1 then 10 else left - 1)
      && (t.current != s.current && s.runnable != [] ==> t.current == s.runnable[0])
  {
    InvSized(s);
    hide Schedule, TryToWakeup, Spend, Somebody, Inv, Sys.MayLeave;
    WokenUp(s);
    var t := TryToWakeup(Spend(s));
    if t.procs[t.current].timeCount == 0 {
      ScheduleCurrent(t);
      assert t.runnable != [] ==> t.runnable[0] in t.runnable;
    }
  }

  /** fork changes one PCB. */
  lemma ForkFacts(s: Sys)
    requires s.Sized() && Fork(s).Some?
    ensures var t := Fork(s).value;
      && 0 <= s.pnum < MAX_PCB_NUM && t.procs == s.procs[s.pnum := Child(s)]
      && t.runnable == s.runnable + [s.pnum] && s.pnum in s.free && t.free == Remove<nat>(s.free, s.pnum)
      && t.current == s.current && t.blocked == s.blocked && t.nesting == s.nesting
  {
  }

  /** V changes the state of one process. */
  lemma PostFacts(s: Sys, a: SemId, i: nat)
    requires s.Sized() && a in s.sems && SemPost(s, a).Some? && i < MAX_PCB_NUM
    ensures var t := SemPost(s, a).value;
      && |t.procs| == MAX_PCB_NUM && t.procs[i] == s.procs[i].(state := t.procs[i].state)
      && t.runnable == (if s.sems[a] < 0 && s.waiting != [] then s.runnable + [s.waiting[0]] else s.runnable)
      && t.current == s.current && t.blocked == s.blocked && t.free == s.free && t.nesting == s.nesting
  {
  }

  lemma CurrentApart(s: Sys)
    requires Inv(s)
    ensures s.Sized() && s.current !in s.runnable && s.current !in s.blocked && s.procs[s.current].state == Running
  {
    InvPartition(s);
    if s.current != IDLE {
      assert OnePlace(s, s.current);
    }
  }

  /** The CPU changes hands exactly when the current process gives it up or is at the end of its quantum and not alone. */
  lemma StepCurrent(s: Sys, e: Event, t: Sys)
    requires Inv(s) && Next(s, e, t)
    ensures s.Sized() && t.Sized()
    ensures var left := s.procs[s.current].timeCount;
      && (t.current != s.current <==> GivesUp(s, e) || (RealTick(s, e) && left == 1 && Somebody(s)))
      && t.procs[t.current].timeCount ==
         (if GivesUp(s, e) || (RealTick(s, e) && left == 1) then 10 else if RealTick(s, e) then left - 1 else left)
      && (t.current != s.current && s.runnable != [] ==> t.current == s.runnable[0])
      && (GivesUp(s, e) && s.runnable == [] ==> t.current == IDLE)
  {
    InvSized(s);
    CurrentApart(s);
    hide Schedule, Leave, Timer, Inv, Somebody, Fork, SemPost, Placed, OnCpu;
    if GivesUp(s, e) {
      var u, st := Leaver(s, e, t);
      LeaveCurrent(u, st);
    } else {
      match e
      case Tick => if s.nesting { NestedTick(s); } else { TimerCurrent(s); }
      case ForkCall => ForkCurrent(s);
      case SemPostCall(a) => PostCurrent(s, a);
      case _ =>
    }
  }

  lemma ForkCurrent(s: Sys)
    requires Inv(s) && s.current != IDLE && Fork(s).Some?
    ensures var t := Fork(s).value; t.Sized() && t.current == s.current && t.procs[t.current].timeCount == s.procs[s.current].timeCount
  {
    ForkKeeps(s);
    assert At(s, s.pnum);
    ForkFacts(s);
  }

  lemma PostCurrent(s: Sys, a: SemId)
    requires Inv(s) && a in s.sems && SemPost(s, a).Some?
    ensures var t := SemPost(s, a).value; t.Sized() && t.current == s.current && t.procs[t.current].timeCount == s.procs[s.current].timeCount
  {
    SemPostKeeps(s, a);
    if s.sems[a] < 0 {
      assert At(s, s.waiting[0]);
    }
  }

  // ---------------------------------------------------------------- quantum

  /** Real ticks since the quantum under way started. */
  ghost function Age(tr: seq<Sys>, evs: seq<Event>, n: nat): int
    requires n <= |evs| <= |tr| && n < |tr| && tr[0].Sized()
  {
    if n == 0 then 10 - tr[0].procs[tr[0].current].timeCount
    else if tr[n].current != tr[n - 1].current then 0
    else if RealTick(tr[n - 1], evs[n - 1]) then (if Age(tr, evs, n - 1) == 9 then 0 else Age(tr, evs, n - 1) + 1)
    else Age(tr, evs, n - 1)
  }

  lemma {:induction false} AgeLaw(tr: seq<Sys>, evs: seq<Event>, n: nat)
    requires Run(tr, evs) && Inv(tr[0]) && n <= |evs|
    ensures tr[0].Sized() && tr[n].Sized() && Inv(tr[n])
    ensures 0 <= Age(tr, evs, n) <= 9 && tr[n].procs[tr[n].current].timeCount == 10 - Age(tr, evs, n)
  {
    InvSized(tr[0]);
    hide Next, GivesUp, Somebody, Sys.Sized;
    RunKeeps(tr, evs, n);
    InvQuantum(tr[n]);
    if n > 0 {
      AgeLaw(tr, evs, n - 1);
      assert Next(tr[n - 1], evs[n - 1], tr[n]);
      hide Inv;
      StepCurrent(tr[n - 1], evs[n - 1], tr[n]);
    }
  }

  lemma InvQuantum(s: Sys)
    requires Inv(s)
    ensures s.Sized() && 1 <= s.procs[s.current].timeCount <= 10
  {
  }

  /** Over a run the CPU changes hands exactly at an exit, a sleep, a blocking P, and at the tenth tick of a quantum if somebody is there to take it. */
  lemma HandOver(tr: seq<Sys>, evs: seq<Event>, n: nat)
    requires Run(tr, evs) && Inv(tr[0]) && n < |evs|
    ensures tr[0].Sized()
    ensures tr[n + 1].current != tr[n].current <==>
      GivesUp(tr[n], evs[n]) || (RealTick(tr[n], evs[n]) && Age(tr, evs, n) == 9 && Somebody(tr[n]))
    ensures tr[n + 1].current != tr[n].current && tr[n].runnable != [] ==> tr[n + 1].current == tr[n].runnable[0]
    ensures GivesUp(tr[n], evs[n]) && tr[n].runnable == [] ==> tr[n + 1].current == IDLE
  {
    hide Inv, Age, GivesUp, Somebody;
    AgeLaw(tr, evs, n);
    assert Next(tr[n], evs[n], tr[n + 1]);
    StepCurrent(tr[n], evs[n], tr[n + 1]);
  }

  /** A quantum starts with a dispatch, and is renewed at its tenth tick when nobody else can run. */
  ghost predicate Starts(tr: seq<Sys>, evs: seq<Event>, i: nat)
    requires i <= |evs| < |tr| && tr[0].Sized()
  {
    i > 0 && (tr[i].current != tr[i - 1].current || (RealTick(tr[i - 1], evs[i - 1]) && Age(tr, evs, i - 1) == 9))
  }

  /**
   A process that does not give up the CPU keeps it for ten real ticks from the start of its quantum, and
   loses it at the tenth exactly if somebody is there to take it.
   */
  lemma {:induction false} FullQuantum(tr: seq<Sys>, evs: seq<Event>, i: nat, n: nat)
    requires Run(tr, evs) && Inv(tr[0]) && tr[0].Sized() && i <= n <= |evs| && Starts(tr, evs, i)
    requires forall j :: i <= j < n ==> !GivesUp(tr[j], evs[j])
    requires Ticks(tr, evs, n) - Ticks(tr, evs, i) <= 9
    ensures tr[n].current == tr[i].current && Age(tr, evs, n) == Ticks(tr, evs, n) - Ticks(tr, evs, i)
    ensures n < |evs| && !GivesUp(tr[n], evs[n]) && RealTick(tr[n], evs[n]) && Ticks(tr, evs, n) - Ticks(tr, evs, i) == 9 ==>
      (tr[n + 1].current != tr[i].current <==> Somebody(tr[n]))
  {
    hide Inv, GivesUp, Somebody, Next;
    if n > i {
      TicksGrow(tr, evs, i, n - 1);
      FullQuantum(tr, evs, i, n - 1);
      HandOver(tr, evs, n - 1);
    }
    if n < |evs| {
      HandOver(tr, evs, n);
    }
  }

  lemma {:induction false} TicksGrow(tr: seq<Sys>, evs: seq<Event>, i: nat, n: nat)
    requires i <= n <= |evs| <= |tr|
    ensures Ticks(tr, evs, i) <= Ticks(tr, evs, n)
  {
    if n > i {
      TicksGrow(tr, evs, i, n - 1);
    }
  }

  // ---------------------------------------------------------------- what stays with a process

  /** The semaphore pointer that process i has after an event. */
  ghost function PsemAfter(s: Sys, e: Event, i: nat): Option<SemId>
    requires i < |s.procs| && s.current < |s.procs|
  {
    if e.SemInitCall? && i == s.current then Some(e.sem)
    else if e.SemDestroyCall? && i == s.current then None
    else if e.ForkCall? && i == s.pnum then s.procs[s.current].psem
    else s.procs[i].psem
  }

  lemma LeaveOwn(u: Sys, st: PState, i: nat)
    requires Placed(u) && OnCpu(u) && u.current != IDLE && st != Runnable && i < MAX_PCB_NUM
    ensures Leave(u, st).Sized() && Leave(u, st).procs[i].psem == u.procs[i].psem && Leave(u, st).procs[i].ppid == u.procs[i].ppid
  {
    hide Schedule;
    LeaveFrame(u, st);
    LeavePlaced(u, st);
  }

  lemma LeavingOwn(s: Sys, e: Event, t: Sys, i: nat)
    requires Inv(s) && Next(s, e, t) && GivesUp(s, e) && i < MAX_PCB_NUM
    ensures s.Sized() && t.Sized() && t.procs[i].psem == s.procs[i].psem && t.procs[i].ppid == s.procs[i].ppid
  {
    hide Next, Leave, Inv, GivesUp, Placed, OnCpu;
    var u, st := Leaver(s, e, t);
    LeaveOwn(u, st, i);
  }

  lemma TimerOwn(s: Sys, i: nat)
    requires Inv(s) && Ready(s) && i < MAX_PCB_NUM
    ensures s.Sized() && Timer(s).Sized() && Timer(s).procs[i].psem == s.procs[i].psem && Timer(s).procs[i].ppid == s.procs[i].ppid
  {
    TimerFrame(s);
    TimerPlaced(s);
  }

  lemma InvPids(s: Sys)
    requires Inv(s)
    ensures s.Sized() && s.procs[s.current].pid == s.current
  {
  }

  /** No event but sem_init, sem_destroy and the fork that makes a process touches its semaphore pointer, and only a fork its ppid. */
  lemma StepOwn(s: Sys, e: Event, t: Sys, i: nat)
    requires Inv(s) && Next(s, e, t) && i < MAX_PCB_NUM
    ensures s.Sized() && t.Sized() && t.procs[i].psem == PsemAfter(s, e, i)
    ensures t.procs[i].ppid == if e.ForkCall? && i == s.pnum then s.current else s.procs[i].ppid
  {
    NextKeeps(s, e, t);
    InvSized(s);
    InvPids(s);
    hide Leave, Timer, Fork, SemPost, Inv, Placed, OnCpu;
    if GivesUp(s, e) {
      LeavingOwn(s, e, t, i);
    } else {
      match e
      case Tick => TimerOwn(s, i);
      case ForkCall => ForkFacts(s);
      case SemPostCall(a) => PostFacts(s, a, i);
      case _ =>
    }
  }

  /** Event j decides the semaphore pointer of process i: its own sem_init or sem_destroy, or the fork that made it. */
  ghost predicate Decides(tr: seq<Sys>, evs: seq<Event>, j: nat, i: nat)
    requires j < |evs| <= |tr|
  {
    ((evs[j].SemInitCall? || evs[j].SemDestroyCall?) && tr[j].current == i) || (evs[j].ForkCall? && tr[j].pnum == i)
  }

  lemma {:induction false} PsemStays(tr: seq<Sys>, evs: seq<Event>, i: nat, j: nat, n: nat)
    requires Run(tr, evs) && Inv(tr[0]) && j <= n <= |evs| && i < MAX_PCB_NUM
    requires forall k :: j <= k < n ==> !Decides(tr, evs, k, i)
    ensures tr[j].Sized() && tr[n].Sized() && tr[n].procs[i].psem == tr[j].procs[i].psem
  {
    hide Next, Inv;
    RunKeeps(tr, evs, n);
    InvSized(tr[n]);
    if n > j {
      PsemStays(tr, evs, i, j, n - 1);
      RunKeeps(tr, evs, n - 1);
      assert Next(tr[n - 1], evs[n - 1], tr[n]) && !Decides(tr, evs, n - 1, i);
      StepOwn(tr[n - 1], evs[n - 1], tr[n], i);
    }
  }

  /**
   Over a run, the semaphore a process waits through: that of its last sem_init, none if a sem_destroy came
   after it, and if it did neither since the fork that made it, the one its parent had at the fork.
   */
  lemma PsemLaw(tr: seq<Sys>, evs: seq<Event>, i: nat, j: nat, n: nat)
    requires Run(tr, evs) && Inv(tr[0]) && j < n <= |evs| && i < MAX_PCB_NUM && Decides(tr, evs, j, i)
    requires forall k :: j < k < n ==> !Decides(tr, evs, k, i)
    ensures tr[n].Sized() && tr[j].Sized()
    ensures evs[j].SemInitCall? ==> tr[n].procs[i].psem == Some(evs[j].sem)
    ensures evs[j].SemDestroyCall? ==> tr[n].procs[i].psem == None
    ensures evs[j].ForkCall? ==> tr[n].procs[i].psem == tr[j].procs[tr[j].current].psem
  {
    hide Next, Inv;
    RunKeeps(tr, evs, j);
    assert Next(tr[j], evs[j], tr[j + 1]);
    StepOwn(tr[j], evs[j], tr[j + 1], i);
    PsemStays(tr, evs, i, j + 1, n);
  }

  /** From boot, a process whose pointer nothing has decided has none. */
  lemma PsemFromBoot(tr: seq<Sys>, evs: seq<Event>, i: nat, n: nat)
    requires Run(tr, evs) && Boot(tr[0]) && n <= |evs| && i < MAX_PCB_NUM
    requires forall k :: 0 <= k < n ==> !Decides(tr, evs, k, i)
    ensures tr[n].Sized() && tr[n].procs[i].psem == None
  {
    BootKeeps();
    BootState(tr[0]);
    hide Next, Inv, Boot;
    PsemStays(tr, evs, i, 0, n);
  }

  /** After its sem_destroy a process cannot block in P before its next sem_init: the kernel would follow a null pointer. */
  lemma NoBlockAfterDestroy(tr: seq<Sys>, evs: seq<Event>, i: nat, j: nat, n: nat, a: SemId)
    requires Run(tr, evs) && Inv(tr[0]) && j < n <= |evs| && i < MAX_PCB_NUM && evs[j] == SemDestroyCall && tr[j].current == i
    requires forall k :: j < k < n ==> !Decides(tr, evs, k, i)
    requires tr[n].current == i && a in tr[n].sems && tr[n].sems[a] <= 0
    ensures tr[n].Sized() && !Enabled(tr[n], SemWaitCall(a))
  {
    PsemLaw(tr, evs, i, j, n);
  }

  /** The fork that made process i is event j: ppid is the process that called it, for good. */
  lemma {:induction false} ParentLaw(tr: seq<Sys>, evs: seq<Event>, i: nat, j: nat, n: nat)
    requires Run(tr, evs) && Inv(tr[0]) && j < n <= |evs| && i < MAX_PCB_NUM && evs[j] == ForkCall && tr[j].pnum == i
    requires forall k :: j < k < n ==> !(evs[k] == ForkCall && tr[k].pnum == i)
    ensures tr[n].Sized() && tr[n].procs[i].ppid == tr[j].current
  {
    hide Next, Inv;
    RunKeeps(tr, evs, n - 1);
    assert Next(tr[n - 1], evs[n - 1], tr[n]);
    StepOwn(tr[n - 1], evs[n - 1], tr[n], i);
    if n - 1 > j {
      ParentLaw(tr, evs, i, j, n - 1);
    }
  }

  /** A forked process is last in the runnable list, with a full quantum and the semaphore of its parent. */
  lemma ForkedProcess(s: Sys, t: Sys)
    requires Inv(s) && Next(s, ForkCall, t)
    ensures 0 <= s.pnum < |t.procs| && t.runnable == s.runnable + [s.pnum]
    ensures t.procs[s.pnum] == Proc(Runnable, 10, 0, s.pnum, s.current, s.procs[s.current].psem)
    ensures t.current == s.current && t.pnum == s.pnum + 1 && t.blocked == s.blocked && t.waiting == s.waiting && t.sems == s.sems
    ensures forall i :: 0 <= i < |s.procs| && i != s.pnum ==> t.procs[i] == s.procs[i]
  {
    assert At(s, s.pnum);
  }

  lemma ScheduleCounts(s: Sys, i: nat)
    requires s.Sized() && s.MayLeave() && i < MAX_PCB_NUM && i != s.current && i != Schedule(s).current
    ensures Schedule(s).procs[i].timeCount == s.procs[i].timeCount
  {
  }

  lemma LeaveCounts(u: Sys, st: PState, i: nat)
    requires u.Sized() && u.current != IDLE && st != Runnable && i < MAX_PCB_NUM && i != u.current && i != Leave(u, st).current
    ensures Leave(u, st).Sized() && Leave(u, st).procs[i].timeCount == u.procs[i].timeCount
  {
    hide Schedule;
    ScheduleCounts(u.WithProc(u.current, u.procs[u.current].(state := st)), i);
  }

  lemma TimerCounts(s: Sys, i: nat)
    requires Inv(s) && Ready(s) && !s.nesting && i < MAX_PCB_NUM && i != s.current && i != Timer(s).current
    ensures Timer(s).Sized() && Timer(s).procs[i].timeCount == s.procs[i].timeCount
  {
    InvSized(s);
    WokenUp(s);
    WakeupCounts(s, i);
    hide TryToWakeup, Schedule, Spend, Inv;
    var t := TryToWakeup(Spend(s));
    if t.procs[t.current].timeCount == 0 {
      ScheduleCounts(t, i);
    }
  }

  lemma WakeupCounts(s: Sys, i: nat)
    requires Inv(s) && i < MAX_PCB_NUM && i != s.current
    ensures s.Sized() && TryToWakeup(Spend(s)).procs[i].timeCount == s.procs[i].timeCount
  {
    hide Sift, Debt;
    WakeupIsFilter(Spend(s));
  }

  /** Only who has the CPU before or after an event uses up or gets a quantum, and a forked process. */
  lemma StepCounts(s: Sys, e: Event, t: Sys, i: nat)
    requires Inv(s) && Next(s, e, t) && i < MAX_PCB_NUM
    requires i != s.current && i != t.current && !(e.ForkCall? && i == s.pnum)
    ensures s.Sized() && t.Sized() && t.procs[i].timeCount == s.procs[i].timeCount
  {
    NextKeeps(s, e, t);
    InvSized(s);
    hide Leave, Timer, Inv, Fork, SemPost, Placed, OnCpu;
    if GivesUp(s, e) {
      var u, st := Leaver(s, e, t);
      LeaveCounts(u, st, i);
    } else {
      match e
      case Tick => if s.nesting { NestedTick(s); } else { TimerCounts(s, i); }
      case ForkCall => ForkFacts(s);
      case SemPostCall(a) => PostFacts(s, a, i);
      case _ =>
    }
  }

  // ---------------------------------------------------------------- waiting for the keyboard

  /** While the kernel waits for the keyboard ticks change nothing; only that wait switches it on and off. */
  lemma StepNesting(s: Sys, e: Event, t: Sys)
    requires Next(s, e, t)
    ensures t.nesting == if e.KeyboardWait? then e.on else s.nesting
    ensures e == Tick && s.nesting ==> t == s
  {
    hide Leave, Timer;
    match e
    case Tick =>
      TimerLists(s);
      if s.nesting {
        NestedTick(s);
      }
    case ExitCall => LeaveLists(s.(pnum := s.pnum - 1), Dead);
    case SleepCall(n) => LeaveLists(s.WithProc(s.current, s.procs[s.current].(sleepTime := n)), Blocked);
    case SemWaitCall(a) =>
      if s.sems[a] <= 0 {
        LeaveLists(s.(sems := s.sems[a := s.sems[a] - 1]), SemBlocked);
      }
    case _ =>
  }

  /** Over a run interrupts are nested exactly when the last keyboard wait switched it on. */
  lemma {:induction false} NestingLaw(tr: seq<Sys>, evs: seq<Event>, j: nat, n: nat)
    requires Run(tr, evs) && j < n <= |evs| && evs[j].KeyboardWait?
    requires forall i :: j < i < n ==> !evs[i].KeyboardWait?
    ensures tr[n].nesting == evs[j].on
  {
    hide Next;
    if n > j + 1 {
      NestingLaw(tr, evs, j, n - 1);
    }
    assert Next(tr[n - 1], evs[n - 1], tr[n]);
    StepNesting(tr[n - 1], evs[n - 1], tr[n]);
  }

  // ---------------------------------------------------------------- sleep times

  /** Only who is asleep has time left to sleep. */
  ghost predicate Rested(s: Sys) {
    forall i :: 0 <= i < |s.procs| && i !in s.blocked ==> s.procs[i].sleepTime == 0
  }

  lemma ScheduleRested(s: Sys)
    requires s.Sized() && s.MayLeave()
    requires forall i :: 0 <= i < |s.procs| && i !in s.blocked && !(i == s.current && s.procs[i].state == Blocked) ==> s.procs[i].sleepTime == 0
    ensures Rested(Schedule(s))
  {
  }

  lemma TimerRested(s: Sys)
    requires Inv(s) && Ready(s) && !s.nesting && Rested(s)
    ensures Rested(Timer(s))
  {
    InvSized(s);
    WokenUp(s);
    WakeupRested(s);
    hide TryToWakeup, Schedule, Spend, Inv;
    var t := TryToWakeup(Spend(s));
    if t.procs[t.current].timeCount == 0 {
      ScheduleRested(t);
    }
  }

  lemma WakeupRested(s: Sys)
    requires Inv(s) && Rested(s)
    ensures Rested(TryToWakeup(Spend(s)))
  {
    hide Sift, Debt;
    WakeupIsFilter(Spend(s));
  }

  lemma LeaveRested(u: Sys, st: PState)
    requires u.Sized() && u.current != IDLE && st != Runnable
    requires forall i :: 0 <= i < |u.procs| && i !in u.blocked && !(i == u.current && st == Blocked) ==> u.procs[i].sleepTime == 0
    ensures Rested(Leave(u, st))
  {
    hide Schedule;
    ScheduleRested(u.WithProc(u.current, u.procs[u.current].(state := st)));
  }

  lemma PostRested(s: Sys, a: SemId)
    requires s.Sized() && a in s.sems && SemPost(s, a).Some? && Rested(s)
    ensures Rested(SemPost(s, a).value)
  {
    hide SemPost;
    PostFacts(s, a, 0);
    forall i | 0 <= i < MAX_PCB_NUM && i !in s.blocked
      ensures SemPost(s, a).value.procs[i].sleepTime == 0
    {
      PostFacts(s, a, i);
    }
  }

  lemma StepRested(s: Sys, e: Event, t: Sys)
    requires Inv(s) && Next(s, e, t) && Rested(s)
    ensures Rested(t)
  {
    InvSized(s);
    hide Leave, Timer, Inv, Fork, SemPost, Placed, OnCpu;
    if GivesUp(s, e) {
      var u, st := Leaver(s, e, t);
      LeaveRested(u, st);
    } else {
      match e
      case Tick => if s.nesting { NestedTick(s); } else { TimerRested(s); }
      case ForkCall => ForkFacts(s);
      case SemPostCall(a) => PostRested(s, a);
      case _ =>
    }
  }

  /** Over a run from boot whoever is not asleep has no time left to sleep. */
  lemma {:induction false} RestedLaw(tr: seq<Sys>, evs: seq<Event>, n: nat)
    requires Run(tr, evs) && Boot(tr[0]) && n <= |evs|
    ensures Rested(tr[n])
  {
    hide Inv, Boot, Next, Rested;
    if n == 0 {
      BootRested(tr[0]);
    } else {
      RestedLaw(tr, evs, n - 1);
      ReachableInv(tr, evs, n - 1);
      assert Next(tr[n - 1], evs[n - 1], tr[n]);
      StepRested(tr[n - 1], evs[n - 1], tr[n]);
    }
  }

  lemma ReachableInv(tr: seq<Sys>, evs: seq<Event>, n: nat)
    requires Run(tr, evs) && Boot(tr[0]) && n <= |evs|
    ensures Inv(tr[0]) && Inv(tr[n])
  {
    hide Inv, Next;
    BootKeeps();
    RunKeeps(tr, evs, n);
  }

  lemma BootRested(s: Sys)
    requires Boot(s)
    ensures Rested(s)
  {
    BootState(s);
    hide Boot;
  }

  /** The kernel at boot: idle runs with a quantum of ten, process 1 is next, all other PCBs are free. */
  lemma BootState(s: Sys)
    requires Boot(s)
    ensures s.Sized() && s.current == 0 && s.runnable == [1] && s.blocked == [] && s.waiting == [] && s.free == [2, 3, 4, 5, 6, 7, 8, 9]
    ensures s.pnum == 2 && s.sems == map[] && !s.nesting
    ensures s.procs[0].timeCount == s.procs[1].timeCount == 10 && s.procs[1].pid == 1 && s.procs[1].ppid == -1
    ensures forall i :: 0 <= i < MAX_PCB_NUM ==> s.procs[i].psem == None && s.procs[i].sleepTime == 0
  {
  }
}
