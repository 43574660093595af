/** Sleeping, process accounting and semaphores over whole runs of the scheduler. */
module SchedTheorems {
  import opened Seqs
  import opened SchedModel
  import opened SchedInvariant
  import opened SchedRuns

  lemma NextKeeps(s: Sys, e: Event, t: Sys)
    requires Inv(s) && Next(s, e, t)
    ensures Inv(t) && t.Sized()
  {
    StepKeeps(s, e);
  }

  // ---------------------------------------------------------------- sleep

  /** Real ticks until a 32-bit counter that is decremented each time reaches zero. */
  function TicksLeft(v: Int32): (n: int)
    ensures n >= 1
    ensures 1 <= v ==> n == v
  {
    if v >= 1 then v else v + 0x1_0000_0000
  }

  ghost predicate Asleep(s: Sys, p: nat, left: int) {
    p < |s.procs| && p in s.blocked && TicksLeft(s.procs[p].sleepTime) == left
  }

  ghost predicate Awake(s: Sys, p: nat) {
    p !in s.blocked && (p == s.current || p in s.runnable)
  }

  /** A dispatch does not touch a sleeper. */
  lemma ScheduleKeepsSleeper(s: Sys, p: nat)
    requires s.Sized() && s.MayLeave() && p in s.blocked && p != s.current && p !in s.runnable
    ensures p in Schedule(s).blocked && Schedule(s).procs[p].sleepTime == s.procs[p].sleepTime
  {
  }

  lemma ScheduleKeepsReady(s: Sys, p: nat)
    requires s.Sized() && s.MayLeave() && s.procs[s.current].state == Running
    requires p in s.runnable && p !in s.blocked
    ensures Awake(Schedule(s), p)
  {
    ScheduleQueue(s);
    if p != s.runnable[0] {
      var c := if s.current != IDLE then [s.current] else [];
      IndexOfAppend(s.runnable, c, p);
      IndexOfTail(s.runnable + c, p);
    }
  }

  lemma WakeupSleep(s: Sys, p: nat, left: int)
    requires s.Sized() && NoDup(s.blocked) && Asleep(s, p, left) && p !in s.runnable
    ensures var t := TryToWakeup(s);
      if left > 1 then Asleep(t, p, left - 1) && p !in t.runnable else p in t.runnable && p !in t.blocked
  {
    WakeupIsFilter(s);
    assert left == 1 <==> Due(s.procs, p);
  }

  lemma TimerSleep(s: Sys, p: nat, left: int)
    requires Inv(s) && Ready(s) && !s.nesting && Asleep(s, p, left)
    ensures left > 1 ==> Asleep(Timer(s), p, left - 1)
    ensures left == 1 ==> Awake(Timer(s), p)
  {
    assert 0 < p < MAX_PCB_NUM && At(s, p);
    var u := Spend(s);
    WakeupSleep(u, p, left);
    var t := TryToWakeup(u);
    assert t.procs[t.current].state == Running;
    if t.procs[t.current].timeCount == 0 {
      if left > 1 {
        ScheduleKeepsSleeper(t, p);
      } else {
        ScheduleKeepsReady(t, p);
      }
    }
  }

  lemma LeaveKeepsSleeper(s: Sys, st: PState, p: nat)
    requires s.Sized() && s.current != IDLE && st !in {Runnable, Running}
    requires p in s.blocked && p != s.current && p !in s.runnable
    ensures p in Leave(s, st).blocked && Leave(s, st).procs[p].sleepTime == s.procs[p].sleepTime
  {
    ScheduleKeepsSleeper(s.WithProc(s.current, s.procs[s.current].(state := st)), p);
  }

  lemma NestedTick(s: Sys)
    requires Ready(s) && s.nesting
    ensures Timer(s) == s
  {
  }

  /** Only a real tick moves a sleeper, and it takes exactly one tick off its time. */
  lemma StepSleep(s: Sys, e: Event, t: Sys, p: nat, left: int)
    requires Inv(s) && Next(s, e, t) && Asleep(s, p, left)
    ensures !RealTick(s, e) ==> Asleep(t, p, left)
    ensures RealTick(s, e) ==> if left > 1 then Asleep(t, p, left - 1) else Awake(t, p)
  {
    hide Schedule, Timer, NoDup, Debt;
    assert 0 < p < MAX_PCB_NUM && At(s, p);
    match e
    case Tick => if s.nesting { NestedTick(s); } else { TimerSleep(s, p, left); }
    case ExitCall => LeaveKeepsSleeper(s.(pnum := s.pnum - 1), Dead, p);
    case SleepCall(n) => LeaveKeepsSleeper(s.WithProc(s.current, s.procs[s.current].(sleepTime := n)), Blocked, p);
    case SemWaitCall(a) =>
      if s.sems[a] <= 0 {
        LeaveKeepsSleeper(s.(sems := s.sems[a := s.sems[a] - 1]), SemBlocked, p);
      }
    case ForkCall => assert At(s, s.pnum);
    case SemPostCall(a) => if s.sems[a] < 0 { assert At(s, s.waiting[0]); }
    case _ =>
  }

  /** sleep(n) leaves the caller asleep with n ticks to go. */
  lemma SleepStarts(s: Sys, n: Int32)
    requires Inv(s) && s.current != IDLE
    ensures Asleep(Sleep(s, n), s.current, TicksLeft(n))
  {
    var c := s.current;
    assert At(s, c);
    var u := s.WithProc(c, s.procs[c].(sleepTime := n, state := Blocked));
    assert Sleep(s, n) == Schedule(u);
    if s.runnable != [] {
      assert s.runnable[0] != c;
    }
    var t := Schedule(u);
    assert t.blocked == s.blocked + [c];
    assert t.procs[c].sleepTime == n;
  }

  /** A sleeper with k ticks to go wakes on exactly the k-th real tick, whatever else happens. */
  lemma {:induction false} SleepExact(tr: seq<Sys>, evs: seq<Event>, p: nat, left: int, n: nat)
    requires Run(tr, evs) && Inv(tr[0]) && Asleep(tr[0], p, left) && n <= |evs|
    requires Ticks(tr, evs, n) < left
    ensures Inv(tr[n]) && Asleep(tr[n], p, left - Ticks(tr, evs, n))
    ensures n < |evs| && RealTick(tr[n], evs[n]) && Ticks(tr, evs, n) == left - 1 ==> Awake(tr[n + 1], p)
  {
    hide Step, Inv, Enabled;
    if n > 0 {
      SleepExact(tr, evs, p, left, n - 1);
      assert Next(tr[n - 1], evs[n - 1], tr[n]);
      NextKeeps(tr[n - 1], evs[n - 1], tr[n]);
      StepSleep(tr[n - 1], evs[n - 1], tr[n], p, left - Ticks(tr, evs, n - 1));
    }
    if n < |evs| {
      assert Next(tr[n], evs[n], tr[n + 1]);
      StepSleep(tr[n], evs[n], tr[n + 1], p, left - Ticks(tr, evs, n));
    }
  }

  // ---------------------------------------------------------------- process accounting

  ghost predicate Alive(s: Sys, i: nat)
    requires i < |s.procs|
  {
    s.procs[i].state != Dead
  }

  /** The live processes are exactly 1 .. p_num - 1. */
  ghost predicate Compact(s: Sys) {
    && |s.procs| == MAX_PCB_NUM
    && forall i :: 0 < i < MAX_PCB_NUM ==> (Alive(s, i) <==> i < s.pnum)
  }

  lemma LeaveLife(u: Sys, st: PState)
    requires Placed(u) && OnCpu(u) && u.current != IDLE && st != Runnable
    ensures var t := Leave(u, st);
      && t.Sized() && t.pnum == u.pnum
      && forall i :: 0 < i < MAX_PCB_NUM ==> (Alive(t, i) <==> if i == u.current then st != Dead else Alive(u, i))
  {
    hide Schedule;
    LeaveLists(u, st);
    LeaveFrame(u, st);
  }

  /** What a step does to the set of live processes and to p_num. */
  lemma StepLife(s: Sys, e: Event, t: Sys)
    requires Inv(s) && Next(s, e, t)
    ensures |t.procs| == |s.procs|
    ensures t.pnum == s.pnum + if e == ExitCall then -1 else if e == ForkCall then 1 else 0
    ensures forall i :: 0 < i < MAX_PCB_NUM ==>
      (Alive(t, i) <==> (Alive(s, i) && !(e == ExitCall && i == s.current)) || (e == ForkCall && i == s.pnum))
  {
    hide Schedule, Leave, Timer;
    match e
    case Tick => TimerLists(s); TimerFrame(s);
    case ExitCall =>
      SamePlaced(s, s.(pnum := s.pnum - 1));
      LeaveLife(s.(pnum := s.pnum - 1), Dead);
    case SleepCall(n) =>
      var u := s.WithProc(s.current, s.procs[s.current].(sleepTime := n));
      SamePlaced(s, u);
      LeaveLife(u, Blocked);
    case SemWaitCall(a) =>
      var u := s.(sems := s.sems[a := s.sems[a] - 1]);
      SamePlaced(s, u);
      if u.sems[a] < 0 {
        LeaveLife(u, SemBlocked);
      }
    case SemPostCall(a) => if s.sems[a] < 0 { assert At(s, s.waiting[0]); }
    case _ =>
  }

  /** The live processes stay 1 .. p_num - 1 through every step except the exit of one that is not the last. */
  lemma CompactStep(s: Sys, e: Event, t: Sys)
    requires Inv(s) && Next(s, e, t) && Compact(s)
    ensures Compact(t) <==> !(e == ExitCall && s.current != s.pnum - 1)
  {
    StepLife(s, e, t);
    hide Step, Enabled;
    if e == ExitCall {
      assert 0 < s.current < MAX_PCB_NUM && Alive(s, s.current);
      assert !Alive(t, s.current);
    }
  }

  /** With the live processes 1 .. p_num - 1, fork halts the kernel only when the table is full. */
  lemma CompactFork(s: Sys)
    requires Inv(s) && Compact(s)
    ensures Fork(s).Some? <==> s.pnum < MAX_PCB_NUM
  {
    RunnableShort(s);
    if s.pnum < MAX_PCB_NUM {
      assert 0 < s.pnum;
      assert At(s, s.pnum) && !Alive(s, s.pnum);
    }
  }

  /** If exits always come from the highest live process, fork works whenever p_num < 10. */
  lemma {:induction false} ForkNeverHalts(tr: seq<Sys>, evs: seq<Event>, n: nat)
    requires Run(tr, evs) && Boot(tr[0]) && n <= |evs|
    requires forall i :: 0 <= i < n && evs[i] == ExitCall ==> tr[i].current == tr[i].pnum - 1
    ensures Inv(tr[n]) && Compact(tr[n]) && (Fork(tr[n]).Some? <==> tr[n].pnum < MAX_PCB_NUM)
  {
    hide Step, Enabled;
    if n == 0 {
      BootKeeps();
      forall i | 0 < i < MAX_PCB_NUM
        ensures Alive(tr[0], i) <==> i < tr[0].pnum
      {
      }
    } else {
      ForkNeverHalts(tr, evs, n - 1);
      assert Next(tr[n - 1], evs[n - 1], tr[n]);
      NextKeeps(tr[n - 1], evs[n - 1], tr[n]);
      CompactStep(tr[n - 1], evs[n - 1], tr[n]);
    }
    CompactFork(tr[n]);
  }

  /** The exit of any other process than p_num - 1 leaves a live process where the next fork wants to put its child. */
  lemma GapHalts(s: Sys, t: Sys)
    requires Inv(s) && Next(s, ExitCall, t) && Compact(s) && s.current != s.pnum - 1
    ensures Inv(t) && 0 < t.pnum < MAX_PCB_NUM && Alive(t, t.pnum) && Fork(t).None?
  {
    NextKeeps(s, ExitCall, t);
    StepLife(s, ExitCall, t);
    RunnableShort(s);
    hide Next, Step, Enabled;
    assert 0 < s.current < s.pnum by { assert Alive(s, s.current); }
    assert At(t, t.pnum);
  }

  /** Over a run from boot: fork works whenever p_num < 10 exactly when only the highest live process ever exits. */
  lemma ForkWorksExactly(tr: seq<Sys>, evs: seq<Event>)
    requires Run(tr, evs) && Boot(tr[0])
    ensures forall i :: 0 <= i <= |evs| ==> tr[i].Sized()
    ensures (forall i :: 0 <= i <= |evs| && tr[i].pnum < MAX_PCB_NUM ==> Fork(tr[i]).Some?)
      <==> (forall i :: 0 <= i < |evs| && evs[i] == ExitCall ==> tr[i].current == tr[i].pnum - 1)
  {
    hide Next, Boot, Compact, Fork, Inv;
    forall i | 0 <= i <= |evs|
      ensures tr[i].Sized()
    {
      ReachableBooks(tr, evs, i);
    }
    if forall i :: 0 <= i < |evs| && evs[i] == ExitCall ==> tr[i].current == tr[i].pnum - 1 {
      forall i | 0 <= i <= |evs| && tr[i].pnum < MAX_PCB_NUM
        ensures Fork(tr[i]).Some?
      {
        ForkNeverHalts(tr, evs, i);
      }
    } else {
      var i := FirstGap(tr, evs, |evs|);
      ForkNeverHalts(tr, evs, i);
      assert Next(tr[i], evs[i], tr[i + 1]);
      GapHalts(tr[i], tr[i + 1]);
    }
  }

  lemma {:induction false} FirstGap(tr: seq<Sys>, evs: seq<Event>, n: nat) returns (i: nat)
    requires n <= |evs| <= |tr| && exists i :: 0 <= i < n && evs[i] == ExitCall && tr[i].current != tr[i].pnum - 1
    ensures i < n && evs[i] == ExitCall && tr[i].current != tr[i].pnum - 1
    ensures forall j :: 0 <= j < i && evs[j] == ExitCall ==> tr[j].current == tr[j].pnum - 1
  {
    if exists j :: 0 <= j < n - 1 && evs[j] == ExitCall && tr[j].current != tr[j].pnum - 1 {
      i := FirstGap(tr, evs, n - 1);
    } else {
      i := n - 1;
    }
  }

  /** Accounts in every reachable state: p_num, free list and pids agree, and p_num - 1 processes are alive. */
  lemma ReachableBooks(tr: seq<Sys>, evs: seq<Event>, n: nat)
    requires Run(tr, evs) && Boot(tr[0]) && n <= |evs|
    ensures var s := tr[n]; s.Sized() && s.pnum + |s.free| == MAX_PCB_NUM && 1 <= s.pnum <= MAX_PCB_NUM
    ensures var s := tr[n]; forall i :: 0 < i < MAX_PCB_NUM ==> if s.procs[i].state == Dead then i in s.free else s.procs[i].pid == i
  {
    BootKeeps();
    RunKeeps(tr, evs, n);
    RunnableShort(tr[n]);
    InvPartition(tr[n]);
    forall i | 0 < i < MAX_PCB_NUM
      ensures if tr[n].procs[i].state == Dead then i in tr[n].free else tr[n].procs[i].pid == i
    {
      assert OnePlace(tr[n], i);
    }
  }
}
