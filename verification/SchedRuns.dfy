/** Properties of whole runs of the scheduler. */
module SchedRuns {
  import opened Seqs
  import opened SchedModel
  import opened SchedInvariant

  ghost predicate Next(s: Sys, e: Event, t: Sys) {
    Ready(s) && Enabled(s, e) && Step(s, e) == Some(t)
  }

  /** tr[i] is the state before event evs[i]; the last state of tr is the one reached. */
  ghost predicate Run(tr: seq<Sys>, evs: seq<Event>) {
    && |tr| == |evs| + 1
    && forall i :: 0 <= i < |evs| ==> Next(tr[i], evs[i], tr[i + 1])
  }

  ghost predicate Boot(s: Sys) {
    Prepare(Initial()) == Some(s)
  }

  lemma {:induction false} RunKeeps(tr: seq<Sys>, evs: seq<Event>, n: nat)
    requires Run(tr, evs) && Inv(tr[0]) && n <= |evs|
    ensures Inv(tr[n])
  {
    if n > 0 {
      RunKeeps(tr, evs, n - 1);
      assert Next(tr[n - 1], evs[n - 1], tr[n]);
      StepKeeps(tr[n - 1], evs[n - 1]);
    }
  }

  /** Process i is in one place only, and its state is the name of that place. */
  ghost predicate OnePlace(s: Sys, i: nat)
    requires i < |s.procs|
  {
    var st := s.procs[i].state;
    && (i == s.current <==> st == Running)
    && (i in s.runnable <==> st == Runnable)
    && (i in s.blocked <==> st == Blocked)
    && (i in s.free <==> st == Dead)
    && (i in s.waiting <==> st == SemBlocked)
  }

  ghost predicate Nowhere(s: Sys, i: nat) {
    i !in s.runnable && i !in s.blocked && i !in s.free && i !in s.waiting
  }

  lemma InvPartition(s: Sys)
    requires Inv(s)
    ensures s.Separate() && Nowhere(s, IDLE)
    ensures forall i :: 0 < i < MAX_PCB_NUM ==> OnePlace(s, i)
    ensures s.procs[IDLE].state == if s.current == IDLE then Running else Runnable
  {
    forall i | 0 < i < MAX_PCB_NUM
      ensures OnePlace(s, i)
    {
      assert At(s, i);
    }
    forall st, tt | st != tt
      ensures Apart(s.Queue(st), s.Queue(tt))
    {
      forall i | i in s.Queue(st)
        ensures i !in s.Queue(tt)
      {
        assert 0 < i < MAX_PCB_NUM && At(s, i);
      }
    }
  }

  /** In every state reachable from boot pcb[1..9] are partitioned, and idle is on no list. */
  lemma ReachablePartition(tr: seq<Sys>, evs: seq<Event>, n: nat)
    requires Run(tr, evs) && Boot(tr[0]) && n <= |evs|
    ensures Inv(tr[n]) && tr[n].Separate() && Nowhere(tr[n], IDLE)
    ensures forall i :: 0 < i < MAX_PCB_NUM ==> OnePlace(tr[n], i)
    ensures tr[n].procs[IDLE].state == if tr[n].current == IDLE then Running else Runnable
  {
    BootKeeps();
    RunKeeps(tr, evs, n);
    InvPartition(tr[n]);
  }

  /** A permitted event always has a successor, except a fork that finds pcb[p_num] in use. */
  lemma HaltsOnlyInFork(s: Sys, e: Event)
    requires Inv(s) && Enabled(s, e)
    ensures Ready(s)
    ensures Step(s, e).None? <==> e == ForkCall && s.pnum !in s.free
  {
    InvReady(s);
    if e.SemPostCall? {
      SemPostKeeps(s, e.sem);
    }
    if s.pnum in s.free {
      assert s.free[IndexOf(s.free, s.pnum)] == s.pnum;
    }
  }

  // ---------------------------------------------------------------- time

  ghost predicate RealTick(s: Sys, e: Event) {
    e == Tick && !s.nesting
  }

  /** Number of timer interrupts among the first n events that were not ignored. */
  ghost function Ticks(tr: seq<Sys>, evs: seq<Event>, n: nat): nat
    requires n <= |evs| <= |tr|
  {
    if n == 0 then 0 else Ticks(tr, evs, n - 1) + if RealTick(tr[n - 1], evs[n - 1]) then 1 else 0
  }

  // ---------------------------------------------------------------- bounded waiting

  /** Upper bound on the real ticks until p gets the CPU. */
  ghost function Wait(s: Sys, p: nat): int
    requires s.Sized() && p in s.runnable
  {
    QUANTUM * IndexOf(s.runnable, p) + s.procs[s.current].timeCount
  }

  lemma IndexOfAppend(q: seq<nat>, r: seq<nat>, p: nat)
    requires p in q
    ensures p in q + r && IndexOf(q + r, p) == IndexOf(q, p)
  {
    assert (q + r)[IndexOf(q, p)] == p;
  }

  lemma IndexOfTail(q: seq<nat>, p: nat)
    requires p in q && q[0] != p
    ensures p in q[1..] && IndexOf(q[1..], p) == IndexOf(q, p) - 1
  {
    assert q == [q[0]] + q[1..];
  }

  lemma ScheduleQueue(s: Sys)
    requires s.Sized() && s.MayLeave() && s.runnable != []
    ensures var t := Schedule(s);
      var c := if s.procs[s.current].state == Running && s.current != IDLE then [s.current] else [];
      && t.current == s.runnable[0] && t.runnable == (s.runnable + c)[1..]
      && t.procs[t.current].timeCount == QUANTUM
  {
  }

  /** A dispatch gives p the CPU or moves it one place up and restarts the quantum. */
  lemma ScheduleWait(s: Sys, p: nat)
    requires s.Sized() && s.MayLeave() && p in s.runnable
    ensures var t := Schedule(s);
      t.current == p || (p in t.runnable && Wait(t, p) == QUANTUM * IndexOf(s.runnable, p))
  {
    ScheduleQueue(s);
    var c := if s.procs[s.current].state == Running && s.current != IDLE then [s.current] else [];
    IndexOfAppend(s.runnable, c, p);
    if s.runnable[0] != p {
      IndexOfTail(s.runnable + c, p);
    }
  }

  lemma TimerWait(s: Sys, p: nat)
    requires Inv(s) && Ready(s) && !s.nesting && p in s.runnable
    ensures var t := Timer(s); t.current == p || (p in t.runnable && Wait(t, p) == Wait(s, p) - 1)
  {
    var u := Spend(s);
    WakeupIsFilter(u);
    var t := TryToWakeup(u);
    IndexOfAppend(s.runnable, Sift(u.procs, u.blocked, true), p);
    assert t.procs[t.current].timeCount == s.procs[s.current].timeCount - 1;
    if t.procs[t.current].timeCount == 0 {
      ScheduleWait(t, p);
    }
  }

  lemma LeaveWait(s: Sys, st: PState, p: nat)
    requires s.Sized() && s.procs[s.current].timeCount >= 0 && s.current != IDLE && st !in {Runnable, Running} && p in s.runnable
    ensures var t := Leave(s, st); t.current == p || (p in t.runnable && Wait(t, p) <= Wait(s, p))
  {
    ScheduleWait(s.WithProc(s.current, s.procs[s.current].(state := st)), p);
  }

  lemma SameWait(s: Sys, t: Sys, p: nat)
    requires s.Sized() && t.Sized() && p in s.runnable && t.runnable == s.runnable
    requires t.procs[t.current].timeCount == s.procs[s.current].timeCount
    ensures Wait(t, p) == Wait(s, p)
  {
  }

  lemma PushWait(s: Sys, t: Sys, c: nat, p: nat)
    requires s.Sized() && t.Sized() && p in s.runnable
    requires t.runnable == s.runnable + [c] && t.current == s.current
    requires t.procs[t.current].timeCount == s.procs[s.current].timeCount
    ensures p in t.runnable && Wait(t, p) == Wait(s, p)
  {
    IndexOfAppend(s.runnable, [c], p);
  }

  lemma ForkWait(s: Sys, p: nat)
    requires Inv(s) && Fork(s).Some? && p in s.runnable
    ensures var t := Fork(s).value; t.Sized() && p in t.runnable && Wait(t, p) == Wait(s, p)
  {
    ForkKeeps(s);
    assert At(s, s.pnum);
    PushWait(s, Fork(s).value, s.pnum, p);
  }

  lemma PostWait(s: Sys, a: SemId, p: nat)
    requires Inv(s) && a in s.sems && SemPost(s, a).Some? && p in s.runnable
    ensures var t := SemPost(s, a).value; t.Sized() && p in t.runnable && Wait(t, p) == Wait(s, p)
  {
    SemPostKeeps(s, a);
    if s.sems[a] < 0 {
      PushWait(s, SemPost(s, a).value, s.waiting[0], p);
    }
  }

  /** The events in which the current process gives up the CPU. */
  lemma LeavingWait(s: Sys, e: Event, t: Sys, p: nat)
    requires Inv(s) && Next(s, e, t) && t.Sized() && p in s.runnable && (e.ExitCall? || e.SleepCall? || e.SemWaitCall?)
    ensures t.current == p || (p in t.runnable && Wait(t, p) <= Wait(s, p))
  {
    assert s.procs[s.current].timeCount >= 0;
    hide Inv, Wait, Leave;
    match e
    case ExitCall =>
      SameWait(s, s.(pnum := s.pnum - 1), p);
      LeaveWait(s.(pnum := s.pnum - 1), Dead, p);
    case SleepCall(n) =>
      SameWait(s, s.WithProc(s.current, s.procs[s.current].(sleepTime := n)), p);
      LeaveWait(s.WithProc(s.current, s.procs[s.current].(sleepTime := n)), Blocked, p);
    case SemWaitCall(a) =>
      if s.sems[a] <= 0 {
        SameWait(s, s.(sems := s.sems[a := s.sems[a] - 1]), p);
        LeaveWait(s.(sems := s.sems[a := s.sems[a] - 1]), SemBlocked, p);
      } else {
        SameWait(s, t, p);
      }
  }

  /** No event lengthens the wait of a runnable process, and each real tick shortens it by one. */
  lemma StepWait(s: Sys, e: Event, t: Sys, p: nat)
    requires Inv(s) && Next(s, e, t) && t.Sized() && p in s.runnable
    ensures t.current == p || (p in t.runnable && if RealTick(s, e) then Wait(t, p) == Wait(s, p) - 1 else Wait(t, p) <= Wait(s, p))
  {
    hide Inv, Wait, Leave, Fork, SemPost, SemWait, Exit, Sleep, TryToWakeup, Schedule;
    match e
    case Tick => if s.nesting { SameWait(s, t, p); } else { TimerWait(s, p); }
    case ForkCall => ForkWait(s, p);
    case SemPostCall(a) => PostWait(s, a, p);
    case KeyboardWait(_) => SameWait(s, t, p);
    case SemInitCall(_, _) => SameWait(s, t, p);
    case SemDestroyCall => SameWait(s, t, p);
    case OtherCall => SameWait(s, t, p);
    case _ => LeavingWait(s, e, t, p);
  }

  lemma InvSized(s: Sys)
    requires Inv(s)
    ensures s.Sized()
  {
  }

  /** While p has not run, the ticks gone by and its wait never exceed its first wait. */
  lemma {:induction false} WaitBound(tr: seq<Sys>, evs: seq<Event>, p: nat, n: nat)
    requires Run(tr, evs) && Inv(tr[0]) && p in tr[0].runnable && n <= |evs|
    requires forall j :: 0 <= j <= n ==> tr[j].current != p
    ensures Inv(tr[n]) && p in tr[n].runnable && Ticks(tr, evs, n) + Wait(tr[n], p) <= Wait(tr[0], p)
  {
    hide Step, Inv, Enabled;
    if n > 0 {
      WaitBound(tr, evs, p, n - 1);
      assert Next(tr[n - 1], evs[n - 1], tr[n]);
      StepKeeps(tr[n - 1], evs[n - 1]);
      InvSized(tr[n]);
      StepWait(tr[n - 1], evs[n - 1], tr[n], p);
    }
  }

  /** Round robin: a process at position k of the runnable list runs within 10 * (k + 1) real ticks. */
  lemma BoundedWaiting(tr: seq<Sys>, evs: seq<Event>, k: nat)
    requires Run(tr, evs) && Inv(tr[0]) && k < |tr[0].runnable|
    requires Ticks(tr, evs, |evs|) >= QUANTUM * k + tr[0].procs[tr[0].current].timeCount
    ensures exists j :: 0 <= j <= |evs| && tr[j].current == tr[0].runnable[k]
    ensures QUANTUM * k + tr[0].procs[tr[0].current].timeCount <= QUANTUM * (k + 1) <= 90
  {
    var p := tr[0].runnable[k];
    RunnableShort(tr[0]);
    if forall j :: 0 <= j <= |evs| ==> tr[j].current != p {
      WaitBound(tr, evs, p, |evs|);
      assert false;
    }
  }

  lemma {:induction false} Pigeonhole(q: seq<nat>, n: nat)
    requires NoDup(q) && forall k :: 0 <= k < |q| ==> 0 < q[k] < n
    ensures |q| < n || q == []
    decreases n
  {
    if q != [] {
      assert 0 < q[0] < n;
      if n - 1 in q {
        RemoveNoDup(q, n - 1);
        assert forall x :: x in Remove(q, n - 1) ==> x in q;
        Pigeonhole(Remove(q, n - 1), n - 1);
      } else {
        Pigeonhole(q, n - 1);
      }
    }
  }

  lemma RunnableShort(s: Sys)
    requires Inv(s)
    ensures |s.runnable| < MAX_PCB_NUM && |s.free| < MAX_PCB_NUM && |s.waiting| < MAX_PCB_NUM
  {
    Pigeonhole(s.runnable, MAX_PCB_NUM);
    Pigeonhole(s.free, MAX_PCB_NUM);
    Pigeonhole(s.waiting, MAX_PCB_NUM);
  }
}
