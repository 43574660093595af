/** Reachable states and runs in which the guarantees of the scheduler run out. */
module SchedWitness {
  import opened Seqs
  import opened SchedModel
  import opened SchedInvariant
  import opened SchedRuns
  import opened SchedTheorems
  import opened SemTheorems

  const A: SemId := 1
  const B: SemId := 2

  lemma Extended(tr: seq<Sys>, evs: seq<Event>, e: Event, t: Sys) returns (tr': seq<Sys>, evs': seq<Event>)
    requires Run(tr, evs) && Next(tr[|evs|], e, t)
    ensures Run(tr', evs') && tr' == tr + [t] && evs' == evs + [e] && tr'[|evs'|] == t && tr'[0] == tr[0]
  {
    hide Next;
    tr', evs' := tr + [t], evs + [e];
    forall i | 0 <= i < |evs'|
      ensures Next(tr'[i], evs'[i], tr'[i + 1])
    {
      assert i < |evs| ==> Next(tr[i], evs[i], tr[i + 1]);
    }
  }

  /** The running process alone on the machine: nobody sleeps. */
  ghost predicate Awaken(s: Sys) {
    s.Sized() && s.procs[s.current].state == Running && s.blocked == [] && !s.nesting
  }

  function Left(s: Sys, ticks: int): Sys
    requires s.current < |s.procs|
  {
    s.WithProc(s.current, s.procs[s.current].(timeCount := ticks))
  }

  lemma QuietTick(s: Sys)
    requires Awaken(s)
    ensures var u := Spend(s);
      && u.Sized() && u.MayLeave()
      && Next(s, Tick, if u.procs[u.current].timeCount == 0 then Schedule(u) else u)
  {
    assert TryToWakeup(Spend(s)) == Spend(s);
  }

  lemma {:induction false} Spending(tr: seq<Sys>, evs: seq<Event>, m: nat) returns (tr': seq<Sys>, evs': seq<Event>)
    requires Run(tr, evs) && Awaken(tr[|evs|]) && tr[|evs|].procs[tr[|evs|].current].timeCount > m
    ensures Run(tr', evs') && tr'[0] == tr[0]
    ensures tr'[|evs'|] == Left(tr[|evs|], tr[|evs|].procs[tr[|evs|].current].timeCount - m)
  {
    var s := tr[|evs|];
    if m == 0 {
      tr', evs' := tr, evs;
      assert Left(s, s.procs[s.current].timeCount) == s;
    } else {
      tr', evs' := Spending(tr, evs, m - 1);
      var u := tr'[|evs'|];
      QuietTick(u);
      tr', evs' := Extended(tr', evs', Tick, Spend(u));
      assert Spend(u) == Left(s, s.procs[s.current].timeCount - m);
    }
  }

  // ---------------------------------------------------------------- three processes and two semaphores

  const IDLING: Proc := IDLE_PROC.(state := Runnable, timeCount := 0)

  function User(state: PState, timeCount: int, pid: nat, psem: Option<SemId>): Proc {
    Proc(state, timeCount, 0, pid, if pid == 1 then -1 else 1, psem)
  }

  function Dead(k: nat): seq<Proc> {
    seq(k, _ => DEAD_PROC)
  }

  /** The first process has just got the CPU. */
  function One(): Sys {
    Sys([IDLING, User(Running, QUANTUM, 1, None)] + Dead(8), [], [], Upto(2, MAX_PCB_NUM), [], 1, 2, map[], false)
  }

  /** It has one tick left, has made two semaphores of value 1 and forked twice. */
  function Three(): Sys {
    Sys([IDLING, User(Running, 1, 1, Some(B)), User(Runnable, QUANTUM, 2, Some(B)), User(Runnable, QUANTUM, 3, Some(B))] + Dead(6),
        [2, 3], [], Upto(4, MAX_PCB_NUM), [], 1, 4, map[A := 1, B := 1], false)
  }

  lemma BootToOne() returns (tr: seq<Sys>, evs: seq<Event>)
    ensures Run(tr, evs) && Boot(tr[0]) && tr[|evs|] == One()
  {
    BootKeeps();
    var s := Prepare(Initial()).value;
    var free: seq<nat> := Upto(1, MAX_PCB_NUM);
    assert Remove<nat>(free, 1) == Upto(2, MAX_PCB_NUM) by { assert IndexOf(free, 1) == 0; }
    tr, evs := Spending([s], [], 9);
    var u := tr[|evs|];
    QuietTick(u);
    tr, evs := Extended(tr, evs, Tick, Schedule(Spend(u)));
    assert tr[|evs|].procs == One().procs;
  }

  lemma Forked(s: Sys, k: nat)
    requires s.Sized() && 2 <= k < MAX_PCB_NUM && s.pnum == k && s.free == Upto(k, MAX_PCB_NUM)
    requires Ready(s) && Enabled(s, ForkCall)
    ensures Next(s, ForkCall, s.WithProc(k, Child(s)).(free := Upto(k + 1, MAX_PCB_NUM), runnable := s.runnable + [k], pnum := k + 1))
  {
    var free: seq<nat> := s.free;
    assert free[0] == k && k in free;
    assert IndexOf(free, k) == 0;
    assert Remove<nat>(free, k) == Upto(k + 1, MAX_PCB_NUM);
  }

  /** The first process with one tick left and the semaphores it has made. */
  function Alone(sems: map<SemId, int>, psem: Option<SemId>): Sys {
    Sys([IDLING, User(Running, 1, 1, psem)] + Dead(8), [], [], Upto(2, MAX_PCB_NUM), [], 1, 2, sems, false)
  }

  function Pair(): Sys {
    Sys([IDLING, User(Running, 1, 1, Some(B)), User(Runnable, QUANTUM, 2, Some(B))] + Dead(7),
        [2], [], Upto(3, MAX_PCB_NUM), [], 1, 3, map[A := 1, B := 1], false)
  }

  lemma MakesSems()
    ensures Left(One(), 1) == Alone(map[], None)
    ensures Next(Alone(map[], None), SemInitCall(A, 1), Alone(map[A := 1], Some(A)))
    ensures Next(Alone(map[A := 1], Some(A)), SemInitCall(B, 1), Alone(map[A := 1, B := 1], Some(B)))
  {
    assert Left(One(), 1).procs == Alone(map[], None).procs;
    assert SemInit(Alone(map[], None), A, 1).procs == Alone(map[A := 1], Some(A)).procs;
    assert SemInit(Alone(map[A := 1], Some(A)), B, 1).procs == Alone(map[A := 1, B := 1], Some(B)).procs;
  }

  lemma MakesPair()
    ensures Next(Alone(map[A := 1, B := 1], Some(B)), ForkCall, Pair())
  {
    var s := Alone(map[A := 1, B := 1], Some(B));
    Forked(s, 2);
    assert s.procs[2 := Child(s)] == Pair().procs && s.runnable + [2] == Pair().runnable;
  }

  lemma MakesThree()
    ensures Next(Pair(), ForkCall, Three())
  {
    Forked(Pair(), 3);
    assert Pair().procs[3 := Child(Pair())] == Three().procs && Pair().runnable + [3] == Three().runnable;
  }

  /** Three() can be reached from boot. */
  lemma BootToThree() returns (tr: seq<Sys>, evs: seq<Event>)
    ensures Run(tr, evs) && Boot(tr[0]) && tr[|evs|] == Three() && Inv(Three())
  {
    hide Next, Left, Boot, Inv;
    tr, evs := BootToLast();
    MakesSems();
    MakesPair();
    MakesThree();
    tr, evs := Extended(tr, evs, SemInitCall(A, 1), Alone(map[A := 1], Some(A)));
    tr, evs := Extended(tr, evs, SemInitCall(B, 1), Alone(map[A := 1, B := 1], Some(B)));
    tr, evs := Extended(tr, evs, ForkCall, Pair());
    tr, evs := Extended(tr, evs, ForkCall, Three());
    BootOwn(tr[0]);
    RunKeeps(tr, evs, |evs|);
  }

  lemma BootToLast() returns (tr: seq<Sys>, evs: seq<Event>)
    ensures Run(tr, evs) && Boot(tr[0]) && tr[|evs|] == Alone(map[], None)
  {
    tr, evs := BootToOne();
    tr, evs := Spending(tr, evs, 9);
    MakesSems();
  }

  /** Process 1 exits while 2 and 3 live: the next fork halts although seven PCBs are free. */
  lemma ForkGap() returns (tr: seq<Sys>, evs: seq<Event>)
    ensures Run(tr, evs) && Boot(tr[0]) && tr[|evs|].Sized()
    ensures tr[|evs|].pnum == 3 && |tr[|evs|].free| == 7 && Fork(tr[|evs|]) == None
  {
    tr, evs := BootToThree();
    FirstExits();
    tr, evs := Extended(tr, evs, ExitCall, Exit(Three()));
  }

  lemma FirstExits()
    ensures var t := Exit(Three()); Next(Three(), ExitCall, t) && t.pnum == 3 && t.free == Upto(4, MAX_PCB_NUM) + [1]
  {
  }

  // ---------------------------------------------------------------- a V that lets a process past another semaphore's P

  /** After P(a) and P(b) by process 1 its quantum ends. */
  function Entered(): Sys {
    Sys([IDLING, User(Runnable, 0, 1, Some(B)), User(Running, QUANTUM, 2, Some(B)), User(Runnable, QUANTUM, 3, Some(B))] + Dead(6),
        [3, 1], [], Upto(4, MAX_PCB_NUM), [], 2, 4, map[A := 0, B := 0], false)
  }

  /** Process 2 waits for a and process 3 for b. */
  function Queued(): Sys {
    Sys([IDLING, User(Running, QUANTUM, 1, Some(B)), User(SemBlocked, QUANTUM, 2, Some(B)), User(SemBlocked, QUANTUM, 3, Some(B))] + Dead(6),
        [], [], Upto(4, MAX_PCB_NUM), [2, 3], 1, 4, map[A := -1, B := -1], false)
  }

  function Half(): Sys {
    Sys([IDLING, User(Runnable, 0, 1, Some(B)), User(SemBlocked, QUANTUM, 2, Some(B)), User(Running, QUANTUM, 3, Some(B))] + Dead(6),
        [1], [], Upto(4, MAX_PCB_NUM), [2], 3, 4, map[A := -1, B := 0], false)
  }

  function Holding(a: int, b: int): Sys {
    Three().(sems := map[A := a, B := b])
  }

  lemma Enters()
    ensures Next(Three(), SemWaitCall(A), Holding(0, 1)) && Next(Holding(0, 1), SemWaitCall(B), Holding(0, 0))
  {
    assert Three().sems[A := 0] == Holding(0, 1).sems && Holding(0, 1).sems[B := 0] == Holding(0, 0).sems;
  }

  lemma QuantumEnds()
    ensures Next(Holding(0, 0), Tick, Entered())
  {
    QuietTick(Holding(0, 0));
    var t := Schedule(Spend(Holding(0, 0)));
    assert t.procs == Entered().procs && t.runnable == Entered().runnable;
  }

  lemma WaitsFirst()
    ensures Next(Entered(), SemWaitCall(A), Half())
  {
    var t := SemWait(Entered(), A);
    assert t.procs == Half().procs && t.runnable == Half().runnable && t.waiting == Half().waiting && t.sems == Half().sems;
  }

  lemma WaitsSecond()
    ensures Next(Half(), SemWaitCall(B), Queued())
  {
    var t := SemWait(Half(), B);
    assert t.procs == Queued().procs && t.runnable == Queued().runnable && t.waiting == Queued().waiting && t.sems == Queued().sems;
  }

  function Passed(): Sys {
    Sys([IDLING, User(Running, QUANTUM, 1, Some(B)), User(Runnable, QUANTUM, 2, Some(B)), User(SemBlocked, QUANTUM, 3, Some(B))] + Dead(6),
        [2], [], Upto(4, MAX_PCB_NUM), [3], 1, 4, map[A := -1, B := 0], false)
  }

  lemma Posted()
    ensures Next(Queued(), SemPostCall(B), Passed())
  {
    var t := SemPost(Queued(), B).value;
    assert t.procs == Passed().procs && t.runnable == Passed().runnable && t.waiting == Passed().waiting && t.sems == Passed().sems;
  }

  const EVENTS: seq<Event> := [SemWaitCall(A), SemWaitCall(B), Tick, SemWaitCall(A), SemWaitCall(B), SemPostCall(B)]

  function Trace(): seq<Sys> {
    [Three(), Holding(0, 1), Holding(0, 0), Entered(), Half(), Queued(), Passed()]
  }

  lemma TraceRuns()
    ensures Run(Trace(), EVENTS)
  {
    hide Next, Three, Holding, Entered, Half, Queued, Passed;
    Enters();
    QuantumEnds();
    WaitsFirst();
    WaitsSecond();
    Posted();
    forall i | 0 <= i < |EVENTS|
      ensures Next(Trace()[i], EVENTS[i], Trace()[i + 1])
    {
      assert i == 0 || i == 1 || i == 2 || i == 3 || i == 4 || i == 5;
    }
  }

  lemma TraceCalls()
    ensures Calls(Trace(), EVENTS, [], 3) == [] && Calls(Trace(), EVENTS, [], 4) == [A] && Calls(Trace(), EVENTS, [], 5) == [A, B]
    ensures forall i :: 0 <= i <= 3 ==> Calls(Trace(), EVENTS, [], i) == []
  {
    assert Calls(Trace(), EVENTS, [], 0) == [];
    assert Calls(Trace(), EVENTS, [], 1) == [];
    assert Calls(Trace(), EVENTS, [], 2) == [];
  }

  lemma TraceInsideA()
    ensures Inside(Trace(), EVENTS, [], A, 0) == {} && Inside(Trace(), EVENTS, [], A, 6) == {1, 2}
    ensures forall i :: 1 <= i <= 5 ==> Inside(Trace(), EVENTS, [], A, i) == {1}
  {
    TraceCalls();
    hide Calls;
    assert Inside(Trace(), EVENTS, [], A, 0) == {};
    assert Inside(Trace(), EVENTS, [], A, 1) == {1};
    assert Inside(Trace(), EVENTS, [], A, 2) == {1};
    assert Inside(Trace(), EVENTS, [], A, 3) == {1};
    assert Inside(Trace(), EVENTS, [], A, 4) == {1};
    assert Inside(Trace(), EVENTS, [], A, 5) == {1};
  }

  lemma TraceInsideB()
    ensures forall i :: 0 <= i <= 1 ==> Inside(Trace(), EVENTS, [], B, i) == {}
    ensures forall i :: 2 <= i <= 5 ==> Inside(Trace(), EVENTS, [], B, i) == {1}
  {
    TraceCalls();
    hide Calls;
    assert Inside(Trace(), EVENTS, [], B, 0) == {};
    assert Inside(Trace(), EVENTS, [], B, 1) == {};
    assert Inside(Trace(), EVENTS, [], B, 2) == {1};
    assert Inside(Trace(), EVENTS, [], B, 3) == {1};
    assert Inside(Trace(), EVENTS, [], B, 4) == {1};
    assert Inside(Trace(), EVENTS, [], B, 5) == {1};
  }

  /**
   Two semaphores of value 1, every process disciplined, in a state reached from boot: process 1 is
   past P(a) and P(b), 2 waits for a, 3 for b, and the V(b) of 1 lets 2 past P(a) as well.
   */
  lemma ExclusionFails() returns (tr: seq<Sys>, evs: seq<Event>)
    ensures Run(tr, evs) && Boot(tr[0]) && tr[|evs|] == Trace()[0]
    ensures Run(Trace(), EVENTS) && Inv(Trace()[0]) && Own(Trace()[0], []) && DisciplinedRun(Trace(), EVENTS)
    ensures A in Trace()[0].sems && |Inside(Trace(), EVENTS, [], A, 6)| == 2 > Trace()[0].sems[A]
    ensures Posts(EVENTS, A, 6) == 0 && !HitsAt(Trace(), EVENTS, [], 5)
  {
    hide Run, Inv, Boot, Own, DisciplinedRun, HitsAt, Inside, Posts, Calls;
    tr, evs := BootToThree();
    TraceRuns();
    TraceInsideA();
    TraceDisciplined();
    TraceAstray();
    assert |{1, 2}| == |{1}| + |{2}|;
  }

  lemma TraceAstray()
    ensures Own(Trace()[0], []) && Posts(EVENTS, A, 6) == 0 && !HitsAt(Trace(), EVENTS, [], 5)
  {
    TraceCalls();
    assert Posts(EVENTS, A, 1) == 0;
    assert Posts(EVENTS, A, 3) == 0;
    assert Posts(EVENTS, A, 5) == 0;
  }

  lemma TraceDisciplined()
    ensures DisciplinedRun(Trace(), EVENTS)
  {
    TraceInsideA();
    TraceInsideB();
    forall a, i | a in Trace()[0].sems && 0 <= i < |EVENTS|
      ensures Disciplined(Trace()[i], EVENTS[i], a, Inside(Trace(), EVENTS, [], a, i))
    {
      assert a == A || a == B;
      assert i == 0 || i == 1 || i == 2 || i == 3 || i == 4 || i == 5;
    }
  }

  /** sem_init while process 2 waits: it stays blocked for good, on no list. */
  lemma SemInitForgets() returns (tr: seq<Sys>, evs: seq<Event>)
    ensures Run(tr, evs) && Boot(tr[0]) && tr[|evs|] == Half() && Half().waiting == [2] && Inv(Half())
    ensures var t := SemInit(Half(), A, 1); t.procs[2].state == SemBlocked && t.current != 2 && Nowhere(t, 2) && !Inv(t)
  {
    hide Next, Boot, Inv;
    tr, evs := BootToThree();
    Enters();
    QuantumEnds();
    WaitsFirst();
    tr, evs := Extended(tr, evs, SemWaitCall(A), Holding(0, 1));
    tr, evs := Extended(tr, evs, SemWaitCall(B), Holding(0, 0));
    tr, evs := Extended(tr, evs, Tick, Entered());
    tr, evs := Extended(tr, evs, SemWaitCall(A), Half());
    BootOwn(tr[0]);
    RunKeeps(tr, evs, |evs|);
    SemInitExactly(Half(), A, 1);
  }
}
