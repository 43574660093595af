/**
 The process scheduler as a state machine over values.  Every interrupt handler of the
 kernel is one step.  The class Scheduler implements these functions over linked PCBs.

 A process is named by its index in the PCB table; index 0 stands for the idle PCB (slot 0
 of the table in the kernel is never used).
 */
module SchedModel {
  import opened Seqs

  const MAX_PCB_NUM: nat := 10
  const QUANTUM: nat := 10
  const IDLE: nat := 0

  datatype PState = Runnable | Running | Blocked | SemBlocked | Dead

  /** The address of a semaphore in user memory. */
  type SemId = nat

  const INT_MIN: int := -0x8000_0000
  const INT_MAX: int := 0x7fff_ffff
  type Int32 = x: int | INT_MIN <= x <= INT_MAX

  datatype Proc = Proc(state: PState, timeCount: int, sleepTime: Int32, pid: int, ppid: int, psem: Option<SemId>)

  datatype Sys = Sys(
    procs: seq<Proc>,
    runnable: seq<nat>,
    blocked: seq<nat>,
    free: seq<nat>,
    waiting: seq<nat>,  // the list headed by dummysem, shared by all semaphores
    current: nat,
    pnum: int,
    sems: map<SemId, int>,
    nesting: bool)
  {
    /** The list on which a process in state st is kept. */
    function Queue(st: PState): seq<nat> {
      match st
      case Runnable => runnable
      case Blocked => blocked
      case Dead => free
      case SemBlocked => waiting
      case Running => []
    }

    function WithQueue(st: PState, q: seq<nat>): Sys {
      match st
      case Runnable => this.(runnable := q)
      case Blocked => this.(blocked := q)
      case Dead => this.(free := q)
      case SemBlocked => this.(waiting := q)
      case Running => this
    }

    function WithProc(i: nat, p: Proc): Sys
      requires i < |procs|
    {
      this.(procs := procs[i := p])
    }

    /** Lists hold indices of the PCB table; index 0, idle, is on none of them. */
    ghost predicate Sized() {
      && |procs| == MAX_PCB_NUM
      && current < MAX_PCB_NUM
      && InTable(runnable) && InTable(blocked) && InTable(free) && InTable(waiting)
    }

    ghost predicate Listed(i: nat) {
      i in runnable || i in blocked || i in free || i in waiting
    }

    /** Idle never exits, sleeps or blocks; whoever is current is not also waiting for the CPU. */
    ghost predicate MayLeave()
      requires Sized()
    {
      procs[current].state != Runnable && (current == IDLE ==> procs[current].state == Running)
    }

    /** No process is on two lists, or twice on one. */
    ghost predicate Separate() {
      && Sized()
      && (forall st :: NoDup(Queue(st)))
      && forall st, tt :: st != tt ==> Apart(Queue(st), Queue(tt))
    }
  }

  ghost predicate InTable(q: seq<nat>) {
    forall k :: 0 <= k < |q| ==> 0 < q[k] < MAX_PCB_NUM
  }

  /** Replacing one list by one whose elements were on it, or on no list. */
  lemma WithQueueSeparate(s: Sys, st: PState, q: seq<nat>)
    requires s.Separate() && st != Running && InTable(q) && NoDup(q)
    requires forall i :: i in q ==> i in s.Queue(st) || !s.Listed(i)
    ensures s.WithQueue(st, q).Separate()
    ensures forall tt :: s.WithQueue(st, q).Queue(tt) == if tt == st then q else s.Queue(tt)
  {
    var t := s.WithQueue(st, q);
    assert forall tt :: t.Queue(tt) == if tt == st then q else s.Queue(tt);
  }

  ghost predicate Apart(a: seq<nat>, b: seq<nat>) {
    forall i :: i in a ==> i !in b
  }

  /** One decrement of a 32-bit signed counter. */
  function Decrement(x: Int32): Int32 {
    if x == INT_MIN then INT_MAX else x - 1
  }

  // ---------------------------------------------------------------- the kernel's functions

  /** A process taken off the CPU goes to the list its state names; idle goes nowhere. */
  function Park(s: Sys): (t: Sys)
    requires s.Sized() && s.MayLeave()
    ensures t.Sized()
  {
    var c := s.current;
    var p := s.procs[c];
    if p.state == Running then
      var t := s.WithProc(c, p.(state := Runnable));
      if c == IDLE then t else t.WithQueue(Runnable, t.runnable + [c])
    else s.WithQueue(p.state, s.Queue(p.state) + [c])
  }

  function Dispatch(s: Sys): (t: Sys)
    requires s.Sized() && s.runnable != []
    ensures t.Sized()
  {
    var p := s.runnable[0];
    assert p in s.runnable;
    s.WithProc(p, s.procs[p].(state := Running, timeCount := QUANTUM, sleepTime := 0))
    .(runnable := s.runnable[1..], current := p)
  }

  function Schedule(s: Sys): (t: Sys)
    requires s.Sized() && s.MayLeave()
    ensures t.Sized()
  {
    if s.runnable != [] then Dispatch(Park(s))
    else if s.procs[s.current].state == Running then
      s.WithProc(s.current, s.procs[s.current].(timeCount := QUANTUM))
    else
      var t := Park(s);
      t.WithProc(IDLE, t.procs[IDLE].(state := Running, timeCount := QUANTUM)).(current := IDLE)
  }

  /** A sleeper is due when the next decrement of its counter gives zero. */
  predicate Due(procs: seq<Proc>, i: nat) {
    i < |procs| && Decrement(procs[i].sleepTime) == 0
  }

  /** The elements of ids for which Due has the given answer, in order. */
  function Sift(procs: seq<Proc>, ids: seq<nat>, due: bool): (out: seq<nat>)
    ensures forall i :: i in out <==> i in ids && Due(procs, i) == due
    ensures InTable(ids) ==> InTable(out)
  {
    if ids == [] then []
    else
      var last := ids[|ids| - 1];
      Sift(procs, ids[..|ids| - 1], due) + if Due(procs, last) == due then [last] else []
  }

  /** PCB table after every process in ids has slept one more tick. */
  function Slept(procs: seq<Proc>, ids: seq<nat>): (out: seq<Proc>)
    ensures |out| == |procs|
  {
    seq(|procs|, i requires 0 <= i < |procs| =>
      if i in ids then procs[i].(sleepTime := Decrement(procs[i].sleepTime),
                                 state := if Due(procs, i) then Runnable else procs[i].state)
      else procs[i])
  }

  /** The state after the first k sleepers have been looked at. */
  function WakeupPrefix(s: Sys, k: nat): Sys
    requires k <= |s.blocked|
  {
    var seen := s.blocked[..k];
    s.(procs := Slept(s.procs, seen),
       blocked := Sift(s.procs, seen, false) + s.blocked[k..],
       runnable := s.runnable + Sift(s.procs, seen, true))
  }

  /** One turn of the loop of try_to_wakeup, for sleeper i. */
  function WakeupOne(t: Sys, i: nat): Sys
    requires i < |t.procs|
  {
    var u := t.WithProc(i, t.procs[i].(sleepTime := Decrement(t.procs[i].sleepTime)));
    if Due(t.procs, i) then
      u.WithProc(i, u.procs[i].(state := Runnable)).(blocked := Remove(t.blocked, i), runnable := t.runnable + [i])
    else u
  }

  lemma SleptOne(procs: seq<Proc>, ids: seq<nat>, i: nat)
    requires i !in ids && i < |procs|
    ensures var t := Slept(procs, ids);
      && t[i] == procs[i]
      && Slept(procs, ids + [i]) == t[i := procs[i].(sleepTime := Decrement(procs[i].sleepTime),
                                                     state := if Due(procs, i) then Runnable else procs[i].state)]
  {
  }

  lemma SiftOne(procs: seq<Proc>, ids: seq<nat>, i: nat, due: bool)
    ensures Sift(procs, ids + [i], due) == if Due(procs, i) == due then Sift(procs, ids, due) + [i] else Sift(procs, ids, due)
  {
    assert (ids + [i])[..|ids|] == ids;
  }

  lemma RemoveMiddle(a: seq<nat>, i: nat, b: seq<nat>)
    requires i !in a
    ensures Remove(a + ([i] + b), i) == a + b
  {
    var q := a + ([i] + b);
    assert q[|a|] == i;
    assert forall j :: 0 <= j < |a| ==> q[j] in a;
    assert IndexOf(q, i) == |a|;
  }

  lemma WakeupTurn(s: Sys, k: nat)
    requires s.Sized() && NoDup(s.blocked) && k < |s.blocked|
    ensures s.blocked[k] < |s.procs| && WakeupPrefix(s, k).procs[s.blocked[k]] == s.procs[s.blocked[k]]
    ensures WakeupPrefix(s, k + 1) == WakeupOne(WakeupPrefix(s, k), s.blocked[k])
  {
    hide Sift, Slept, Remove;
    var seen, i, rest := s.blocked[..k], s.blocked[k], s.blocked[k + 1..];
    assert s.blocked[..k + 1] == seen + [i] && s.blocked[k..] == [i] + rest;
    var kept := Sift(s.procs, seen, false);
    SleptOne(s.procs, seen, i);
    SiftOne(s.procs, seen, i, false);
    SiftOne(s.procs, seen, i, true);
    if Due(s.procs, i) {
      RemoveMiddle(kept, i, rest);
    } else {
      assert kept + [i] + rest == kept + ([i] + rest);
    }
  }

  lemma WakeupStart(s: Sys)
    ensures WakeupPrefix(s, 0) == s
  {
    assert s.blocked[..0] == [];
    assert Slept(s.procs, []) == s.procs;
    assert s.runnable + [] == s.runnable;
  }

  lemma WakeupOneSized(t: Sys, i: nat)
    requires t.Sized() && 0 < i < MAX_PCB_NUM
    ensures WakeupOne(t, i).Sized()
  {
    if i in t.blocked {
      var k := IndexOf(t.blocked, i);
      assert Remove(t.blocked, i) == DropAt(t.blocked, k);
    }
  }

  /** The loop of try_to_wakeup over the given sleepers, one turn after the other. */
  function WakeEach(s: Sys, ids: seq<nat>): (t: Sys)
    requires s.Sized() && InTable(ids)
    ensures t.Sized() && t == s.(procs := t.procs, blocked := t.blocked, runnable := t.runnable)
    ensures forall i :: 0 <= i < |s.procs| && i !in ids ==> t.procs[i] == s.procs[i]
    decreases |ids|
  {
    if ids == [] then s
    else
      WakeupOneSized(s, ids[0]);
      WakeEach(WakeupOne(s, ids[0]), ids[1..])
  }

  function TryToWakeup(s: Sys): (t: Sys)
    requires s.Sized()
    ensures t.Sized()
  {
    WakeEach(s, s.blocked)
  }

  /** The current process uses up one tick of its quantum. */
  function Spend(s: Sys): Sys
    requires s.Sized()
  {
    s.WithProc(s.current, s.procs[s.current].(timeCount := s.procs[s.current].timeCount - 1))
  }

  function Timer(s: Sys): (t: Sys)
    requires s.Sized() && s.procs[s.current].state == Running && s.current !in s.blocked
  {
    if s.nesting then s
    else
      var t := TryToWakeup(Spend(s));
      if t.procs[t.current].timeCount == 0 then Schedule(t) else t
  }

  /** Give up the CPU in state st. */
  function Leave(s: Sys, st: PState): Sys
    requires s.Sized() && s.current != IDLE && st != Runnable
  {
    Schedule(s.WithProc(s.current, s.procs[s.current].(state := st)))
  }

  function Exit(s: Sys): Sys
    requires s.Sized() && s.current != IDLE
  {
    Leave(s.(pnum := s.pnum - 1), Dead)
  }

  function Sleep(s: Sys, ticks: Int32): Sys
    requires s.Sized() && s.current != IDLE
  {
    Leave(s.WithProc(s.current, s.procs[s.current].(sleepTime := ticks)), Blocked)
  }

  /** The first two thirds of fork: the child is pcb[p_num], wherever it is. */
  function Child(s: Sys): Proc
    requires s.current < |s.procs|
  {
    Proc(Runnable, QUANTUM, 0, s.pnum, s.procs[s.current].pid, s.procs[s.current].psem)
  }

  /** None when the kernel halts because pcb[p_num] is not on the free list. */
  function Fork(s: Sys): Option<Sys>
    requires s.Sized()
  {
    if 0 <= s.pnum && s.pnum in s.free then
      Some(s.WithProc(s.pnum, Child(s)).(free := Remove<nat>(s.free, s.pnum), runnable := s.runnable + [s.pnum], pnum := s.pnum + 1))
    else None
  }

  function SemInit(s: Sys, sem: SemId, value: int): Sys
    requires s.Sized()
  {
    s.WithProc(s.current, s.procs[s.current].(psem := Some(sem))).(sems := s.sems[sem := value], waiting := [])
  }

  function SemDestroy(s: Sys): Sys
    requires s.Sized()
  {
    s.WithProc(s.current, s.procs[s.current].(psem := None))
  }

  function SemWait(s: Sys, sem: SemId): Sys
    requires s.Sized() && s.current != IDLE && sem in s.sems
  {
    var t := s.(sems := s.sems[sem := s.sems[sem] - 1]);
    if t.sems[sem] < 0 then Leave(t, SemBlocked) else t
  }

  /** None when the kernel halts because the semaphore is negative and nobody waits. */
  function SemPost(s: Sys, sem: SemId): Option<Sys>
    requires s.Sized() && sem in s.sems
  {
    var t := s.(sems := s.sems[sem := s.sems[sem] + 1]);
    if s.sems[sem] >= 0 then Some(t)
    else if s.waiting == [] then None
    else Some(Woken(t))
  }

  /** The head of the wait list becomes the tail of the runnable list. */
  function Woken(s: Sys): Sys
    requires s.Sized() && s.waiting != []
  {
    var p := s.waiting[0];
    assert p in s.waiting;
    s.WithProc(p, s.procs[p].(state := Runnable)).(waiting := s.waiting[1..], runnable := s.runnable + [p])
  }

  // ---------------------------------------------------------------- start of the kernel

  const DEAD_PROC: Proc := Proc(Dead, 0, 0, -1, -1, None)
  const IDLE_PROC: Proc := Proc(Running, QUANTUM, 0, 0, 0, None)

  function Upto(lo: nat, hi: nat): (ids: seq<nat>)
    requires lo <= hi
    ensures |ids| == hi - lo && forall k :: 0 <= k < hi - lo ==> ids[k] == lo + k
  {
    seq(hi - lo, k requires 0 <= k => lo + k)
  }

  /** After initPcb, which does not set the ppid of idle. */
  function InitialOver(ppid: int): Sys {
    Sys([IDLE_PROC.(ppid := ppid)] + seq(MAX_PCB_NUM - 1, _ => DEAD_PROC), [], [], Upto(1, MAX_PCB_NUM), [], IDLE, 1, map[], false)
  }

  /** After initPcb on zeroed storage. */
  function Initial(): Sys {
    InitialOver(0)
  }

  /** During initPcb, when pcb[1..k] have been put on the free list. */
  function Booting(procs: seq<Proc>, k: nat): Sys
    requires 1 <= k <= MAX_PCB_NUM == |procs|
  {
    Sys(procs[..1] + seq(k - 1, _ => DEAD_PROC) + procs[k..], [], [], Upto(1, k), [], IDLE, 1, map[], false)
  }

  lemma BootingTurn(procs: seq<Proc>, k: nat)
    requires 1 <= k < MAX_PCB_NUM == |procs|
    ensures |Booting(procs, k).procs| == MAX_PCB_NUM && !Booting(procs, k).Listed(k)
    ensures Booting(procs, k + 1) == Booting(procs, k).WithProc(k, DEAD_PROC).(free := Booting(procs, k).free + [k])
  {
  }

  lemma BootingEnds(procs: seq<Proc>)
    requires |procs| == MAX_PCB_NUM
    ensures Booting(procs, MAX_PCB_NUM).WithProc(IDLE, IDLE_PROC.(ppid := procs[IDLE].ppid)) == InitialOver(procs[IDLE].ppid)
    ensures Booting(procs, MAX_PCB_NUM).procs[IDLE].ppid == procs[IDLE].ppid
  {
  }

  /** preparePCB: the first user process. */
  function Prepare(s: Sys): Option<Sys>
    requires s.Sized()
  {
    if 0 <= s.pnum && s.pnum in s.free then
      Some(s.WithProc(s.pnum, s.procs[s.pnum].(state := Runnable, timeCount := QUANTUM, sleepTime := 0, pid := s.pnum, ppid := -1))
            .(free := Remove<nat>(s.free, s.pnum), runnable := s.runnable + [s.pnum], pnum := s.pnum + 1))
    else None
  }
}
