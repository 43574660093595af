/** The scheduler over linked PCBs.  Every method does what its function in SchedModel says. */
module Scheduler {
  import opened Seqs
  import opened SchedModel
  import opened SchedInvariant
  import opened SchedRuns
  import opened SemTheorems
  import opened Lists

  /** A semaphore in user memory: its value and the list its waiters go to. */
  datatype Sem = Sem(value: int, list: PCB)

  class Kernel {
    const pcb: seq<PCB>  // pcb[0] is the idle PCB
    const runnableList: PCB
    const blockedList: PCB
    const freeList: PCB
    const dummysem: PCB
    var current: PCB
    var pNum: int
    var intrNesting: bool
    var sems: map<SemId, Sem>

    ghost var abs: Sys

    /** The kernel's static storage. */
    constructor (pcb: seq<PCB>, dummy1: PCB, dummy2: PCB, dummy3: PCB, dummysem: PCB)
      requires |pcb| == MAX_PCB_NUM && NoDup(pcb) && NoDup([dummy1, dummy2, dummy3, dummysem])
      requires dummy1 !in pcb && dummy2 !in pcb && dummy3 !in pcb && dummysem !in pcb
      ensures Static() && this.pcb == pcb && sems == map[]
      ensures runnableList == dummy1 && blockedList == dummy2 && freeList == dummy3 && this.dummysem == dummysem
    {
      this.pcb := pcb;
      runnableList, blockedList, freeList, this.dummysem := dummy1, dummy2, dummy3, dummysem;
      current, sems := pcb[IDLE], map[];
    }

    ghost function Head(st: PState): PCB
      requires st != Running
    {
      match st
      case Runnable => runnableList
      case Blocked => blockedList
      case Dead => freeList
      case SemBlocked => dummysem
    }

    ghost function Nodes(ids: seq<nat>): (xs: seq<PCB>)
      requires Static() && InTable(ids)
      ensures |xs| == |ids| && forall k :: 0 <= k < |ids| ==> xs[k] == pcb[ids[k]]
      ensures forall x :: x in xs ==> x in pcb
    {
      seq(|ids|, k requires 0 <= k < |ids| => pcb[ids[k]])
    }

    /** All PCBs and list heads are different objects. */
    ghost predicate Static() {
      && |pcb| == MAX_PCB_NUM && NoDup(pcb)
      && NoDup([runnableList, blockedList, freeList, dummysem])
      && runnableList !in pcb && blockedList !in pcb && freeList !in pcb && dummysem !in pcb
    }

    ghost predicate Shows(p: PCB, a: Proc)
      reads p`state, p`timeCount, p`sleepTime, p`pid, p`ppid, p`psem
    {
      && p.state == a.state && p.timeCount == a.timeCount && p.sleepTime == a.sleepTime
      && p.pid == a.pid && p.ppid == a.ppid && p.psem == a.psem
    }

    /** The list head for state st and the nodes that should follow it. */
    ghost function Chain(s: Sys, st: PState): (r: seq<PCB>)
      requires st != Running && Static() && s.Sized()
      ensures forall x :: x in r ==> x == Head(st) || x in pcb
    {
      [Head(st)] + Listing(s, st)
    }

    ghost function Listing(s: Sys, st: PState): (xs: seq<PCB>)
      requires Static() && s.Sized()
      ensures forall x :: x in xs ==> x in pcb
    {
      Nodes(s.Queue(st))
    }

    /** The four lists in memory are those of s. */
    ghost predicate Links(s: Sys)
      reads pcb`next, runnableList`next, blockedList`next, freeList`next, dummysem`next
    {
      Static() && s.Sized() && s.Separate() && forall st :: st != Running ==> Linked(Chain(s, st))
    }

    /** The rest of memory is that of s. */
    ghost predicate Fields(s: Sys)
      reads this`current, this`pNum, this`intrNesting, this`sems
      reads pcb`state, pcb`timeCount, pcb`sleepTime, pcb`pid, pcb`ppid, pcb`psem
    {
      && |pcb| == |s.procs| == MAX_PCB_NUM && s.current < MAX_PCB_NUM
      && (forall i :: 0 <= i < MAX_PCB_NUM ==> Shows(pcb[i], s.procs[i]))
      && current == pcb[s.current] && pNum == s.pnum && intrNesting == s.nesting
      && s.sems.Keys == sems.Keys
      && forall a :: a in sems ==> sems[a].value == s.sems[a] && sems[a].list == dummysem
    }

    ghost predicate Valid()
      reads this, pcb, runnableList`next, blockedList`next, freeList`next, dummysem`next
    {
      Links(abs) && Fields(abs)
    }

    lemma SameLinks(s: Sys, t: Sys)
      requires Links(s) && |t.procs| == |s.procs| && t.current < MAX_PCB_NUM
      requires t.runnable == s.runnable && t.blocked == s.blocked && t.free == s.free && t.waiting == s.waiting
      ensures Links(t)
    {
      assert forall st :: t.Queue(st) == s.Queue(st);
      assert forall st :: st != Running ==> Chain(t, st) == Chain(s, st);
    }

    lemma FieldsQueue(s: Sys, st: PState, q: seq<nat>)
      requires Fields(s)
      ensures Fields(s.WithQueue(st, q))
    {
    }

    /** No two entries of the PCB table are the same object. */
    lemma OthersDiffer(i: nat)
      requires Static() && i < MAX_PCB_NUM
      ensures forall j :: 0 <= j < MAX_PCB_NUM && j != i ==> pcb[j] != pcb[i]
    {
      forall j | 0 <= j < MAX_PCB_NUM && j != i
        ensures pcb[j] != pcb[i]
      {
        assert if i < j then pcb[i] != pcb[j] else pcb[j] != pcb[i];
      }
    }

    /** Process i is on the chain of no list but its own. */
    lemma Foreign(s: Sys, tt: PState, i: nat)
      requires Static() && s.Sized() && tt != Running && i < MAX_PCB_NUM && i !in s.Queue(tt)
      ensures pcb[i] !in Chain(s, tt)
    {
      var q := s.Queue(tt);
      forall k | 0 <= k < |q|
        ensures pcb[q[k]] != pcb[i]
      {
        assert q[k] in q;
      }
    }

    lemma ForeignHead(s: Sys, st: PState, tt: PState)
      requires Static() && s.Sized() && st != Running && tt != Running && st != tt
      ensures Head(st) !in Chain(s, tt) && Head(st) !in pcb
    {
      var r := Chain(s, tt);
      assert Head(st) !in pcb && Head(st) != Head(tt) by {
        var heads := [runnableList, blockedList, freeList, dummysem];
        assert heads[0] != heads[1] && heads[0] != heads[2] && heads[0] != heads[3];
        assert heads[1] != heads[2] && heads[1] != heads[3] && heads[2] != heads[3];
      }
      forall k | 0 <= k < |r|
        ensures r[k] != Head(st)
      {
        assert k > 0 ==> r[k] == pcb[s.Queue(tt)[k - 1]];
      }
    }

    /** Nothing of the chain of st is on the chain of tt. */
    lemma ForeignChain(s: Sys, st: PState, tt: PState)
      requires Static() && s.Separate() && st != Running && tt != Running && st != tt
      ensures forall x :: x in Chain(s, st) ==> x !in Chain(s, tt)
    {
      ForeignHead(s, st, tt);
      var q := s.Queue(st);
      forall k | 0 <= k < |q|
        ensures pcb[q[k]] !in Chain(s, tt)
      {
        assert q[k] in q;
        Foreign(s, tt, q[k]);
      }
      var r := Chain(s, st);
      assert forall k :: 0 < k < |r| ==> r[k] == pcb[q[k - 1]];
    }

    lemma Pushed(s: Sys, st: PState, i: nat)
      requires Static() && s.Separate() && st != Running && 0 < i < MAX_PCB_NUM && !s.Listed(i)
      ensures var t := s.WithQueue(st, s.Queue(st) + [i]);
        && t.Sized() && t.Separate()
        && Chain(t, st) == [Head(st)] + (Listing(s, st) + [pcb[i]])
        && forall tt :: tt != Running && tt != st ==> Chain(t, tt) == Chain(s, tt)
    {
      SchedInvariant.Pushed(s.Queue(st), i);
      hide NoDup;
      WithQueueSeparate(s, st, s.Queue(st) + [i]);
      assert Nodes(s.Queue(st) + [i]) == Nodes(s.Queue(st)) + [pcb[i]];
    }

    method Append(ghost st: PState, head: PCB, p: PCB, ghost i: nat)
      requires Valid() && st != Running && head == Head(st)
      requires 0 < i < MAX_PCB_NUM && p == pcb[i] && !abs.Listed(i)
      modifies this`abs, pcb`next, head`next
      ensures Valid() && abs == old(abs).WithQueue(st, old(abs).Queue(st) + [i])
    {
      hide Links, Fields;
      FieldsQueue(abs, st, abs.Queue(st) + [i]);
      AppendLinks(st, head, p, i);
    }

    /** Neither process i nor the tail of the list of st is on another list. */
    lemma TailApart(s: Sys, st: PState, i: nat)
      requires Static() && s.Separate() && s.Sized() && st != Running && i < MAX_PCB_NUM && !s.Listed(i)
      ensures forall tt :: tt != Running ==> pcb[i] !in Chain(s, tt)
      ensures forall tt :: tt != Running && tt != st ==> Last(Head(st), Listing(s, st)) !in Chain(s, tt)
    {
      hide NoDup;
      forall tt | tt != Running
        ensures pcb[i] !in Chain(s, tt)
        ensures tt != st ==> Last(Head(st), Listing(s, st)) !in Chain(s, tt)
      {
        Foreign(s, tt, i);
        if tt != st {
          ForeignChain(s, st, tt);
        }
      }
    }

    /** list_add on one of the kernel's lists. */
    method AppendLinks(ghost st: PState, head: PCB, p: PCB, ghost i: nat)
      requires Links(abs) && st != Running && head == Head(st)
      requires 0 < i < MAX_PCB_NUM && p == pcb[i] && !abs.Listed(i)
      modifies this`abs, pcb`next, head`next
      ensures Links(abs) && abs == old(abs).WithQueue(st, old(abs).Queue(st) + [i])
    {
      hide NoDup, Sys.Sized, Sys.Separate, Linked;
      ghost var s := abs;
      TailApart(abs, st, i);
      Pushed(abs, st, i);
      assert Linked(Chain(abs, st));
      assert Last(head, Listing(abs, st)) == head || Last(head, Listing(abs, st)) in pcb;
      ListAdd(head, p, Listing(abs, st));
      abs := abs.WithQueue(st, abs.Queue(st) + [i]);
      assert Linked(Chain(abs, st));
      forall tt | tt != Running && tt != st
        ensures Linked(Chain(abs, tt))
      {
        assert Chain(abs, tt) == Chain(s, tt);
        LinkedKept(Chain(s, tt));
      }
    }

    lemma NodesIn(ids: seq<nat>, i: nat)
      requires Static() && InTable(ids) && i < MAX_PCB_NUM
      ensures pcb[i] in Nodes(ids) <==> i in ids
      ensures i in ids ==> IndexOf(Nodes(ids), pcb[i]) == IndexOf(ids, i)
    {
      OthersDiffer(i);
      hide NoDup;
      if i in ids {
        assert Nodes(ids)[IndexOf(ids, i)] == pcb[i];
      }
    }

    lemma ListingIn(s: Sys, st: PState, i: nat)
      requires Static() && s.Sized() && i < MAX_PCB_NUM
      ensures pcb[i] in Listing(s, st) <==> i in s.Queue(st)
    {
      NodesIn(s.Queue(st), i);
    }

    lemma NodesRemove(ids: seq<nat>, i: nat)
      requires Static() && InTable(ids) && i in ids
      ensures InTable(Remove(ids, i)) && Nodes(Remove(ids, i)) == Remove(Nodes(ids), pcb[i])
    {
      hide IndexOf, NoDup, DropAt, Static;
      NodesIn(ids, i);
      NodesDrop(ids, IndexOf(ids, i));
    }

    lemma NodesDrop(ids: seq<nat>, k: nat)
      requires Static() && InTable(ids) && k < |ids|
      ensures InTable(DropAt(ids, k)) && Nodes(DropAt(ids, k)) == DropAt(Nodes(ids), k)
    {
      hide NoDup;
    }

    lemma Removed(s: Sys, st: PState, i: nat)
      requires Static() && s.Separate() && st != Running && i in s.Queue(st)
      ensures var t := s.WithQueue(st, Remove(s.Queue(st), i));
        && t.Sized() && t.Separate() && !t.Listed(i)
        && Chain(t, st) == [Head(st)] + Remove(Listing(s, st), pcb[i])
        && forall tt :: tt != Running && tt != st ==> Chain(t, tt) == Chain(s, tt)
    {
      hide Remove;
      var q := s.Queue(st);
      NodesRemove(q, i);
      RemoveNoDup(q, i);
      WithQueueSeparate(s, st, Remove(q, i));
      assert forall tt :: tt != st ==> Apart(s.Queue(st), s.Queue(tt));
      var t := s.WithQueue(st, Remove(q, i));
      assert forall tt :: i !in t.Queue(tt);
      assert i !in t.Queue(Runnable) && i !in t.Queue(Blocked) && i !in t.Queue(Dead) && i !in t.Queue(SemBlocked);
    }

    method Detach(ghost st: PState, head: PCB, p: PCB, ghost i: nat) returns (ok: bool)
      requires Valid() && st != Running && head == Head(st)
      requires i < MAX_PCB_NUM && p == pcb[i]
      modifies this`abs, pcb`next, head`next
      ensures Valid() && ok == (i in old(abs).Queue(st))
      ensures abs == if ok then old(abs).WithQueue(st, Remove(old(abs).Queue(st), i)) else old(abs)
      ensures ok ==> !abs.Listed(i)
    {
      hide Links, Fields;
      FieldsQueue(abs, st, Remove(abs.Queue(st), i));
      ok := DetachLinks(st, head, p, i);
    }

    /** list_delete on one of the kernel's lists; false where the kernel halts. */
    method DetachLinks(ghost st: PState, head: PCB, p: PCB, ghost i: nat) returns (ok: bool)
      requires Links(abs) && st != Running && head == Head(st)
      requires i < MAX_PCB_NUM && p == pcb[i]
      modifies this`abs, pcb`next, head`next
      ensures Links(abs) && ok == (i in old(abs).Queue(st))
      ensures abs == if ok then old(abs).WithQueue(st, Remove(old(abs).Queue(st), i)) else old(abs)
      ensures ok ==> !abs.Listed(i)
    {
      hide NoDup, Sys.Sized, Sys.Separate, Linked, Remove;
      ghost var s := abs;
      ghost var q := abs.Queue(st);
      forall tt | tt != Running && tt != st
        ensures forall x :: x in Chain(abs, st) ==> x !in Chain(abs, tt)
      {
        ForeignChain(abs, st, tt);
      }
      ListingIn(abs, st, i);
      assert Linked(Chain(abs, st));
      ghost var r := [head] + Listing(abs, st);
      assert forall k :: 0 <= k < |r| ==> r[k] == head || r[k] in pcb;
      ok := ListDelete(head, p, Listing(abs, st));
      if ok {
        Removed(abs, st, i);
        abs := abs.WithQueue(st, Remove(q, i));
      }
      assert Linked(Chain(abs, st));
      forall tt | tt != Running && tt != st
        ensures Chain(abs, tt) == Chain(s, tt) && Linked(Chain(abs, tt))
      {
        LinkedKept(Chain(s, tt));
      }
    }

    method SetState(p: PCB, ghost i: nat, st: PState)
      requires Valid() && i < MAX_PCB_NUM && p == pcb[i]
      modifies this`abs, p`state
      ensures Valid() && abs == old(abs).WithProc(i, old(abs).procs[i].(state := st))
    {
      OthersDiffer(i);
      hide Links;
      p.state := st;
      ghost var s := abs;
      abs := abs.WithProc(i, abs.procs[i].(state := st));
      SameLinks(s, abs);
    }

    method SetTimeCount(p: PCB, ghost i: nat, t: int)
      requires Valid() && i < MAX_PCB_NUM && p == pcb[i]
      modifies this`abs, p`timeCount
      ensures Valid() && abs == old(abs).WithProc(i, old(abs).procs[i].(timeCount := t))
    {
      OthersDiffer(i);
      hide Links;
      p.timeCount := t;
      ghost var s := abs;
      abs := abs.WithProc(i, abs.procs[i].(timeCount := t));
      SameLinks(s, abs);
    }

    method SetSleepTime(p: PCB, ghost i: nat, t: Int32)
      requires Valid() && i < MAX_PCB_NUM && p == pcb[i]
      modifies this`abs, p`sleepTime
      ensures Valid() && abs == old(abs).WithProc(i, old(abs).procs[i].(sleepTime := t))
    {
      OthersDiffer(i);
      hide Links;
      p.sleepTime := t;
      ghost var s := abs;
      abs := abs.WithProc(i, abs.procs[i].(sleepTime := t));
      SameLinks(s, abs);
    }

    method SetPid(p: PCB, ghost i: nat, pid: int)
      requires Valid() && i < MAX_PCB_NUM && p == pcb[i]
      modifies this`abs, p`pid
      ensures Valid() && abs == old(abs).WithProc(i, old(abs).procs[i].(pid := pid))
    {
      OthersDiffer(i);
      hide Links;
      p.pid := pid;
      ghost var s := abs;
      abs := abs.WithProc(i, abs.procs[i].(pid := pid));
      SameLinks(s, abs);
    }

    method SetPpid(p: PCB, ghost i: nat, ppid: int)
      requires Valid() && i < MAX_PCB_NUM && p == pcb[i]
      modifies this`abs, p`ppid
      ensures Valid() && abs == old(abs).WithProc(i, old(abs).procs[i].(ppid := ppid))
    {
      OthersDiffer(i);
      hide Links;
      p.ppid := ppid;
      ghost var s := abs;
      abs := abs.WithProc(i, abs.procs[i].(ppid := ppid));
      SameLinks(s, abs);
    }

    method SetPsem(p: PCB, ghost i: nat, psem: Option<SemId>)
      requires Valid() && i < MAX_PCB_NUM && p == pcb[i]
      modifies this`abs, p`psem
      ensures Valid() && abs == old(abs).WithProc(i, old(abs).procs[i].(psem := psem))
    {
      OthersDiffer(i);
      hide Links;
      p.psem := psem;
      ghost var s := abs;
      abs := abs.WithProc(i, abs.procs[i].(psem := psem));
      SameLinks(s, abs);
    }

    method SetCurrent(p: PCB, ghost i: nat)
      requires Valid() && i < MAX_PCB_NUM && p == pcb[i]
      modifies this`abs, this`current
      ensures Valid() && abs == old(abs).(current := i)
    {
      current := p;
      SameLinks(abs, abs.(current := i));
      abs := abs.(current := i);
    }

    /** p takes the CPU with a fresh quantum. */
    method Start(p: PCB, ghost i: nat, sleepTime: Int32)
      requires Valid() && i < MAX_PCB_NUM && p == pcb[i]
      modifies this`abs, this`current, p`state, p`timeCount, p`sleepTime
      ensures Valid()
      ensures abs == old(abs).WithProc(i, old(abs).procs[i].(state := Running, timeCount := QUANTUM, sleepTime := sleepTime)).(current := i)
    {
      hide Links;
      SetState(p, i, Running);
      SetTimeCount(p, i, QUANTUM);
      SetSleepTime(p, i, sleepTime);
      SetCurrent(p, i);
    }

    lemma ListEmpty(st: PState)
      requires Valid() && st != Running
      ensures Head(st).next == if abs.Queue(st) == [] then null else pcb[abs.Queue(st)[0]]
    {
      var r := Chain(abs, st);
      assert Linked(r);
      assert abs.Queue(st) != [] ==> r[0].next == r[1];
    }

    /** list_head on one of the kernel's lists; null where the kernel halts. */
    method First(ghost st: PState, head: PCB) returns (p: PCB?)
      requires Valid() && st != Running && head == Head(st)
      ensures p == if abs.Queue(st) == [] then null else pcb[abs.Queue(st)[0]]
      ensures forall i :: i in abs.Queue(st) ==> 0 < i < |pcb| == MAX_PCB_NUM
    {
      hide NoDup, Sys.Separate, Fields;
      assert Linked(Chain(abs, st));
      p := ListHead(head, Listing(abs, st));
    }

    /** Where the current process goes when it loses the CPU. */
    method ParkCurrent()
      requires Valid() && abs.MayLeave() && !abs.Listed(abs.current)
      requires current.state == SemBlocked ==> current.psem.Some? && current.psem.value in sems
      modifies this`abs, pcb`next, pcb`state, runnableList`next, blockedList`next, freeList`next, dummysem`next
      ensures Valid() && abs == Park(old(abs))
    {
      hide Links;
      ghost var c := abs.current;
      if current.state == Running {
        SetState(current, c, Runnable);
        if current != pcb[IDLE] {
          Append(Runnable, runnableList, current, c);
        }
      } else if current.state == Dead {
        Append(Dead, freeList, current, c);
      } else if current.state == Blocked {
        Append(Blocked, blockedList, current, c);
      } else if current.state == SemBlocked {
        Append(SemBlocked, sems[current.psem.value].list, current, c);
      }
    }

    /** Take the head of the runnable list. */
    method DispatchHead()
      requires Valid() && abs.runnable != []
      modifies this`abs, this`current, pcb`next, pcb`state, pcb`timeCount, pcb`sleepTime, runnableList`next
      ensures Valid() && abs == Dispatch(old(abs))
    {
      hide Links, Fields, Sys.Sized;
      ghost var i := abs.runnable[0];
      assert abs.Queue(Runnable) == abs.runnable && i in abs.Queue(Runnable);
      var p := First(Runnable, runnableList);
      var ok := Detach(Runnable, runnableList, p, i);
      Start(p, i, 0);
    }

    method Schedule()
      requires Valid() && abs.MayLeave() && !abs.Listed(abs.current)
      requires current.state == SemBlocked ==> current.psem.Some? && current.psem.value in sems
      modifies this`abs, this`current, pcb`next, pcb`state, pcb`timeCount, pcb`sleepTime
      modifies runnableList`next, blockedList`next, freeList`next, dummysem`next
      ensures Valid() && abs == SchedModel.Schedule(old(abs))
    {
      ListEmpty(Runnable);
      hide Links;
      if runnableList.next != null {
        ParkCurrent();
        DispatchHead();
      } else if current.state == Running {
        SetTimeCount(current, abs.current, QUANTUM);
      } else {
        ParkCurrent();
        Start(pcb[IDLE], IDLE, pcb[IDLE].sleepTime);
      }
    }

    lemma NextOf(st: PState, m: nat)
      requires Valid() && st != Running && m < |abs.Queue(st)|
      ensures abs.Queue(st)[m] < MAX_PCB_NUM
      ensures pcb[abs.Queue(st)[m]].next == if m + 1 < |abs.Queue(st)| then pcb[abs.Queue(st)[m + 1]] else null
    {
      hide NoDup, Sys.Separate, Apart, Fields;
      var r, q := Chain(abs, st), abs.Queue(st);
      assert Linked(r) && InTable(q);
      assert r[m + 1] == pcb[q[m]];
      if m + 2 < |r| {
        assert r[m + 1].next == r[m + 2];
      }
    }

    /** The body of the loop of try_to_wakeup, with the node to look at next. */
    method WakeOne(p: PCB, ghost i: nat) returns (next: PCB?)
      requires Valid() && i in abs.blocked && i < MAX_PCB_NUM && p == pcb[i]
      modifies this`abs, pcb`next, pcb`state, p`sleepTime, runnableList`next, blockedList`next
      ensures Valid() && abs == WakeupOne(old(abs), i) && next == old(p.next)
    {
      InBounds(i);
      hide Links, Remove;
      SetSleepTime(p, i, Decrement(p.sleepTime));
      if p.sleepTime == 0 {
        var q := p;
        next := p.next;
        var ok := Detach(Blocked, blockedList, q, i);
        SetState(q, i, Runnable);
        Append(Runnable, runnableList, q, i);
      } else {
        next := p.next;
      }
    }

    lemma InBounds(i: nat)
      requires Valid() && i in abs.blocked
      ensures 0 < i < MAX_PCB_NUM
    {
      assert abs.blocked[IndexOf(abs.blocked, i)] == i;
    }

    /** While the loop runs, sleeper k is followed by sleeper k + 1 of the list it started with. */
    lemma NextSleeper(s: Sys, k: nat)
      requires Valid() && s.Sized() && k < |s.blocked| && abs == WakeupPrefix(s, k)
      ensures s.blocked[k] in abs.blocked && s.blocked[k] < MAX_PCB_NUM
      ensures pcb[s.blocked[k]].next == if k + 1 < |s.blocked| then pcb[s.blocked[k + 1]] else null
    {
      NextOf(Blocked, |Sift(s.procs, s.blocked[..k], false)|);
    }

    lemma Sleepers()
      requires Valid()
      ensures |pcb| == MAX_PCB_NUM && abs.Sized() && NoDup(abs.blocked) && InTable(abs.blocked)
      ensures blockedList.next == if abs.blocked == [] then null else pcb[abs.blocked[0]]
      ensures WakeupPrefix(abs, 0) == abs && SchedModel.TryToWakeup(abs) == WakeupPrefix(abs, |abs.blocked|)
    {
      hide Fields, WakeupPrefix, NoDup;
      ListEmpty(Blocked);
      assert abs.Queue(Blocked) == abs.blocked;
      WakeupAll(abs);
    }

    method TryToWakeup()
      requires Valid()
      modifies this`abs, pcb`next, pcb`state, pcb`sleepTime, runnableList`next, blockedList`next
      ensures Valid() && abs == SchedModel.TryToWakeup(old(abs))
    {
      hide Links, Fields, WakeupPrefix, WakeupOne, WakeEach, NoDup, Sys.Sized, Sys.Separate, Chain;
      Sleepers();
      ghost var s, k := abs, 0;
      var p := blockedList.next;
      while p != null
        invariant Valid() && 0 <= k <= |s.blocked| && abs == WakeupPrefix(s, k)
        invariant p == if k < |s.blocked| then pcb[s.blocked[k]] else null
        decreases |s.blocked| - k
      {
        NextSleeper(s, k);
        WakeupTurn(s, k);
        p := WakeOne(p, s.blocked[k]);
        k := k + 1;
      }
    }

    // -------------------------------------------------------------- handlers

    lemma CurrentUnlisted(s: Sys)
      requires Inv(s)
      ensures Ready(s) && s.MayLeave() && !s.Listed(s.current) && NoDup(s.blocked)
    {
      InvReady(s);
      if s.current != IDLE {
        assert At(s, s.current);
      }
    }

    lemma AfterWakeup(s: Sys)
      requires s.Sized() && NoDup(s.blocked) && s.procs[s.current].state == Running && !s.Listed(s.current)
      ensures var t := SchedModel.TryToWakeup(s); t.MayLeave() && !t.Listed(t.current) && t.procs[t.current].state == Running
    {
      WakeupIsFilter(s);
    }

    /** The running process as the kernel's variables give it. */
    lemma ReadCurrent()
      requires Valid()
      ensures |pcb| == MAX_PCB_NUM && abs.Sized() && current == pcb[abs.current] && intrNesting == abs.nesting
      ensures current.state == abs.procs[abs.current].state && current.timeCount == abs.procs[abs.current].timeCount
      ensures abs.current < |abs.procs| == MAX_PCB_NUM && pNum == abs.pnum
    {
    }

    method TimerHandle()
      requires Valid() && Inv(abs) && Ready(abs)
      modifies this`abs, this`current, pcb`next, pcb`state, pcb`timeCount, pcb`sleepTime
      modifies runnableList`next, blockedList`next, freeList`next, dummysem`next
      ensures Valid() && Inv(abs) && abs == Timer(old(abs))
    {
      hide Links, Fields, Inv, Sys.Sized, Sys.MayLeave, SchedModel.TryToWakeup, SchedModel.Schedule;
      CurrentUnlisted(abs);
      TickKeeps(abs);
      ReadCurrent();
      if !intrNesting {
        SetTimeCount(current, abs.current, current.timeCount - 1);
        AfterWakeup(abs);
        TryToWakeup();
        ReadCurrent();
        if current.timeCount == 0 {
          Schedule();
        }
      }
    }

    /** The current process gives up the CPU in state st. */
    method LeaveCpu(st: PState)
      requires Valid() && abs.current != IDLE && st !in {Runnable, Running} && !abs.Listed(abs.current)
      requires st == SemBlocked ==> current.psem.Some? && current.psem.value in sems
      modifies this`abs, this`current, pcb`next, pcb`state, pcb`timeCount, pcb`sleepTime
      modifies runnableList`next, blockedList`next, freeList`next, dummysem`next
      ensures Valid() && abs == Leave(old(abs), st)
    {
      hide Links, SchedModel.Schedule;
      SetState(current, abs.current, st);
      Schedule();
    }

    method ExitAux()
      requires Valid() && Inv(abs) && abs.current != IDLE
      modifies this`abs, this`current, this`pNum, pcb`next, pcb`state, pcb`timeCount, pcb`sleepTime
      modifies runnableList`next, blockedList`next, freeList`next, dummysem`next
      ensures Valid() && Inv(abs) && abs == Exit(old(abs))
    {
      hide Inv, Ready, Leave, Sys.Sized, Sys.MayLeave;
      CurrentUnlisted(abs);
      ExitKeeps(abs);
      assert pNum == abs.pnum && abs.Sized();
      hide Links, Fields;
      SetPNum(pNum - 1);
      LeaveCpu(Dead);
    }

    method SetPNum(n: int)
      requires Valid()
      modifies this`abs, this`pNum
      ensures Valid() && abs == old(abs).(pnum := n)
    {
      pNum := n;
      SameLinks(abs, abs.(pnum := n));
      abs := abs.(pnum := n);
    }

    method SleepAux(sleepTime: Int32)
      requires Valid() && Inv(abs) && abs.current != IDLE
      modifies this`abs, this`current, pcb`next, pcb`state, pcb`timeCount, pcb`sleepTime
      modifies runnableList`next, blockedList`next, freeList`next, dummysem`next
      ensures Valid() && Inv(abs) && abs == Sleep(old(abs), sleepTime)
    {
      CurrentUnlisted(abs);
      SleepKeeps(abs, sleepTime);
      assert current == pcb[abs.current];
      hide Inv, Leave, Links, Fields, Sys.Sized;
      SetSleepTime(current, abs.current, sleepTime);
      LeaveCpu(Blocked);
    }

    method SetValue(a: SemId, value: int)
      requires Valid() && a in sems
      modifies this`abs, this`sems
      ensures Valid() && abs == old(abs).(sems := old(abs).sems[a := value])
      ensures sems == old(sems)[a := old(sems)[a].(value := value)]
    {
      sems := sems[a := sems[a].(value := value)];
      SameLinks(abs, abs.(sems := abs.sems[a := value]));
      abs := abs.(sems := abs.sems[a := value]);
    }

    /** P: a blocked caller goes to the list of the semaphore its psem points to, whatever a is. */
    method SemWaitAux(a: SemId)
      requires Valid() && Inv(abs) && Enabled(abs, SemWaitCall(a))
      modifies this`abs, this`current, this`sems, pcb`next, pcb`state, pcb`timeCount, pcb`sleepTime
      modifies runnableList`next, blockedList`next, freeList`next, dummysem`next
      ensures Valid() && Inv(abs) && abs == SemWait(old(abs), a)
    {
      CurrentUnlisted(abs);
      SemWaitKeeps(abs, a);
      hide Links, Inv, Leave;
      SetValue(a, sems[a].value - 1);
      if sems[a].value < 0 {
        LeaveCpu(SemBlocked);
      }
    }

    /** The head of the wait list becomes runnable. */
    method WakeWaiter(head: PCB, p: PCB)
      requires Valid() && head == dummysem && abs.waiting != []
      requires 0 < abs.waiting[0] < MAX_PCB_NUM == |pcb| && p == pcb[abs.waiting[0]]
      modifies this`abs, pcb`next, pcb`state, runnableList`next, dummysem`next
      ensures Valid() && old(abs).Sized()
      ensures old(abs).waiting[0] < MAX_PCB_NUM && abs == Woken(old(abs))
    {
      assert abs.Sized();
      hide Links, Fields, Sys.Sized;
      ghost var i := abs.waiting[0];
      var _ := Detach(SemBlocked, head, p, i);
      SetState(p, i, Runnable);
      Append(Runnable, runnableList, p, i);
    }

    lemma ReadSem(a: SemId)
      requires Valid() && a in sems
      ensures a in abs.sems && sems[a].value == abs.sems[a] && sems[a].list == dummysem && abs.Sized()
    {
    }

    /** V; false where the kernel halts. */
    method SemPostAux(a: SemId) returns (ok: bool)
      requires Valid() && Inv(abs) && a in sems
      modifies this`abs, this`sems, pcb`next, pcb`state, runnableList`next, dummysem`next
      ensures ok && Valid() && Inv(abs)
      ensures old(abs).Sized() && a in old(abs).sems && Some(abs) == SemPost(old(abs), a)
    {
      hide Inv, Links, Fields, Sys.Sized, NoDup;
      ReadSem(a);
      SemPostKeeps(abs, a);
      assert abs.Queue(SemBlocked) == abs.waiting;
      if sems[a].value < 0 {
        assert abs.waiting[0] in abs.Queue(SemBlocked);
        var p := First(SemBlocked, sems[a].list);
        if p == null {
          return false;
        }
        WakeWaiter(sems[a].list, p);
      }
      SetValue(a, sems[a].value + 1);
      return true;
    }

    /** Empties the wait list; the waiters, if any, are forgotten. */
    method ForgetWaiters()
      requires Valid()
      modifies this`abs, dummysem`next
      ensures Valid() && abs == old(abs).(waiting := [])
    {
      hide Sys.Sized, Sys.Separate, NoDup, Linked, Fields;
      ghost var s, t := abs, abs.(waiting := []);
      Emptied(s);
      forall st | st != Running && st != SemBlocked
        ensures dummysem !in Chain(s, st)
      {
        ForeignHead(s, SemBlocked, st);
      }
      dummysem.next := null;
      abs := t;
      forall st | st != Running
        ensures Linked(Chain(t, st))
      {
        if st == SemBlocked {
          OneNode(dummysem);
        } else {
          assert Chain(t, st) == Chain(s, st);
          LinkedKept(Chain(s, st));
        }
      }
    }

    lemma OneNode(p: PCB)
      requires p.next == null
      ensures Linked([p])
    {
    }

    lemma Emptied(s: Sys)
      requires Static() && s.Sized() && s.Separate()
      ensures var t := s.(waiting := []);
        && t.Sized() && t.Separate() && Chain(t, SemBlocked) == [dummysem]
        && forall st :: st != Running && st != SemBlocked ==> Chain(t, st) == Chain(s, st)
      ensures Fields(s) ==> Fields(s.(waiting := []))
    {
      WithQueueSeparate(s, SemBlocked, []);
    }

    /** sem_init: always well-formed afterwards; nobody is lost exactly when nobody was waiting. */
    method SemInitAux(a: SemId, value: int)
      requires Valid()
      modifies this`abs, this`sems, current`psem, dummysem`next
      ensures Valid() && old(abs).Sized() && abs == SemInit(old(abs), a, value)
      ensures old(Inv(abs)) && abs.current != IDLE ==> (Inv(abs) <==> old(abs).waiting == [] && 0 <= value)
    {
      assert abs.Sized() && current == pcb[abs.current];
      if Inv(abs) && abs.current != IDLE {
        SemInitExactly(abs, a, value);
      }
      hide Inv, Links, Sys.Sized;
      SetPsem(current, abs.current, Some(a));
      InitSem(a, value);
      ForgetWaiters();
    }

    method InitSem(a: SemId, value: int)
      requires Valid()
      modifies this`abs, this`sems
      ensures Valid() && abs == old(abs).(sems := old(abs).sems[a := value])
    {
      sems := sems[a := Sem(value, dummysem)];
      SameLinks(abs, abs.(sems := abs.sems[a := value]));
      abs := abs.(sems := abs.sems[a := value]);
    }

    method SemDestroyAux()
      requires Valid() && Inv(abs)
      modifies this`abs, current`psem
      ensures Valid() && Inv(abs) && abs == SemDestroy(old(abs))
    {
      SamePlaced(abs, SemDestroy(abs));
      assert current == pcb[abs.current];
      hide Links;
      SetPsem(current, abs.current, None);
    }

    /** All six scheduling fields of a PCB. */
    method SetProc(p: PCB, ghost i: nat, state: PState, timeCount: int, sleepTime: Int32, pid: int, ppid: int, psem: Option<SemId>)
      requires Valid() && i < MAX_PCB_NUM && p == pcb[i]
      modifies this`abs, p`state, p`timeCount, p`sleepTime, p`pid, p`ppid, p`psem
      ensures Valid() && abs == old(abs).WithProc(i, Proc(state, timeCount, sleepTime, pid, ppid, psem))
    {
      hide Links, Fields, Sys.Sized, NoDup;
      ReadCurrent();
      ghost var procs := abs.procs;
      SetPid(p, i, pid);
      SetPpid(p, i, ppid);
      SetPsem(p, i, psem);
      SetState(p, i, state);
      SetTimeCount(p, i, timeCount);
      SetSleepTime(p, i, sleepTime);
      assert abs.procs == procs[i := Proc(state, timeCount, sleepTime, pid, ppid, psem)];
    }

    /** The unlinked PCB pcb[p_num] becomes a runnable process. */
    method Enroll(child: PCB, ppid: int, psem: Option<SemId>)
      requires Valid() && 0 < pNum < MAX_PCB_NUM && child == pcb[pNum] && !abs.Listed(pNum)
      modifies this`abs, this`pNum, pcb`next, runnableList`next
      modifies child`state, child`timeCount, child`sleepTime, child`pid, child`ppid, child`psem
      ensures Valid()
      ensures |old(abs).procs| == MAX_PCB_NUM && old(pNum) == old(abs).pnum
      ensures abs == old(abs).WithProc(old(pNum), Proc(Runnable, QUANTUM, 0, old(pNum), ppid, psem))
        .(runnable := old(abs).runnable + [old(pNum)], pnum := old(pNum) + 1)
    {
      assert |abs.procs| == MAX_PCB_NUM && pNum == abs.pnum;
      hide Links, Fields;
      SetProc(child, pNum, Runnable, QUANTUM, 0, pNum, ppid, psem);
      Append(Runnable, runnableList, child, pNum);
      SetPNum(pNum + 1);
    }

    lemma ForkReady(s: Sys)
      requires Inv(s) && Links(s)
      ensures s.Sized() && 0 <= s.pnum && (s.pnum in s.free ==> 0 < s.pnum < MAX_PCB_NUM && Fork(s).Some? && Inv(Fork(s).value))
      ensures |pcb| == MAX_PCB_NUM
    {
      RunnableShort(s);
      if s.pnum in s.free {
        ForkKeeps(s);
        assert s.free[IndexOf(s.free, s.pnum)] == s.pnum;
      }
    }

    /** The PCB part of fork; false where the kernel halts. */
    method ForkAux() returns (ok: bool)
      requires Valid() && Inv(abs)
      modifies this`abs, this`pNum, pcb`next, pcb`state, pcb`timeCount, pcb`sleepTime, pcb`pid, pcb`ppid, pcb`psem
      modifies runnableList`next, freeList`next
      ensures Valid() && Inv(abs) && old(abs).Sized()
      ensures Fork(old(abs)) == if ok then Some(abs) else None
      ensures !ok ==> abs == old(abs)
    {
      hide Inv, Links, Remove;
      ForkReady(abs);
      assert pNum == abs.pnum && current == pcb[abs.current] && |pcb| == MAX_PCB_NUM && abs.Sized();
      assert current.pid == abs.procs[abs.current].pid && current.psem == abs.procs[abs.current].psem;
      hide Fields, Sys.Sized;
      if pNum >= MAX_PCB_NUM {
        return false;
      }
      var child, pid, psem := pcb[pNum], current.pid, current.psem;
      ok := Detach(Dead, freeList, child, pNum);
      if ok {
        Enroll(child, pid, psem);
      }
    }

    ghost function Snapshot(): (procs: seq<Proc>)
      requires |pcb| == MAX_PCB_NUM
      reads pcb
      ensures |procs| == MAX_PCB_NUM
      ensures forall i :: 0 <= i < MAX_PCB_NUM ==> Shows(pcb[i], procs[i])
    {
      seq(MAX_PCB_NUM, i requires 0 <= i < MAX_PCB_NUM reads pcb =>
        Proc(pcb[i].state, pcb[i].timeCount, pcb[i].sleepTime, pcb[i].pid, pcb[i].ppid, pcb[i].psem))
    }

    /** The state of memory when all four list heads are empty. */
    lemma NothingLinked(s: Sys)
      requires Static() && s.Sized()
      requires s.runnable == s.blocked == s.free == s.waiting == []
      requires runnableList.next == null && blockedList.next == null && freeList.next == null && dummysem.next == null
      ensures Links(s)
    {
      assert forall st :: s.Queue(st) == [];
      forall st | st != Running
        ensures Linked(Chain(s, st))
      {
        assert Chain(s, st) == [Head(st)];
        OneNode(Head(st));
      }
    }

    /** The list heads and globals before the PCBs are set up. */
    method EmptyLists() returns (ghost procs: seq<Proc>)
      requires Static()
      modifies this`abs, this`current, this`pNum, this`intrNesting, this`sems
      modifies runnableList`next, blockedList`next, freeList`next, dummysem`next
      ensures |procs| == |pcb| == MAX_PCB_NUM && Valid() && abs == Booting(procs, 1)
      ensures procs[IDLE].ppid == old(pcb[IDLE].ppid)
    {
      intrNesting := false;
      runnableList.next := null;
      blockedList.next := null;
      freeList.next := null;
      dummysem.next := null;
      pNum := 1;
      current := pcb[IDLE];
      sems := map[];
      procs := Snapshot();
      abs := Booting(procs, 1);
      assert abs.procs == procs;
      NothingLinked(abs);
    }

    lemma IdlePpid()
      requires Valid()
      ensures |pcb| == |abs.procs| == MAX_PCB_NUM && pcb[IDLE].ppid == abs.procs[IDLE].ppid
    {
    }

    /** initPcb, except for the file descriptors. */
    method InitPcb()
      requires Static()
      modifies this`abs, this`current, this`pNum, this`intrNesting, this`sems
      modifies pcb`next, pcb`state, pcb`timeCount, pcb`sleepTime, pcb`pid, pcb`ppid, pcb`psem
      modifies runnableList`next, blockedList`next, freeList`next, dummysem`next
      ensures Valid() && |pcb| == MAX_PCB_NUM && abs == InitialOver(old(pcb[IDLE].ppid))
    {
      hide Links, Fields, Booting, Sys.Sized, NoDup;
      ghost var procs := EmptyLists();
      var i := 1;
      while i < MAX_PCB_NUM
        invariant 1 <= i <= MAX_PCB_NUM && Valid() && abs == Booting(procs, i)
      {
        BootingTurn(procs, i);
        SetProc(pcb[i], i, Dead, 0, 0, -1, -1, None);
        Append(Dead, freeList, pcb[i], i);
        i := i + 1;
      }
      BootingEnds(procs);
      IdlePpid();
      SetProc(pcb[IDLE], IDLE, Running, QUANTUM, 0, 0, pcb[IDLE].ppid, None);
    }

    /** preparePCB: false where the kernel halts. */
    method PreparePCB() returns (ok: bool)
      requires Valid() && abs == Initial()
      modifies this`abs, this`pNum, pcb`next, pcb`state, pcb`timeCount, pcb`sleepTime, pcb`pid, pcb`ppid, pcb`psem
      modifies runnableList`next, freeList`next
      ensures ok && Valid() && Inv(abs) && Boot(abs)
    {
      BootKeeps();
      assert pNum == 1 && |pcb| == MAX_PCB_NUM && abs.free[0] == 1 && pcb[1].psem == None;
      hide Inv, Links, Fields, Remove;
      var child := pcb[pNum];
      ok := Detach(Dead, freeList, child, pNum);
      Enroll(child, -1, child.psem);
      OnlyRunnable();
      var p := First(Runnable, runnableList);
      if p == null || p.pid != 1 {
        return false;
      }
    }

    lemma OnlyRunnable()
      requires Valid() && Boot(abs)
      ensures |pcb| == MAX_PCB_NUM && abs.Queue(Runnable) == [1] && pcb[1].pid == 1
    {
      assert 1 in Initial().free;
    }

    /** One interrupt: the next step of a run of the abstract kernel.  False where the kernel halts. */
    method Handle(e: Event) returns (ok: bool)
      requires Valid() && Inv(abs) && Ready(abs) && Enabled(abs, e)
      modifies this, pcb`next, pcb`state, pcb`timeCount, pcb`sleepTime, pcb`pid, pcb`ppid, pcb`psem
      modifies runnableList`next, blockedList`next, freeList`next, dummysem`next
      ensures Valid() && Inv(abs)
      ensures ok ==> Next(old(abs), e, abs)
      ensures ok <==> Step(old(abs), e).Some?
    {
      ok := true;
      match e
      case Tick => TimerHandle();
      case KeyboardWait(on) => SetNesting(on);
      case ExitCall => ExitAux();
      case ForkCall => ok := ForkAux();
      case SleepCall(n) => SleepAux(n);
      case SemInitCall(a, v) => SemInitAux(a, v);
      case SemDestroyCall => SemDestroyAux();
      case SemWaitCall(a) => SemWaitAux(a);
      case SemPostCall(a) => ok := SemPostAux(a);
      case OtherCall =>
    }

    method SetNesting(on: bool)
      requires Valid() && Inv(abs)
      modifies this`abs, this`intrNesting
      ensures Valid() && Inv(abs) && abs == old(abs).(nesting := on)
    {
      intrNesting := on;
      SamePlaced(abs, abs.(nesting := on));
      SameLinks(abs, abs.(nesting := on));
      abs := abs.(nesting := on);
    }
  }
}
