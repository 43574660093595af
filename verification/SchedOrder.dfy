/** First come, first served: the order of the kernel's lists. */
module SchedOrder {
  import opened Seqs
  import opened SchedModel
  import opened SchedInvariant
  import opened SchedRuns
  import opened SchedTheorems
  import opened SemTheorems
  import opened SchedLaws

  /** a stands in front of b. */
  ghost predicate Before(q: seq<nat>, a: nat, b: nat) {
    exists i, j :: 0 <= i < j < |q| && q[i] == a && q[j] == b
  }

  /** Who stays in the list keeps the place in front of who was behind or joins. */
  ghost predicate Served(q: seq<nat>, r: seq<nat>) {
    forall a, b :: a in q && a in r && b in r && a != b && (b !in q || Before(q, a, b)) ==> Before(r, a, b)
  }

  lemma ServedSame(q: seq<nat>)
    ensures Served(q, q) && Served(q, [])
  {
  }

  lemma BeforeAt(q: seq<nat>, i: nat, j: nat)
    requires i < j < |q|
    ensures Before(q, q[i], q[j])
  {
  }

  lemma BeforePrefix(q: seq<nat>, x: seq<nat>, a: nat, b: nat)
    requires a in q && b in q + x && a != b && (b !in q || Before(q, a, b))
    ensures Before(q + x, a, b)
  {
    var r := q + x;
    if b in q {
      var i, j :| 0 <= i < j < |q| && q[i] == a && q[j] == b;
      assert r[i] == a && r[j] == b;
      BeforeAt(r, i, j);
    } else {
      var i :| 0 <= i < |q| && q[i] == a;
      var j :| 0 <= j < |r| && r[j] == b;
      assert r[i] == a && j >= |q|;
      BeforeAt(r, i, j);
    }
  }

  lemma BeforeTail(r: seq<nat>, a: nat, b: nat)
    requires NoDup(r) && r != [] && a in r[1..] && Before(r, a, b)
    ensures Before(r[1..], a, b)
  {
    var i, j :| 0 <= i < j < |r| && r[i] == a && r[j] == b;
    var k :| 0 <= k < |r[1..]| && r[1..][k] == a;
    assert r[k + 1] == a && i == k + 1;
    assert r[1..][i - 1] == a && r[1..][j - 1] == b;
    BeforeAt(r[1..], i - 1, j - 1);
  }

  lemma ServedAppend(q: seq<nat>, x: seq<nat>)
    requires NoDup(q + x)
    ensures Served(q, q + x) && (q + x != [] ==> Served(q, (q + x)[1..]))
  {
    hide Before;
    var r := q + x;
    forall a, b | a in q && a in r && b in r && a != b && (b !in q || Before(q, a, b))
      ensures Before(r, a, b)
    {
      BeforePrefix(q, x, a, b);
    }
    if r != [] {
      forall a, b | a in q && a in r[1..] && b in r[1..] && a != b && (b !in q || Before(q, a, b))
        ensures Before(r[1..], a, b)
      {
        BeforePrefix(q, x, a, b);
        BeforeTail(r, a, b);
      }
    }
  }

  lemma ServedTail(q: seq<nat>)
    requires NoDup(q) && q != []
    ensures Served(q, q[1..])
  {
    assert q + [] == q;
    ServedAppend(q, []);
  }

  lemma RemovedAt(q: seq<nat>, x: nat, i: nat)
    requires x in q && i < |q| && q[i] != x
    ensures var r, m := Remove(q, x), if i < IndexOf(q, x) then i else i - 1; 0 <= m < |r| && r[m] == q[i]
  {
    assert q[IndexOf(q, x)] == x;
  }

  lemma RemoveBefore(q: seq<nat>, x: nat, a: nat, b: nat)
    requires x in q && Before(q, a, b) && a != x && b != x
    ensures Before(Remove(q, x), a, b)
  {
    hide Remove, IndexOf;
    var k := IndexOf(q, x);
    var i, j :| 0 <= i < j < |q| && q[i] == a && q[j] == b;
    RemovedAt(q, x, i);
    RemovedAt(q, x, j);
    BeforeAt(Remove(q, x), if i < k then i else i - 1, if j < k then j else j - 1);
  }

  lemma ServedRemove(q: seq<nat>, x: nat)
    requires NoDup(q) && x in q
    ensures Served(q, Remove(q, x))
  {
    hide Remove, Before, NoDup;
    RemoveNoDup(q, x);
    forall a, b | a in q && a in Remove(q, x) && b in Remove(q, x) && a != b && (b !in q || Before(q, a, b))
      ensures Before(Remove(q, x), a, b)
    {
      RemoveBefore(q, x, a, b);
    }
  }

  lemma {:induction false} SiftBefore(procs: seq<Proc>, ids: seq<nat>, due: bool, a: nat, b: nat)
    requires NoDup(ids) && Before(ids, a, b) && Due(procs, a) == due && Due(procs, b) == due
    ensures Before(Sift(procs, ids, due), a, b)
  {
    var front, last := ids[..|ids| - 1], ids[|ids| - 1];
    var i, j :| 0 <= i < j < |ids| && ids[i] == a && ids[j] == b;
    var f := Sift(procs, front, due);
    if j < |ids| - 1 {
      assert front[i] == a && front[j] == b;
      BeforeAt(front, i, j);
      SiftBefore(procs, front, due, a, b);
      BeforePrefix(f, if Due(procs, last) == due then [last] else [], a, b);
    } else {
      assert front[i] == a && a in f;
      var k :| 0 <= k < |f| && f[k] == a;
      BeforeAt(Sift(procs, ids, due), k, |f|);
    }
  }

  lemma ServedSift(procs: seq<Proc>, ids: seq<nat>, due: bool)
    requires NoDup(ids)
    ensures Served(ids, Sift(procs, ids, due))
  {
    hide Sift, Before;
    forall a, b | a in ids && a in Sift(procs, ids, due) && b in Sift(procs, ids, due) && a != b && (b !in ids || Before(ids, a, b))
      ensures Before(Sift(procs, ids, due), a, b)
    {
      SiftBefore(procs, ids, due, a, b);
    }
  }

  // ---------------------------------------------------------------- steps

  /** The runnable list after a dispatch. */
  lemma ScheduleRunnable(s: Sys)
    requires s.Sized() && s.MayLeave()
    ensures var c := if s.procs[s.current].state == Running && s.current != IDLE then [s.current] else [];
      Schedule(s).runnable == if s.runnable == [] then [] else (s.runnable + c)[1..]
  {
    if s.runnable != [] {
      ScheduleQueue(s);
    }
  }

  /** The order in which those who want the CPU stand at a real tick: who is runnable, who wakes up, who has it. */
  ghost function Line(s: Sys): seq<nat> {
    s.runnable + s.blocked + [s.current]
  }

  lemma JoinBefore(x: seq<nat>, y: seq<nat>, a: nat, b: nat)
    requires NoDup(x + y) && Before(x + y, a, b)
    ensures (a in x && b in x && Before(x, a, b)) || (a in x && b in y) || (a in y && b in y && Before(y, a, b))
  {
    var r := x + y;
    var i, j :| 0 <= i < j < |r| && r[i] == a && r[j] == b;
    if j < |x| {
      assert x[i] == a && x[j] == b;
      BeforeAt(x, i, j);
    } else if i >= |x| {
      assert y[i - |x|] == a && y[j - |x|] == b;
      BeforeAt(y, i - |x|, j - |x|);
    }
  }

  lemma BeforeJoin(x: seq<nat>, y: seq<nat>, a: nat, b: nat)
    requires (a in x && b in x && Before(x, a, b)) || (a in x && b in y) || (a in y && b in y && Before(y, a, b))
    ensures Before(x + y, a, b)
  {
    var r := x + y;
    if a in x && b in x && Before(x, a, b) {
      var i, j :| 0 <= i < j < |x| && x[i] == a && x[j] == b;
      assert r[i] == a && r[j] == b;
      BeforeAt(r, i, j);
    } else if a in x && b in y {
      var i :| 0 <= i < |x| && x[i] == a;
      var j :| 0 <= j < |y| && y[j] == b;
      assert r[i] == a && r[|x| + j] == b;
      BeforeAt(r, i, |x| + j);
    } else {
      var i, j :| 0 <= i < j < |y| && y[i] == a && y[j] == b;
      assert r[|x| + i] == a && r[|x| + j] == b;
      BeforeAt(r, |x| + i, |x| + j);
    }
  }

  lemma SoloNoDup(q: seq<nat>, c: nat)
    requires NoDup(q) && c !in q
    ensures NoDup(q + [c])
  {
  }

  /** A dispatch that puts c behind x. */
  lemma ScheduleServed(s: Sys, q: seq<nat>, x: seq<nat>)
    requires s.Sized() && s.MayLeave() && s.runnable == q + x && NoDup(q + x) && s.current !in q + x
    ensures Served(q, Schedule(s).runnable)
  {
    hide Schedule, Served, NoDup, Sys.MayLeave;
    ScheduleRunnable(s);
    var c := if s.procs[s.current].state == Running && s.current != IDLE then [s.current] else [];
    if s.runnable == [] {
      ServedSame(q);
    } else {
      SoloNoDup(q + x, s.current);
      assert q + (x + c) == q + x + c && q + x + [] == q + x;
      ServedAppend(q, x + c);
    }
  }

  lemma LeaveServed(u: Sys, st: PState)
    requires u.Sized() && u.current != IDLE && st !in {Runnable, Running} && NoDup(u.runnable) && u.current !in u.runnable
    ensures Served(u.runnable, Leave(u, st).runnable)
  {
    hide Schedule, Served, NoDup;
    assert u.runnable + [] == u.runnable;
    ScheduleServed(u.WithProc(u.current, u.procs[u.current].(state := st)), u.runnable, []);
  }

  /** The lists after the wake-up pass of a real tick. */
  lemma WokenLists(s: Sys) returns (woken: seq<nat>)
    requires Inv(s)
    ensures var u := Spend(s); var t := TryToWakeup(u);
      && woken == Sift(u.procs, s.blocked, true) && t.runnable == s.runnable + woken && t.blocked == Sift(u.procs, s.blocked, false)
      && NoDup(s.runnable + woken) && NoDup(s.blocked) && s.current !in s.runnable + woken
      && t.Sized() && t.MayLeave() && t.current == s.current && t.procs[t.current].state == Running
  {
    hide Slept, Debt;
    InvPartition(s);
    InvReady(s);
    var u := Spend(s);
    WakeupIsFilter(u);
    WakeupStays(u);
    woken := Sift(u.procs, u.blocked, true);
    SiftNoDup(u.procs, u.blocked, true);
    assert Apart(s.Queue(Runnable), s.Queue(Blocked));
    hide Sift;
    Joined(s.runnable, woken);
    assert s.current !in s.runnable && s.current !in s.blocked by {
      if s.current != IDLE { assert OnePlace(s, s.current); }
    }
  }

  lemma TimerServed(s: Sys)
    requires Inv(s) && Ready(s) && !s.nesting
    ensures Served(s.runnable, Timer(s).runnable) && Served(s.blocked, Timer(s).blocked)
  {
    InvSized(s);
    hide Schedule, TryToWakeup, Spend, Sift, Inv, Served, NoDup, Sys.MayLeave;
    var woken := WokenLists(s);
    var t := TryToWakeup(Spend(s));
    ServedSift(Spend(s).procs, s.blocked, false);
    ServedAppend(s.runnable, woken);
    if t.procs[t.current].timeCount == 0 {
      ScheduleServed(t, s.runnable, woken);
      ScheduleLists(t);
    }
  }

  lemma ListsApart(s: Sys)
    requires Inv(s)
    ensures s.Sized() && NoDup(s.runnable) && NoDup(s.blocked) && NoDup(s.free) && NoDup(s.waiting)
    ensures s.current !in s.runnable && s.current !in s.blocked && s.current !in s.free && s.current !in s.waiting
  {
    InvPartition(s);
    if s.current != IDLE {
      assert OnePlace(s, s.current);
    }
  }

  lemma PostServed(s: Sys, a: SemId)
    requires s.Sized() && a in s.sems && SemPost(s, a).Some? && NoDup(SemPost(s, a).value.runnable)
    ensures Served(s.runnable, SemPost(s, a).value.runnable)
  {
    hide SemPost, Served, NoDup;
    PostFacts(s, a, 0);
    ServedSame(s.runnable);
    if s.waiting != [] && s.sems[a] < 0 {
      ServedAppend(s.runnable, [s.waiting[0]]);
    }
  }

  lemma RunnableServed(s: Sys, e: Event, t: Sys)
    requires Inv(s) && Next(s, e, t)
    ensures Served(s.runnable, t.runnable)
  {
    ListsApart(s);
    NextKeeps(s, e, t);
    ListsApart(t);
    ServedSame(s.runnable);
    hide Leave, Timer, Inv, Served, NoDup, Fork, SemPost, Placed, OnCpu;
    if GivesUp(s, e) {
      var u, st := Leaver(s, e, t);
      LeaveServed(u, st);
    } else {
      match e
      case Tick => if s.nesting { NestedTick(s); } else { TimerServed(s); }
      case ForkCall => ForkFacts(s); ServedAppend(s.runnable, [s.pnum]);
      case SemPostCall(a) => PostServed(s, a);
      case _ =>
    }
  }

  lemma BlockedServed(s: Sys, e: Event, t: Sys)
    requires Inv(s) && Next(s, e, t)
    ensures Served(s.blocked, t.blocked)
  {
    ListsApart(s);
    ServedSame(s.blocked);
    SoloNoDup(s.blocked, s.current);
    ServedAppend(s.blocked, [s.current]);
    hide Leave, Timer, Inv, Served, NoDup, Fork, SemPost, Placed, OnCpu;
    if GivesUp(s, e) {
      var u, st := Leaver(s, e, t);
      LeaveLists(u, st);
    } else {
      match e
      case Tick => if s.nesting { NestedTick(s); } else { TimerServed(s); }
      case ForkCall => ForkFacts(s);
      case SemPostCall(a) => PostFacts(s, a, 0);
      case _ =>
    }
  }

  lemma WaitingServed(s: Sys, e: Event, t: Sys)
    requires Inv(s) && Next(s, e, t)
    ensures Served(s.waiting, t.waiting)
  {
    ListsApart(s);
    StepSems(s, e, t);
    hide Step, Inv, Served, NoDup;
    ServedSame(s.waiting);
    SoloNoDup(s.waiting, s.current);
    ServedAppend(s.waiting, [s.current]);
    if s.waiting != [] {
      ServedTail(s.waiting);
    }
  }

  lemma FreeServed(s: Sys, e: Event, t: Sys)
    requires Inv(s) && Next(s, e, t)
    ensures Served(s.free, t.free)
  {
    ListsApart(s);
    ServedSame(s.free);
    SoloNoDup(s.free, s.current);
    ServedAppend(s.free, [s.current]);
    hide Leave, Timer, Inv, Served, NoDup, Remove, Fork, SemPost, Placed, OnCpu;
    if GivesUp(s, e) {
      var u, st := Leaver(s, e, t);
      LeaveLists(u, st);
    } else {
      match e
      case Tick => TimerLists(s);
      case ForkCall => ForkFacts(s); ServedRemove(s.free, s.pnum);
      case SemPostCall(a) => PostFacts(s, a, 0);
      case _ =>
    }
  }

  /** Every event keeps the order of all four lists and puts newcomers behind. */
  lemma QueueStep(s: Sys, e: Event, t: Sys, st: PState)
    requires Inv(s) && Next(s, e, t)
    ensures Served(s.Queue(st), t.Queue(st))
  {
    hide Inv, Next, Served;
    match st
    case Runnable => RunnableServed(s, e, t);
    case Blocked => BlockedServed(s, e, t);
    case SemBlocked => WaitingServed(s, e, t);
    case Dead => FreeServed(s, e, t);
    case Running => ServedSame([]);
  }

  /** First come, first served: over a run, whoever stays in a list stays in front of everybody who was behind or came later. */
  lemma {:induction false} FirstCome(tr: seq<Sys>, evs: seq<Event>, st: PState, a: nat, b: nat, i: nat, n: nat)
    requires Run(tr, evs) && Inv(tr[0]) && i <= n <= |evs| && a != b
    requires forall k :: i <= k <= n ==> a in tr[k].Queue(st)
    requires b !in tr[i].Queue(st) || Before(tr[i].Queue(st), a, b)
    ensures b in tr[n].Queue(st) ==> Before(tr[n].Queue(st), a, b)
  {
    hide Inv, Next, Before;
    if n > i {
      FirstCome(tr, evs, st, a, b, i, n - 1);
      RunKeeps(tr, evs, n - 1);
      assert Next(tr[n - 1], evs[n - 1], tr[n]);
      QueueStep(tr[n - 1], evs[n - 1], tr[n], st);
      assert a in tr[n - 1].Queue(st) && a in tr[n].Queue(st);
    }
  }

  // ---------------------------------------------------------------- who comes first at a tick

  lemma DisjointParts(x: seq<nat>, y: seq<nat>)
    requires NoDup(x + y)
    ensures NoDup(x) && NoDup(y) && forall i :: i in x ==> i !in y
  {
    var r := x + y;
    assert forall k :: 0 <= k < |y| ==> r[|x| + k] == y[k];
    assert forall k :: 0 <= k < |x| ==> r[k] == x[k];
    forall i | i in x
      ensures i !in y
    {
      var j :| 0 <= j < |x| && x[j] == i;
      assert r[j] == i;
    }
  }

  lemma BeforeDiffer(q: seq<nat>, x: nat, y: nat)
    requires NoDup(q) && Before(q, x, y)
    ensures x != y && x in q && y in q
  {
  }

  /** Two who wake up, or one of them and who has the CPU. */
  lemma BackKept(b: seq<nat>, w: seq<nat>, c: nat, x: nat, y: nat)
    requires NoDup(b + [c]) && Served(b, w) && (forall i :: i in w ==> i in b)
    requires x in w + [c] && y in w + [c] && Before(b + [c], x, y)
    ensures Before(w + [c], x, y)
  {
    hide Before, NoDup;
    DisjointParts(b, [c]);
    BeforeDiffer(b + [c], x, y);
    JoinBefore(b, [c], x, y);
    if x in b && y in b && Before(b, x, y) {
      assert x in w && y in w;
    } else if y == c {
      assert x in w;
    }
    BeforeJoin(w, [c], x, y);
  }

  lemma LineKept(r: seq<nat>, b: seq<nat>, w: seq<nat>, c: nat, x: nat, y: nat)
    requires NoDup(r + (b + [c])) && Served(b, w) && (forall i :: i in w ==> i in b)
    requires x in r + (w + [c]) && y in r + (w + [c]) && Before(r + (b + [c]), x, y)
    ensures Before(r + (w + [c]), x, y)
  {
    hide Before, NoDup;
    DisjointParts(r, b + [c]);
    BeforeDiffer(r + (b + [c]), x, y);
    JoinBefore(r, b + [c], x, y);
    if x in r && y in r && Before(r, x, y) {
    } else if x in r {
      assert y in w + [c];
    } else {
      BackKept(b, w, c, x, y);
    }
    BeforeJoin(r, w + [c], x, y);
  }

  lemma LineNoDup(s: Sys)
    requires Inv(s)
    ensures NoDup(s.runnable + (s.blocked + [s.current]))
  {
    ListsApart(s);
    InvPartition(s);
    assert Apart(s.Queue(Runnable), s.Queue(Blocked));
    hide Inv;
    SoloNoDup(s.blocked, s.current);
    Joined(s.runnable, s.blocked + [s.current]);
  }

  /** What is left of the line when its head has been taken, or nobody. */
  lemma RestOfLine(q: seq<nat>, c: nat, r: seq<nat>, x: nat, y: nat)
    requires NoDup(q + [c]) && Before(q + [c], x, y) && x in r && y in r
    requires r == q || (q != [] && (r == (q + [c])[1..] || r == q[1..]))
    ensures Before(r, x, y)
  {
    hide Before, NoDup;
    DisjointParts(q, [c]);
    if r == (q + [c])[1..] {
      BeforeTail(q + [c], x, y);
    } else {
      assert forall i :: i in q[1..] ==> i in q;
      DropLast(q, c, x, y);
      if r != q {
        BeforeTail(q, x, y);
      }
    }
  }

  lemma DropLast(q: seq<nat>, c: nat, x: nat, y: nat)
    requires NoDup(q + [c]) && Before(q + [c], x, y) && x in q && y in q
    ensures Before(q, x, y)
  {
    DisjointParts(q, [c]);
    JoinBefore(q, [c], x, y);
  }

  /** The runnable list after a real tick. */
  lemma TickRunnable(s: Sys, t: Sys) returns (woken: seq<nat>)
    requires Inv(s) && Next(s, Tick, t) && !s.nesting
    ensures woken == Sift(Spend(s).procs, s.blocked, true)
    ensures NoDup(s.runnable + woken) && NoDup(s.blocked) && s.current !in s.runnable + woken
    ensures var q := s.runnable + woken; t.runnable == q || (q != [] && (t.runnable == (q + [s.current])[1..] || t.runnable == q[1..]))
  {
    InvSized(s);
    hide Schedule, TryToWakeup, Spend, Sift, Inv, NoDup, Sys.MayLeave;
    woken := WokenLists(s);
    var u := TryToWakeup(Spend(s));
    if u.procs[u.current].timeCount == 0 {
      ScheduleRunnable(u);
    }
    assert u.runnable + [] == u.runnable;
  }

  /**
   After a real tick those who can run stand in the order of the line before it: who was runnable, then who
   has just woken up in the order of falling asleep, and who lost the CPU behind them all.
   */
  lemma TickOrder(s: Sys, t: Sys, x: nat, y: nat)
    requires Inv(s) && Next(s, Tick, t) && !s.nesting
    requires x in t.runnable && y in t.runnable && Before(Line(s), x, y)
    ensures Before(t.runnable, x, y)
  {
    InvSized(s);
    LineNoDup(s);
    hide Next, Spend, Sift, Inv, Served, NoDup, Before;
    var woken := TickRunnable(s, t);
    ServedSift(Spend(s).procs, s.blocked, true);
    assert Line(s) == s.runnable + (s.blocked + [s.current]);
    OrderInLine(s.runnable, s.blocked, woken, s.current, t.runnable, x, y);
  }

  lemma OrderInLine(r: seq<nat>, b: seq<nat>, w: seq<nat>, c: nat, rest: seq<nat>, x: nat, y: nat)
    requires NoDup(r + (b + [c])) && Served(b, w) && (forall i :: i in w ==> i in b)
    requires NoDup(r + w) && c !in r + w && x in rest && y in rest && Before(r + (b + [c]), x, y)
    requires rest == r + w || (r + w != [] && (rest == (r + w + [c])[1..] || rest == (r + w)[1..]))
    ensures Before(rest, x, y)
  {
    hide Served, NoDup, Before;
    var q := r + w;
    assert r + (w + [c]) == q + [c];
    SoloNoDup(q, c);
    TailIn(q);
    TailIn(q + [c]);
    LineKept(r, b, w, c, x, y);
    RestOfLine(q, c, rest, x, y);
  }

  lemma TailIn(q: seq<nat>)
    ensures q != [] ==> forall i :: i in q[1..] ==> i in q
  {
  }

  lemma BeforeEither(q: seq<nat>, x: nat, y: nat)
    requires x in q && y in q && x != y
    ensures Before(q, x, y) || Before(q, y, x)
  {
    var i: nat :| i < |q| && q[i] == x;
    var j: nat :| j < |q| && q[j] == y;
    if i < j {
      BeforeAt(q, i, j);
    } else {
      BeforeAt(q, j, i);
    }
  }

  lemma HeadFirst(q: seq<nat>, y: nat)
    requires NoDup(q) && q != []
    ensures !Before(q, y, q[0])
  {
  }

  /** The first to wake up was the first of them to fall asleep. */
  lemma FirstWoken(b: seq<nat>, w: seq<nat>, y: nat)
    requires NoDup(w) && Served(b, w) && (forall i :: i in w ==> i in b) && w != [] && y in w && y != w[0]
    ensures Before(b, w[0], y)
  {
    hide Before, NoDup;
    BeforeEither(b, w[0], y);
    HeadFirst(w, y);
  }

  lemma FirstOfLine(r: seq<nat>, b: seq<nat>, w: seq<nat>, c: nat, y: nat)
    requires NoDup(r + w) && Served(b, w) && (forall i :: i in w ==> i in b) && r + w != []
    requires y != (r + w)[0] && (y in r + w || y == c)
    ensures Before(r + (b + [c]), (r + w)[0], y)
  {
    hide Before, NoDup, Served;
    var x := (r + w)[0];
    DisjointParts(r, w);
    if x in r {
      if y in r {
        HeadBefore(r, y);
      }
      BeforeJoin(r, b + [c], x, y);
    } else {
      assert r == [] && w[0] == x;
      if y in w {
        FirstWoken(b, w, y);
      }
      BeforeJoin(b, [c], x, y);
      BeforeJoin(r, b + [c], x, y);
    }
  }

  lemma HeadBefore(q: seq<nat>, y: nat)
    requires q != [] && y in q && y != q[0]
    ensures Before(q, q[0], y)
  {
    var j: nat :| j < |q| && q[j] == y;
    BeforeAt(q, 0, j);
  }

  /** Who gets the CPU at a tick stood in front of everybody who can run after it. */
  lemma TickTakes(s: Sys, t: Sys, y: nat)
    requires Inv(s) && Next(s, Tick, t) && !s.nesting && t.current != s.current && y in t.runnable
    ensures Before(Line(s), t.current, y)
  {
    InvSized(s);
    hide Next, Spend, Sift, Inv, Served, NoDup, Before, Timer;
    var woken := TakenFrom(s, t);
    ServedSift(Spend(s).procs, s.blocked, true);
    assert Line(s) == s.runnable + (s.blocked + [s.current]);
    FirstOfLine(s.runnable, s.blocked, woken, s.current, y);
  }

  lemma TakenFrom(s: Sys, t: Sys) returns (woken: seq<nat>)
    requires Inv(s) && Next(s, Tick, t) && !s.nesting && t.current != s.current
    ensures woken == Sift(Spend(s).procs, s.blocked, true) && NoDup(s.runnable + woken) && NoDup(s.blocked)
    ensures var q := s.runnable + woken; q != [] && t.current == q[0] && forall y :: y in t.runnable ==> y != q[0] && (y in q || y == s.current)
  {
    InvSized(s);
    hide Schedule, TryToWakeup, Spend, Sift, Inv, NoDup, Sys.MayLeave;
    woken := WokenLists(s);
    var u := TryToWakeup(Spend(s));
    ScheduleRunnable(u);
    var q := s.runnable + woken;
    if q != [] {
      ScheduleQueue(u);
      SoloNoDup(q, s.current);
      TailApart(q, [s.current]);
      TailApart(q, []);
    } else {
      AloneStays(u);
    }
  }

  lemma AloneStays(u: Sys)
    requires u.Sized() && u.runnable == [] && u.procs[u.current].state == Running
    ensures Schedule(u).current == u.current
  {
  }

  lemma TailApart(q: seq<nat>, x: seq<nat>)
    requires q != []
    ensures NoDup(q + x) ==> forall y :: y in (q + x)[1..] ==> y != q[0] && (y in q || y in x)
    ensures q + [] == q
  {
    var r := q + x;
    if NoDup(r) {
      forall y | y in r[1..]
        ensures y != q[0] && (y in q || y in x)
      {
        var k: nat :| k < |r[1..]| && r[1..][k] == y;
        assert r[k + 1] == y && r[0] == q[0];
      }
    }
  }
}
