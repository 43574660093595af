/** Semaphores over whole runs: counting, mutual exclusion, wake-up order. */
module SemTheorems {
  import opened Seqs
  import opened SchedModel
  import opened SchedInvariant
  import opened SchedRuns
  import opened SchedTheorems

  ghost function Waits(evs: seq<Event>, a: SemId, n: nat): nat
    requires n <= |evs|
  {
    if n == 0 then 0 else Waits(evs, a, n - 1) + if evs[n - 1] == SemWaitCall(a) then 1 else 0
  }

  ghost function Posts(evs: seq<Event>, a: SemId, n: nat): nat
    requires n <= |evs|
  {
    if n == 0 then 0 else Posts(evs, a, n - 1) + if evs[n - 1] == SemPostCall(a) then 1 else 0
  }

  /** What an event does to the table of semaphore values. */
  function SemsAfter(sems: map<SemId, int>, e: Event): map<SemId, int> {
    match e
    case SemInitCall(a, v) => sems[a := v]
    case SemWaitCall(a) => if a in sems then sems[a := sems[a] - 1] else sems
    case SemPostCall(a) => if a in sems then sems[a := sems[a] + 1] else sems
    case _ => sems
  }

  /** What an event does to the list of waiters. */
  function WaitingAfter(s: Sys, e: Event): seq<nat> {
    match e
    case SemWaitCall(a) => if a in s.sems && s.sems[a] <= 0 then s.waiting + [s.current] else s.waiting
    case SemPostCall(a) => if a in s.sems && s.sems[a] < 0 && s.waiting != [] then s.waiting[1..] else s.waiting
    case _ => s.waiting
  }

  lemma StepSems(s: Sys, e: Event, t: Sys)
    requires Next(s, e, t)
    ensures t.sems == SemsAfter(s.sems, e) && t.waiting == WaitingAfter(s, e)
  {
    hide Timer, Leave;
    match e
    case Tick => TimerLists(s);
    case ExitCall => LeaveLists(s.(pnum := s.pnum - 1), Dead);
    case SleepCall(n) => LeaveLists(s.WithProc(s.current, s.procs[s.current].(sleepTime := n)), Blocked);
    case SemWaitCall(a) =>
      if s.sems[a] <= 0 {
        LeaveLists(s.(sems := s.sems[a := s.sems[a] - 1]), SemBlocked);
      }
    case _ =>
  }

  /** With any number of semaphores: value = initial - waits + posts, for every one of them. */
  lemma {:induction false} ValueLaw(tr: seq<Sys>, evs: seq<Event>, a: SemId, n: nat)
    requires Run(tr, evs) && Inv(tr[0]) && a in tr[0].sems && n <= |evs|
    requires forall i :: 0 <= i < n ==> !(evs[i].SemInitCall? && evs[i].sem == a)
    ensures Inv(tr[n]) && a in tr[n].sems
    ensures tr[n].sems[a] == tr[0].sems[a] - Waits(evs, a, n) + Posts(evs, a, n)
  {
    hide Step, Inv, Enabled;
    if n > 0 {
      ValueLaw(tr, evs, a, n - 1);
      assert Next(tr[n - 1], evs[n - 1], tr[n]);
      NextKeeps(tr[n - 1], evs[n - 1], tr[n]);
      StepSems(tr[n - 1], evs[n - 1], tr[n]);
    }
  }

  // ---------------------------------------------------------------- the shared wait list

  /** Since the last sem_init of a semaphore, event j, its value is the one given minus the P plus the V calls after it. */
  lemma {:induction false} ValueSinceInit(tr: seq<Sys>, evs: seq<Event>, a: SemId, v: int, j: nat, n: nat)
    requires Run(tr, evs) && j < n <= |evs| && evs[j] == SemInitCall(a, v)
    requires forall i :: j < i < n ==> !(evs[i].SemInitCall? && evs[i].sem == a)
    ensures a in tr[n].sems
    ensures tr[n].sems[a] == v - (Waits(evs, a, n) - Waits(evs, a, j)) + (Posts(evs, a, n) - Posts(evs, a, j))
  {
    hide Step, Enabled;
    if n > j + 1 {
      ValueSinceInit(tr, evs, a, v, j, n - 1);
    }
    assert Next(tr[n - 1], evs[n - 1], tr[n]);
    StepSems(tr[n - 1], evs[n - 1], tr[n]);
  }

  /** However many semaphores share the list, V finds a waiter whenever the value is negative. */
  lemma SharedListLaw(tr: seq<Sys>, evs: seq<Event>, n: nat)
    requires Run(tr, evs) && Boot(tr[0]) && n <= |evs|
    ensures Debt(tr[n].sems) == |tr[n].waiting|
    ensures Inv(tr[n])
    ensures forall a :: a in tr[n].sems ==> SemPost(tr[n], a).Some? && -(MAX_PCB_NUM as int) < tr[n].sems[a]
  {
    BootKeeps();
    RunKeeps(tr, evs, n);
    var s := tr[n];
    RunnableShort(s);
    forall a | a in s.sems
      ensures SemPost(s, a).Some? && -(MAX_PCB_NUM as int) < s.sems[a]
    {
      SemPostKeeps(s, a);
      DebtWithout(s.sems, a);
    }
  }

  /** sem_init forgets whoever waits, so it keeps the invariant exactly when nobody does. */
  lemma SemInitExactly(s: Sys, a: SemId, v: int)
    requires Inv(s) && s.current != IDLE
    ensures Inv(SemInit(s, a, v)) <==> s.waiting == [] && 0 <= v
  {
    var t := SemInit(s, a, v);
    if s.waiting != [] {
      assert At(s, s.waiting[0]) && !At(t, s.waiting[0]);
    } else if v < 0 {
      DebtWithout(t.sems, a);
    } else {
      SemInitKeeps(s, a, v);
    }
  }

  // ---------------------------------------------------------------- whom a V wakes

  /** A V that finds its semaphore negative takes the first waiter off the shared list. */
  ghost predicate Wakes(s: Sys, e: Event) {
    e.SemPostCall? && e.sem in s.sems && s.sems[e.sem] < 0
  }

  /**
   A history of the shared list: the semaphores on which the waiters called P, in the order of the
   list.  The kernel does not keep it.
   */
  ghost function CallsAfter(s: Sys, e: Event, w: seq<SemId>): seq<SemId> {
    if e.SemWaitCall? && e.sem in s.sems && s.sems[e.sem] <= 0 then w + [e.sem]
    else if Wakes(s, e) && w != [] then w[1..]
    else w
  }

  ghost function Calls(tr: seq<Sys>, evs: seq<Event>, w0: seq<SemId>, n: nat): seq<SemId>
    requires n <= |evs| <= |tr|
  {
    if n == 0 then w0 else CallsAfter(tr[n - 1], evs[n - 1], Calls(tr, evs, w0, n - 1))
  }

  function Owed(sems: map<SemId, int>, a: SemId): nat {
    if a in sems then Deficit(sems[a]) else 0
  }

  function Times(w: seq<SemId>, a: SemId): nat {
    multiset(w)[a]
  }

  /** Every semaphore owes a wake-up to exactly as many waiters as its value says. */
  ghost predicate Own(s: Sys, w: seq<SemId>) {
    |w| == |s.waiting| && forall a: SemId :: Times(w, a) == Owed(s.sems, a)
  }

  /** If this event wakes a process it is one that waits for the semaphore posted. */
  ghost predicate Hits(s: Sys, e: Event, w: seq<SemId>) {
    Wakes(s, e) ==> w != [] && w[0] == e.sem
  }

  ghost predicate HitsAt(tr: seq<Sys>, evs: seq<Event>, w0: seq<SemId>, i: nat)
    requires i < |evs| <= |tr|
  {
    Hits(tr[i], evs[i], Calls(tr, evs, w0, i))
  }

  lemma TailCount(w: seq<SemId>, a: SemId)
    requires w != []
    ensures Times(w[1..], a) == Times(w, a) - if w[0] == a then 1 else 0
  {
    assert w == [w[0]] + w[1..];
  }

  lemma OwedAfter(s: Sys, e: Event, t: Sys, a: SemId)
    requires Next(s, e, t)
    ensures Owed(t.sems, a) == if e.SemWaitCall? && e.sem == a && s.sems[a] <= 0 then Owed(s.sems, a) + 1
      else if Wakes(s, e) && e.sem == a then Owed(s.sems, a) - 1
      else if e.SemInitCall? && e.sem == a then 0
      else Owed(s.sems, a)
  {
    hide Step;
    StepSems(s, e, t);
  }

  /** The books stay right exactly when a wake-up goes to a process waiting for the semaphore posted. */
  lemma OwnStep(s: Sys, e: Event, t: Sys, w: seq<SemId>)
    requires Next(s, e, t) && Own(s, w)
    ensures Own(t, CallsAfter(s, e, w)) <==> Hits(s, e, w)
  {
    var v := CallsAfter(s, e, w);
    LengthAfter(s, e, t, w);
    if e.SemInitCall? {
      assert w == [];
    }
    if Wakes(s, e) {
      assert Times(w, e.sem) > 0;
      TailCount(w, e.sem);
    }
    hide Next, Enabled, Step;
    if Hits(s, e, w) {
      forall a: SemId
        ensures Times(v, a) == Owed(t.sems, a)
      {
        OwedAfter(s, e, t, a);
        if Wakes(s, e) {
          TailCount(w, a);
        }
      }
    } else {
      OwedAfter(s, e, t, e.sem);
      assert Times(v, e.sem) != Owed(t.sems, e.sem);
    }
  }

  lemma LengthAfter(s: Sys, e: Event, t: Sys, w: seq<SemId>)
    requires Next(s, e, t) && Own(s, w)
    ensures |CallsAfter(s, e, w)| == |t.waiting| && |w| == |s.waiting|
  {
    hide Step;
    StepSems(s, e, t);
    if Wakes(s, e) {
      assert Times(w, e.sem) > 0;
    }
  }

  lemma OwnAt(tr: seq<Sys>, evs: seq<Event>, w0: seq<SemId>, i: nat)
    requires Run(tr, evs) && i < |evs| && Own(tr[i], Calls(tr, evs, w0, i))
    ensures Own(tr[i + 1], Calls(tr, evs, w0, i + 1)) <==> HitsAt(tr, evs, w0, i)
  {
    OwnStep(tr[i], evs[i], tr[i + 1], Calls(tr, evs, w0, i));
  }

  /** Over a run: the books are right throughout exactly when every wake-up hit its own semaphore. */
  lemma {:induction false} OwnRun(tr: seq<Sys>, evs: seq<Event>, w0: seq<SemId>, n: nat)
    requires Run(tr, evs) && Own(tr[0], w0) && n <= |evs|
    ensures (forall i :: 0 <= i <= n ==> Own(tr[i], Calls(tr, evs, w0, i))) <==> (forall i :: 0 <= i < n ==> HitsAt(tr, evs, w0, i))
  {
    hide Own, HitsAt, Next, Calls;
    if n == 0 {
      assert Calls(tr, evs, w0, 0) == w0 by { NoCalls(tr, evs, w0); }
    } else {
      OwnRun(tr, evs, w0, n - 1);
      if forall i :: 0 <= i <= n - 1 ==> Own(tr[i], Calls(tr, evs, w0, i)) {
        OwnAt(tr, evs, w0, n - 1);
      }
    }
  }

  lemma NoCalls(tr: seq<Sys>, evs: seq<Event>, w0: seq<SemId>)
    requires |evs| <= |tr|
    ensures Calls(tr, evs, w0, 0) == w0
  {
  }

  /** At boot there is no semaphore and nobody waits. */
  lemma BootOwn(s: Sys)
    requires Boot(s)
    ensures Own(s, []) && Inv(s)
  {
    BootKeeps();
    assert s.sems == map[] && s.waiting == [];
  }

  /**
   What the caller of V can tell from the values: the process woken waits for b whatever the order of
   the list if and only if no other semaphore is negative.
   */
  lemma ValuesDecide(s: Sys, w: seq<SemId>, b: SemId)
    requires Own(s, w) && b in s.sems && s.sems[b] < 0
    ensures (forall c :: c in s.sems && c != b ==> 0 <= s.sems[c]) <==> (forall v: seq<SemId> :: Own(s, v) ==> v != [] && v[0] == b)
  {
    if forall c :: c in s.sems && c != b ==> 0 <= s.sems[c] {
      forall v: seq<SemId> | Own(s, v)
        ensures v != [] && v[0] == b
      {
        assert Times(v, b) > 0;
        assert Times(v, v[0]) > 0;
      }
    } else {
      var c :| c in s.sems && c != b && s.sems[c] < 0;
      assert Times(w, c) > 0;
      var k :| 0 <= k < |w| && w[k] == c;
      var v := [c] + (w[..k] + w[k + 1..]);
      assert w == w[..k] + ([c] + w[k + 1..]);
      assert multiset(v) == multiset(w);
      assert Own(s, v) && v[0] != b;
    }
  }

  /** No V wakes anybody while another semaphore is negative. */
  ghost predicate Quiet(s: Sys, e: Event) {
    Wakes(s, e) ==> forall c :: c in s.sems && c != e.sem ==> 0 <= s.sems[c]
  }

  lemma {:induction false} QuietHits(tr: seq<Sys>, evs: seq<Event>, w0: seq<SemId>, n: nat)
    requires Run(tr, evs) && Own(tr[0], w0) && n <= |evs|
    requires forall i :: 0 <= i < n ==> Quiet(tr[i], evs[i])
    ensures forall i :: 0 <= i < n ==> HitsAt(tr, evs, w0, i)
  {
    hide Own, Next, CallsAfter;
    if n > 0 {
      QuietHits(tr, evs, w0, n - 1);
      OwnRun(tr, evs, w0, n - 1);
      assert Own(tr[n - 1], Calls(tr, evs, w0, n - 1));
      if Wakes(tr[n - 1], evs[n - 1]) {
        ValuesDecide(tr[n - 1], Calls(tr, evs, w0, n - 1), evs[n - 1].sem);
      }
    }
  }

  // ---------------------------------------------------------------- mutual exclusion

  /** The processes that have got past P(a), at once or by being woken, and not yet called V(a). */
  ghost function Inside(tr: seq<Sys>, evs: seq<Event>, w0: seq<SemId>, a: SemId, n: nat): set<nat>
    requires n <= |evs| <= |tr|
  {
    if n == 0 then {}
    else InsideAfter(tr[n - 1], evs[n - 1], Calls(tr, evs, w0, n - 1), a, Inside(tr, evs, w0, a, n - 1))
  }

  ghost function InsideAfter(s: Sys, e: Event, w: seq<SemId>, a: SemId, before: set<nat>): set<nat> {
    if e == SemWaitCall(a) && a in s.sems && s.sems[a] > 0 then before + {s.current}
    else if e.SemPostCall? then (if e.sem == a then before - {s.current} else before) + Admitted(s, e, w, a)
    else before
  }

  /** The process woken gets past the P it called, whatever semaphore was posted. */
  ghost function Admitted(s: Sys, e: Event, w: seq<SemId>, a: SemId): set<nat> {
    if Wakes(s, e) && w != [] && w[0] == a && s.waiting != [] then {s.waiting[0]} else {}
  }

  /** A process asks for entry only from outside and leaves only from inside. */
  ghost predicate Disciplined(s: Sys, e: Event, a: SemId, inside: set<nat>) {
    && !(e.SemInitCall? && e.sem == a)
    && (e == SemWaitCall(a) ==> s.current !in inside)
    && (e == SemPostCall(a) ==> s.current in inside)
  }

  /** What the semaphore accounts for: capacity - free slots processes are inside, and none of them waits for it. */
  ghost predicate Guarded(s: Sys, w: seq<SemId>, a: SemId, inside: set<nat>, capacity: nat) {
    && a in s.sems && |w| == |s.waiting|
    && |inside| == capacity - (if s.sems[a] > 0 then s.sems[a] else 0)
    && forall k :: 0 <= k < |w| && w[k] == a ==> s.waiting[k] !in inside
  }

  /** The waiters are different processes, and the current one is none of them. */
  lemma WaitersApart(s: Sys)
    requires Inv(s)
    ensures forall k :: 0 <= k < |s.waiting| ==> s.waiting[k] != s.current
    ensures forall j, k :: 0 <= j < k < |s.waiting| ==> s.waiting[j] != s.waiting[k]
  {
    assert NoDup(s.waiting);
    forall k | 0 <= k < |s.waiting|
      ensures s.waiting[k] != s.current
    {
      assert At(s, s.waiting[k]);
    }
  }

  lemma StepInside(s: Sys, e: Event, t: Sys, w: seq<SemId>, a: SemId, inside: set<nat>, capacity: nat)
    requires Inv(s) && Next(s, e, t) && Own(s, w) && Hits(s, e, w)
    requires Guarded(s, w, a, inside, capacity) && Disciplined(s, e, a, inside)
    ensures Guarded(t, CallsAfter(s, e, w), a, InsideAfter(s, e, w, a, inside), capacity)
  {
    hide Step, Enabled, Inv, Own, Guarded, InsideAfter, CallsAfter;
    WaitersApart(s);
    StepSems(s, e, t);
    LengthAfter(s, e, t, w);
    if Wakes(s, e) {
      FirstOwed(s, e, w);
      WakeInside(s, e, t, w, a, inside, capacity);
    } else {
      QuietInside(s, e, t, w, a, inside, capacity);
    }
  }

  lemma WakeInside(s: Sys, e: Event, t: Sys, w: seq<SemId>, a: SemId, inside: set<nat>, capacity: nat)
    requires Wakes(s, e) && w != [] && w[0] == e.sem && t.sems == SemsAfter(s.sems, e) && t.waiting == WaitingAfter(s, e)
    requires Guarded(s, w, a, inside, capacity) && Disciplined(s, e, a, inside)
    requires s.waiting[0] != s.current && forall k :: 0 < k < |s.waiting| ==> s.waiting[k] != s.waiting[0]
    ensures Guarded(t, CallsAfter(s, e, w), a, InsideAfter(s, e, w, a, inside), capacity)
  {
    var after := InsideAfter(s, e, w, a, inside);
    if e.sem == a {
      assert after == (inside - {s.current}) + {s.waiting[0]};
      assert |inside - {s.current}| == |inside| - 1;
    } else {
      assert after == inside;
    }
  }

  lemma QuietInside(s: Sys, e: Event, t: Sys, w: seq<SemId>, a: SemId, inside: set<nat>, capacity: nat)
    requires !Wakes(s, e) && t.sems == SemsAfter(s.sems, e) && t.waiting == WaitingAfter(s, e)
    requires Guarded(s, w, a, inside, capacity) && Disciplined(s, e, a, inside) && |CallsAfter(s, e, w)| == |t.waiting|
    requires forall k :: 0 <= k < |s.waiting| ==> s.waiting[k] != s.current
    ensures Guarded(t, CallsAfter(s, e, w), a, InsideAfter(s, e, w, a, inside), capacity)
  {
    var after := InsideAfter(s, e, w, a, inside);
    if e == SemWaitCall(a) && s.sems[a] > 0 {
      assert after == inside + {s.current};
    } else if e == SemPostCall(a) {
      assert after == inside - {s.current};
      assert |after| == |inside| - 1;
    } else {
      assert after == inside;
    }
  }

  lemma FirstOwed(s: Sys, e: Event, w: seq<SemId>)
    requires Own(s, w) && Wakes(s, e)
    ensures w != [] && w[0] in s.sems && s.sems[w[0]] < 0
  {
    assert Times(w, e.sem) > 0;
    assert Times(w, w[0]) > 0;
  }

  /** A wake-up that goes astray lets one process too many past the P it called. */
  lemma AstrayBreaks(s: Sys, e: Event, w: seq<SemId>, inside: set<nat>, capacity: nat)
    requires Own(s, w) && w != [] && Wakes(s, e) && !Hits(s, e, w) && Guarded(s, w, w[0], inside, capacity)
    ensures |InsideAfter(s, e, w, w[0], inside)| == capacity + 1
  {
    FirstOwed(s, e, w);
    assert InsideAfter(s, e, w, w[0], inside) == inside + {s.waiting[0]};
  }

  /**
   Mutual exclusion for any number of semaphores: as long as every wake-up goes to a process waiting
   for the semaphore posted, at most the initial value of processes are past P(a).
   */
  lemma {:induction false} MutualExclusion(tr: seq<Sys>, evs: seq<Event>, w0: seq<SemId>, a: SemId, n: nat)
    requires Run(tr, evs) && Inv(tr[0]) && Own(tr[0], w0) && a in tr[0].sems && 0 <= tr[0].sems[a] && n <= |evs|
    requires forall i :: 0 <= i < n ==> Disciplined(tr[i], evs[i], a, Inside(tr, evs, w0, a, i))
    requires forall i :: 0 <= i < n ==> HitsAt(tr, evs, w0, i)
    ensures Inv(tr[n]) && Own(tr[n], Calls(tr, evs, w0, n))
    ensures Guarded(tr[n], Calls(tr, evs, w0, n), a, Inside(tr, evs, w0, a, n), tr[0].sems[a])
    ensures |Inside(tr, evs, w0, a, n)| <= tr[0].sems[a]
  {
    hide Inv, Own, Hits, Next, CallsAfter, InsideAfter, Disciplined;
    if n == 0 {
      NoneAtStart(tr[0], w0, a);
    } else {
      MutualExclusion(tr, evs, w0, a, n - 1);
      assert Next(tr[n - 1], evs[n - 1], tr[n]);
      assert HitsAt(tr, evs, w0, n - 1);
      NextKeeps(tr[n - 1], evs[n - 1], tr[n]);
      OwnStep(tr[n - 1], evs[n - 1], tr[n], Calls(tr, evs, w0, n - 1));
      StepInside(tr[n - 1], evs[n - 1], tr[n], Calls(tr, evs, w0, n - 1), a, Inside(tr, evs, w0, a, n - 1), tr[0].sems[a]);
    }
  }

  lemma NoneAtStart(s: Sys, w: seq<SemId>, a: SemId)
    requires Own(s, w) && a in s.sems && 0 <= s.sems[a]
    ensures Guarded(s, w, a, {}, s.sems[a])
  {
  }

  /** The semaphores of a run that initialises none. */
  lemma {:induction false} SameSems(tr: seq<Sys>, evs: seq<Event>, n: nat)
    requires Run(tr, evs) && n <= |evs| && forall i :: 0 <= i < n ==> !evs[i].SemInitCall?
    ensures tr[n].sems.Keys == tr[0].sems.Keys
  {
    hide Step, Enabled;
    if n > 0 {
      SameSems(tr, evs, n - 1);
      assert Next(tr[n - 1], evs[n - 1], tr[n]);
      StepSems(tr[n - 1], evs[n - 1], tr[n]);
    }
  }

  /** Nobody waits, and no semaphore is initialised on the way, at which all processes keep the discipline. */
  ghost predicate DisciplinedRun(tr: seq<Sys>, evs: seq<Event>)
    requires |evs| < |tr|
  {
    && (forall a :: a in tr[0].sems ==> 0 <= tr[0].sems[a])
    && (forall i :: 0 <= i < |evs| ==> !evs[i].SemInitCall?)
    && forall a, i :: a in tr[0].sems && 0 <= i < |evs| ==> Disciplined(tr[i], evs[i], a, Inside(tr, evs, [], a, i))
  }

  /** All semaphores exclude over the whole run exactly when every wake-up hit its own semaphore. */
  lemma ExclusionExactly(tr: seq<Sys>, evs: seq<Event>)
    requires Run(tr, evs) && Inv(tr[0]) && Own(tr[0], []) && DisciplinedRun(tr, evs)
    ensures (forall a, i :: a in tr[0].sems && 0 <= i <= |evs| ==> |Inside(tr, evs, [], a, i)| <= tr[0].sems[a])
      <==> (forall i :: 0 <= i < |evs| ==> HitsAt(tr, evs, [], i))
  {
    hide Inv, Own, Disciplined, HitsAt;
    if forall i :: 0 <= i < |evs| ==> HitsAt(tr, evs, [], i) {
      forall a, i | a in tr[0].sems && 0 <= i <= |evs|
        ensures |Inside(tr, evs, [], a, i)| <= tr[0].sems[a]
      {
        MutualExclusion(tr, evs, [], a, i);
      }
    } else {
      var i := FirstMiss(tr, evs, |evs|);
      MissBreaks(tr, evs, i);
    }
  }

  lemma {:induction false} FirstMiss(tr: seq<Sys>, evs: seq<Event>, n: nat) returns (i: nat)
    requires n <= |evs| <= |tr| && exists i :: 0 <= i < n && !HitsAt(tr, evs, [], i)
    ensures i < n && !HitsAt(tr, evs, [], i) && forall j :: 0 <= j < i ==> HitsAt(tr, evs, [], j)
  {
    if j :| 0 <= j < n - 1 && !HitsAt(tr, evs, [], j) {
      i := FirstMiss(tr, evs, n - 1);
    } else {
      i := n - 1;
    }
  }

  lemma MissBreaks(tr: seq<Sys>, evs: seq<Event>, i: nat)
    requires Run(tr, evs) && Inv(tr[0]) && Own(tr[0], []) && DisciplinedRun(tr, evs)
    requires i < |evs| && !HitsAt(tr, evs, [], i) && forall j :: 0 <= j < i ==> HitsAt(tr, evs, [], j)
    ensures exists c :: c in tr[0].sems && |Inside(tr, evs, [], c, i + 1)| == tr[0].sems[c] + 1
  {
    var w := Calls(tr, evs, [], i);
    SameSems(tr, evs, i);
    OwnRun(tr, evs, [], i);
    assert Own(tr[i], w) && Wakes(tr[i], evs[i]);
    FirstOwed(tr[i], evs[i], w);
    MutualExclusion(tr, evs, [], w[0], i);
    AstrayBreaks(tr[i], evs[i], w, Inside(tr, evs, [], w[0], i), tr[0].sems[w[0]]);
  }

  // ---------------------------------------------------------------- wake-up order

  ghost function Wakeups(tr: seq<Sys>, evs: seq<Event>, n: nat): nat
    requires n <= |evs| <= |tr|
  {
    if n == 0 then 0 else Wakeups(tr, evs, n - 1) + if Wakes(tr[n - 1], evs[n - 1]) then 1 else 0
  }

  lemma StepFifo(s: Sys, e: Event, t: Sys, j: nat)
    requires Inv(s) && Next(s, e, t) && j < |s.waiting|
    ensures Wakes(s, e) && j > 0 ==> j - 1 < |t.waiting| && t.waiting[j - 1] == s.waiting[j]
    ensures !Wakes(s, e) ==> j < |t.waiting| && t.waiting[j] == s.waiting[j]
    ensures Wakes(s, e) ==> t.runnable == s.runnable + [s.waiting[0]]
  {
    StepSems(s, e, t);
  }

  /**
   No lost wake-up, first come first served: the waiter at position j stays on the list until the
   (j+1)-th V of a negative semaphore, which puts it at the tail of the runnable list.
   */
  lemma {:induction false} FifoWakeup(tr: seq<Sys>, evs: seq<Event>, j: nat, n: nat)
    requires Run(tr, evs) && Inv(tr[0]) && j < |tr[0].waiting| && n <= |evs|
    requires Wakeups(tr, evs, n) <= j
    ensures Inv(tr[n])
    ensures var k := j - Wakeups(tr, evs, n); k < |tr[n].waiting| && tr[n].waiting[k] == tr[0].waiting[j]
    ensures n < |evs| && Wakes(tr[n], evs[n]) && Wakeups(tr, evs, n) == j ==>
      tr[n + 1].runnable == tr[n].runnable + [tr[0].waiting[j]]
  {
    hide Step, Inv, Enabled;
    if n > 0 {
      FifoWakeup(tr, evs, j, n - 1);
      assert Next(tr[n - 1], evs[n - 1], tr[n]);
      NextKeeps(tr[n - 1], evs[n - 1], tr[n]);
      StepFifo(tr[n - 1], evs[n - 1], tr[n], j - Wakeups(tr, evs, n - 1));
    }
    if n < |evs| {
      assert Next(tr[n], evs[n], tr[n + 1]);
      StepFifo(tr[n], evs[n], tr[n + 1], j - Wakeups(tr, evs, n));
    }
  }

  /** Waiters for a in front of position k. */
  ghost function Ahead(w: seq<SemId>, a: SemId, k: nat): nat
    requires k <= |w|
  {
    Times(w[..k], a)
  }

  lemma AheadStep(s: Sys, e: Event, t: Sys, w: seq<SemId>, a: SemId, k: nat)
    requires Next(s, e, t) && Own(s, w) && Hits(s, e, w) && k < |w| && w[k] == a
    requires e == SemPostCall(a) ==> Ahead(w, a, k) > 0
    ensures Wakes(s, e) ==> k > 0
    ensures var v := CallsAfter(s, e, w); var j := if Wakes(s, e) then k - 1 else k;
      && j < |v| && v[j] == a && Ahead(v, a, j) == Ahead(w, a, k) - if e == SemPostCall(a) then 1 else 0
  {
    hide Step, Enabled;
    assert Times(w, a) > 0;
    if Wakes(s, e) {
      assert w[..0] == [];
      assert w[..k][1..] == w[1..][..k - 1];
      TailCount(w[..k], a);
    } else {
      assert CallsAfter(s, e, w)[..k] == w[..k];
    }
  }

  /**
   First come first served on each semaphore, for any number of them: a process waiting for a behind m
   others that wait for a stays on the list until the (m+1)-th V(a), which makes it runnable.
   */
  lemma {:induction false} OwnFifo(tr: seq<Sys>, evs: seq<Event>, w0: seq<SemId>, a: SemId, j: nat, n: nat)
    requires Run(tr, evs) && Inv(tr[0]) && Own(tr[0], w0) && j < |w0| && w0[j] == a && n <= |evs|
    requires forall i :: 0 <= i < n ==> HitsAt(tr, evs, w0, i)
    requires Posts(evs, a, n) <= Ahead(w0, a, j)
    ensures Wakeups(tr, evs, n) <= j < |tr[0].waiting| && Inv(tr[n])
    ensures var w, k := Calls(tr, evs, w0, n), j - Wakeups(tr, evs, n);
      && k < |w| == |tr[n].waiting| && w[k] == a && tr[n].waiting[k] == tr[0].waiting[j]
      && Own(tr[n], w) && Ahead(w, a, k) == Ahead(w0, a, j) - Posts(evs, a, n)
    ensures n < |evs| && evs[n] == SemPostCall(a) && Posts(evs, a, n) == Ahead(w0, a, j) && HitsAt(tr, evs, w0, n) ==>
      tr[n + 1].runnable == tr[n].runnable + [tr[0].waiting[j]]
  {
    hide Inv, Own, Hits, Next, CallsAfter, Ahead;
    if n > 0 {
      OwnFifo(tr, evs, w0, a, j, n - 1);
      var w, k := Calls(tr, evs, w0, n - 1), j - Wakeups(tr, evs, n - 1);
      assert Next(tr[n - 1], evs[n - 1], tr[n]) && HitsAt(tr, evs, w0, n - 1);
      AheadStep(tr[n - 1], evs[n - 1], tr[n], w, a, k);
      OwnStep(tr[n - 1], evs[n - 1], tr[n], w);
      OwnLength(tr[n], Calls(tr, evs, w0, n));
      FifoWakeup(tr, evs, j, n);
    } else {
      OwnLength(tr[0], w0);
    }
    if n < |evs| && evs[n] == SemPostCall(a) && Posts(evs, a, n) == Ahead(w0, a, j) && HitsAt(tr, evs, w0, n) {
      assert Next(tr[n], evs[n], tr[n + 1]);
      FirstServed(tr[n], evs[n], tr[n + 1], Calls(tr, evs, w0, n), a, j - Wakeups(tr, evs, n));
    }
  }

  lemma OwnLength(s: Sys, w: seq<SemId>)
    requires Own(s, w)
    ensures |w| == |s.waiting|
  {
  }

  lemma FirstAhead(w: seq<SemId>, a: SemId)
    requires w != [] && w[0] == a
    ensures forall k :: 0 < k <= |w| ==> Ahead(w, a, k) > 0
  {
    forall k | 0 < k <= |w|
      ensures Ahead(w, a, k) > 0
    {
      assert w[..k][0] == a;
    }
  }

  lemma FirstServed(s: Sys, e: Event, t: Sys, w: seq<SemId>, a: SemId, k: nat)
    requires Inv(s) && Next(s, e, t) && Own(s, w) && Hits(s, e, w) && k < |w| && w[k] == a
    requires e == SemPostCall(a) && Ahead(w, a, k) == 0
    ensures k < |s.waiting| && t.runnable == s.runnable + [s.waiting[k]]
  {
    hide Inv, Next;
    assert Times(w, a) > 0;
    FirstAhead(w, a);
    StepFifo(s, e, t, k);
  }

  lemma CpuBound(s: Sys)
    requires Inv(s)
    ensures s.Sized() && s.procs[s.current].timeCount <= QUANTUM
  {
  }

  /** A woken waiter then gets the CPU within the round-robin bound. */
  lemma WokenRuns(tr: seq<Sys>, evs: seq<Event>, j: nat, n: nat)
    requires Run(tr, evs) && Inv(tr[0]) && j < |tr[0].waiting| && n < |evs|
    requires Wakeups(tr, evs, n) == j && Wakes(tr[n], evs[n])
    requires Ticks(tr[n + 1..], evs[n + 1..], |evs| - n - 1) >= QUANTUM * |tr[n + 1].runnable|
    ensures exists i :: n < i <= |evs| && tr[i].current == tr[0].waiting[j]
  {
    hide Step, Inv, Enabled;
    FifoWakeup(tr, evs, j, n);
    RunKeeps(tr, evs, n + 1);
    CpuBound(tr[n + 1]);
    var tr1, evs1 := tr[n + 1..], evs[n + 1..];
    forall i | 0 <= i < |evs1|
      ensures Next(tr1[i], evs1[i], tr1[i + 1])
    {
      assert Next(tr[n + 1 + i], evs[n + 1 + i], tr[n + 1 + i + 1]);
    }
    BoundedWaiting(tr1, evs1, |tr1[0].runnable| - 1);
    var i :| 0 <= i <= |evs1| && tr1[i].current == tr[0].waiting[j];
    assert tr[n + 1 + i].current == tr[0].waiting[j];
  }
}
