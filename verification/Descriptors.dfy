/** Descriptors, shared open-file entries and their link counts, over every run of open, close, fork and exit. */
module Descriptors {
  import opened SchedModel

  const MAX_FP_NUM: nat := 8
  const MAX_SYS_FILE_NUM: nat := 512
  const CLOSED: int := -1

  datatype SysFile = SysFile(inodeIndex: int, linkNum: int, offset: int)

  /**
   leaked is a history variable: how many descriptors naming each entry processes still held when
   they exited.
   */
  datatype Desc = Desc(fps: seq<seq<int>>, fpNum: seq<int>, live: seq<bool>, table: seq<SysFile>, leaked: seq<nat>)

  // ---------------------------------------------------------------- counting

  /** How many descriptors in fp name entry e. */
  function Uses(fp: seq<int>, e: int): nat {
    if fp == [] then 0 else Uses(fp[..|fp| - 1], e) + if fp[|fp| - 1] == e then 1 else 0
  }

  /** How many descriptors in fp are open. */
  function Open(fp: seq<int>): nat {
    if fp == [] then 0 else Open(fp[..|fp| - 1]) + if fp[|fp| - 1] != CLOSED then 1 else 0
  }

  /** How many descriptors of the first n processes, live ones only, name entry e. */
  function Refs(fps: seq<seq<int>>, live: seq<bool>, e: int, n: nat): nat
    requires n <= |fps| && n <= |live|
  {
    if n == 0 then 0 else Refs(fps, live, e, n - 1) + if live[n - 1] then Uses(fps[n - 1], e) else 0
  }

  function AllRefs(d: Desc, e: int): nat
    requires |d.fps| == |d.live| == MAX_PCB_NUM
  {
    Refs(d.fps, d.live, e, MAX_PCB_NUM)
  }

  lemma {:induction false} UsesSet(fp: seq<int>, i: nat, x: int, e: int)
    requires i < |fp|
    ensures Uses(fp[i := x], e) == Uses(fp, e) - (if fp[i] == e then 1 else 0) + (if x == e then 1 else 0)
    ensures fp[i] == e ==> Uses(fp, e) >= 1
  {
    if i < |fp| - 1 {
      assert fp[i := x][..|fp| - 1] == fp[..|fp| - 1][i := x];
      UsesSet(fp[..|fp| - 1], i, x, e);
    } else {
      assert fp[i := x][..|fp| - 1] == fp[..|fp| - 1];
    }
  }

  lemma {:induction false} OpenSet(fp: seq<int>, i: nat, x: int)
    requires i < |fp|
    ensures Open(fp[i := x]) == Open(fp) - (if fp[i] != CLOSED then 1 else 0) + (if x != CLOSED then 1 else 0)
  {
    if i < |fp| - 1 {
      assert fp[i := x][..|fp| - 1] == fp[..|fp| - 1][i := x];
      OpenSet(fp[..|fp| - 1], i, x);
    } else {
      assert fp[i := x][..|fp| - 1] == fp[..|fp| - 1];
    }
  }

  function Part(fps: seq<seq<int>>, live: seq<bool>, e: int, p: nat): nat
    requires p < |fps| && p < |live|
  {
    if live[p] then Uses(fps[p], e) else 0
  }

  /** Changing one process changes the total by what it contributed. */
  lemma {:induction false} RefsChange(fps: seq<seq<int>>, live: seq<bool>, fps': seq<seq<int>>, live': seq<bool>, e: int, p: nat, n: nat)
    requires n <= |fps| == |fps'| == |live| == |live'| && p < |fps|
    requires forall q :: 0 <= q < |fps| && q != p ==> fps'[q] == fps[q] && live'[q] == live[q]
    ensures Refs(fps', live', e, n) ==
      Refs(fps, live, e, n) + if p < n then Part(fps', live', e, p) - Part(fps, live, e, p) else 0
  {
    if n > 0 {
      RefsChange(fps, live, fps', live', e, p, n - 1);
    }
  }

  lemma {:induction false} RefsAtLeast(fps: seq<seq<int>>, live: seq<bool>, e: int, p: nat, n: nat)
    requires p < n <= |fps| == |live| && live[p]
    ensures Refs(fps, live, e, n) >= Uses(fps[p], e)
  {
    if p < n - 1 {
      RefsAtLeast(fps, live, e, p, n - 1);
    }
  }

  // ---------------------------------------------------------------- steps

  /** Process 0, idle, is never live: its descriptors are not set up and not used. */
  ghost predicate Shape(d: Desc) {
    && |d.fps| == |d.fpNum| == |d.live| == MAX_PCB_NUM
    && |d.table| == |d.leaked| == MAX_SYS_FILE_NUM && !d.live[IDLE]
    && (forall p :: 0 <= p < MAX_PCB_NUM ==> |d.fps[p]| == MAX_FP_NUM)
    && (forall p, i :: 0 < p < MAX_PCB_NUM && 0 <= i < MAX_FP_NUM ==> CLOSED <= d.fps[p][i] < MAX_SYS_FILE_NUM)
    && forall p, i :: 0 < p < MAX_PCB_NUM && 0 <= i < 3 ==> d.fps[p][i] == CLOSED
  }

  /** First free descriptor from 3 on, or MAX_FP_NUM. */
  function FreeFd(fp: seq<int>, i: nat): (k: nat)
    requires i <= |fp|
    ensures i <= k <= |fp| && (k < |fp| ==> fp[k] == CLOSED) && forall j :: i <= j < k ==> fp[j] != CLOSED
    decreases |fp| - i
  {
    if i == |fp| || fp[i] == CLOSED then i else FreeFd(fp, i + 1)
  }

  /** First free entry, or the size of the table. */
  function FreeEntry(table: seq<SysFile>): (e: nat)
    ensures e <= |table| && (e < |table| ==> table[e].inodeIndex == -1) && forall j :: 0 <= j < e ==> table[j].inodeIndex != -1
  {
    if table == [] || table[0].inodeIndex == -1 then 0 else FreeEntry(table[1..]) + 1
  }

  predicate CanOpen(d: Desc, p: nat)
    requires p < |d.fps| && |d.fps[p]| >= 3
  {
    FreeEntry(d.table) < |d.table| && FreeFd(d.fps[p], 3) < |d.fps[p]|
  }

  function OpenStep(d: Desc, p: nat, inode: nat): Desc
    requires p < |d.fps| == |d.fpNum| && |d.fps[p]| >= 3 && CanOpen(d, p)
  {
    var e, fd := FreeEntry(d.table), FreeFd(d.fps[p], 3);
    d.(table := d.table[e := SysFile(inode, 1, 0)], fps := d.fps[p := d.fps[p][fd := e]], fpNum := d.fpNum[p := d.fpNum[p] + 1])
  }

  /** The entry after one of its links is gone. */
  function Unlinked(s: SysFile): SysFile {
    if s.linkNum - 1 == 0 then SysFile(-1, 0, 0) else s.(linkNum := s.linkNum - 1)
  }

  ghost predicate HasOpen(d: Desc, p: nat, fd: nat) {
    p < |d.fps| && fd < |d.fps[p]| && 0 <= d.fps[p][fd] < |d.table|
  }

  function CloseStep(d: Desc, p: nat, fd: nat): Desc
    requires HasOpen(d, p, fd) && |d.fps| == |d.fpNum|
  {
    var e := d.fps[p][fd];
    d.(table := d.table[e := Unlinked(d.table[e])], fps := d.fps[p := d.fps[p][fd := CLOSED]], fpNum := d.fpNum[p := d.fpNum[p] - 1])
  }

  /** Every entry named in fp gains a link for each time it is named. */
  function Relinked(table: seq<SysFile>, fp: seq<int>): seq<SysFile> {
    seq(|table|, e requires 0 <= e < |table| => table[e].(linkNum := table[e].linkNum + Uses(fp, e)))
  }

  function ForkStep(d: Desc, p: nat, child: nat): Desc
    requires p < |d.fps| && child < |d.fps| == |d.fpNum| == |d.live|
  {
    d.(table := Relinked(d.table, d.fps[p]), fps := d.fps[child := d.fps[p]], fpNum := d.fpNum[child := d.fpNum[p]],
       live := d.live[child := true])
  }

  /** exit closes nothing. */
  function ExitStep(d: Desc, p: nat): Desc
    requires p < |d.fps| && p < |d.live|
  {
    d.(live := d.live[p := false], leaked := seq(|d.leaked|, e requires 0 <= e < |d.leaked| => d.leaked[e] + Uses(d.fps[p], e)))
  }

  function Moved(d: Desc, e: nat, offset: int): Desc
    requires e < |d.table|
  {
    d.(table := d.table[e := d.table[e].(offset := offset)])
  }

  // ---------------------------------------------------------------- what every run keeps

  /** Conservation: the links of an entry are the live descriptors naming it and the leaked ones. */
  ghost predicate DescInv(d: Desc) {
    && Shape(d)
    && (forall e :: 0 <= e < MAX_SYS_FILE_NUM ==> d.table[e].linkNum == AllRefs(d, e) + d.leaked[e])
    && (forall e :: 0 <= e < MAX_SYS_FILE_NUM ==> (d.table[e].inodeIndex == -1 <==> d.table[e].linkNum == 0))
    && forall p :: 0 < p < MAX_PCB_NUM ==> d.fpNum[p] == 3 + Open(d.fps[p])
  }

  lemma OpenKeeps(d: Desc, p: nat, inode: nat)
    requires DescInv(d) && p < MAX_PCB_NUM && d.live[p] && CanOpen(d, p)
    ensures DescInv(OpenStep(d, p, inode))
  {
    var e, fd := FreeEntry(d.table), FreeFd(d.fps[p], 3);
    var g := OpenStep(d, p, inode);
    OpenSet(d.fps[p], fd, e);
    forall x | 0 <= x < MAX_SYS_FILE_NUM
      ensures AllRefs(g, x) == AllRefs(d, x) + if x == e then 1 else 0
    {
      RefsChange(d.fps, d.live, g.fps, g.live, x, p, MAX_PCB_NUM);
      UsesSet(d.fps[p], fd, e, x);
    }
  }

  lemma CloseKeeps(d: Desc, p: nat, fd: nat)
    requires DescInv(d) && p < MAX_PCB_NUM && d.live[p] && HasOpen(d, p, fd)
    ensures DescInv(CloseStep(d, p, fd))
  {
    var e := d.fps[p][fd];
    var g := CloseStep(d, p, fd);
    OpenSet(d.fps[p], fd, CLOSED);
    forall x | 0 <= x < MAX_SYS_FILE_NUM
      ensures AllRefs(g, x) == AllRefs(d, x) - if x == e then 1 else 0
    {
      RefsChange(d.fps, d.live, g.fps, g.live, x, p, MAX_PCB_NUM);
      UsesSet(d.fps[p], fd, CLOSED, x);
    }
  }

  lemma ForkKeeps(d: Desc, p: nat, child: nat)
    requires DescInv(d) && p < MAX_PCB_NUM && 0 < child < MAX_PCB_NUM && d.live[p] && !d.live[child]
    ensures DescInv(ForkStep(d, p, child))
  {
    var g := ForkStep(d, p, child);
    forall x | 0 <= x < MAX_SYS_FILE_NUM
      ensures AllRefs(g, x) == AllRefs(d, x) + Uses(d.fps[p], x)
    {
      RefsChange(d.fps, d.live, g.fps, g.live, x, child, MAX_PCB_NUM);
      RefsAtLeast(d.fps, d.live, x, p, MAX_PCB_NUM);
    }
    forall x | 0 <= x < MAX_SYS_FILE_NUM && d.table[x].linkNum == 0
      ensures Uses(d.fps[p], x) == 0
    {
      RefsAtLeast(d.fps, d.live, x, p, MAX_PCB_NUM);
    }
  }

  lemma ExitKeeps(d: Desc, p: nat)
    requires DescInv(d) && p < MAX_PCB_NUM && d.live[p]
    ensures DescInv(ExitStep(d, p))
  {
    var g := ExitStep(d, p);
    forall x | 0 <= x < MAX_SYS_FILE_NUM
      ensures AllRefs(g, x) == AllRefs(d, x) - Uses(d.fps[p], x)
    {
      RefsChange(d.fps, d.live, g.fps, g.live, x, p, MAX_PCB_NUM);
    }
  }

  // ---------------------------------------------------------------- runs

  datatype FileEvent =
    | OpenEvent(p: nat, inode: nat)
    | CloseEvent(p: nat, fd: nat)
    | ForkEvent(p: nat, child: nat)
    | ExitEvent(p: nat)
    | MoveEvent(p: nat, fd: nat, offset: int)

  /** A live process acts, on its own open descriptors; a child is a dead one. */
  ghost predicate Allowed(d: Desc, e: FileEvent)
    requires Shape(d)
  {
    && e.p < MAX_PCB_NUM && d.live[e.p]
    && match e
       case OpenEvent(p, inode) => CanOpen(d, p)
       case CloseEvent(p, fd) => HasOpen(d, p, fd)
       case ForkEvent(p, child) => 0 < child < MAX_PCB_NUM && !d.live[child]
       case ExitEvent(p) => true
       case MoveEvent(p, fd, offset) => HasOpen(d, p, fd)
  }

  function Apply(d: Desc, e: FileEvent): Desc
    requires Shape(d) && Allowed(d, e)
  {
    match e
    case OpenEvent(p, inode) => OpenStep(d, p, inode)
    case CloseEvent(p, fd) => CloseStep(d, p, fd)
    case ForkEvent(p, child) => ForkStep(d, p, child)
    case ExitEvent(p) => ExitStep(d, p)
    case MoveEvent(p, fd, offset) => Moved(d, d.fps[p][fd], offset)
  }

  ghost predicate FileRun(tr: seq<Desc>, evs: seq<FileEvent>) {
    && |tr| == |evs| + 1
    && forall i :: 0 <= i < |evs| ==> Shape(tr[i]) && Allowed(tr[i], evs[i]) && tr[i + 1] == Apply(tr[i], evs[i])
  }

  /** initPcb, with the processes in live running. */
  ghost predicate NoneOpen(d: Desc) {
    && |d.fps| == |d.fpNum| == |d.live| == MAX_PCB_NUM && |d.table| == |d.leaked| == MAX_SYS_FILE_NUM
    && !d.live[IDLE] && |d.fps[IDLE]| == MAX_FP_NUM
    && (forall p :: 0 < p < MAX_PCB_NUM ==> d.fps[p] == seq(MAX_FP_NUM, _ => CLOSED) && d.fpNum[p] == 3)
    && forall e :: 0 <= e < MAX_SYS_FILE_NUM ==> d.table[e] == SysFile(-1, 0, 0) && d.leaked[e] == 0
  }

  lemma {:induction false} UsesNone(fp: seq<int>, e: int)
    requires forall i :: 0 <= i < |fp| ==> fp[i] == CLOSED
    ensures Open(fp) == 0 && (e != CLOSED ==> Uses(fp, e) == 0)
  {
    if fp != [] {
      UsesNone(fp[..|fp| - 1], e);
    }
  }

  lemma {:induction false} RefsNone(d: Desc, e: nat, n: nat)
    requires NoneOpen(d) && n <= MAX_PCB_NUM
    ensures Refs(d.fps, d.live, e, n) == 0
  {
    if n > 0 {
      RefsNone(d, e, n - 1);
      if n > 1 {
        UsesNone(d.fps[n - 1], e);
      }
    }
  }

  lemma NoneOpenInv(d: Desc)
    requires NoneOpen(d)
    ensures DescInv(d)
  {
    forall e | 0 <= e < MAX_SYS_FILE_NUM
      ensures AllRefs(d, e) == 0
    {
      RefsNone(d, e, MAX_PCB_NUM);
    }
    forall p | 0 < p < MAX_PCB_NUM
      ensures Open(d.fps[p]) == 0
    {
      UsesNone(d.fps[p], 0);
    }
  }

  lemma ApplyKeeps(d: Desc, e: FileEvent)
    requires DescInv(d) && Allowed(d, e)
    ensures DescInv(Apply(d, e))
  {
    match e
    case OpenEvent(p, inode) => OpenKeeps(d, p, inode);
    case CloseEvent(p, fd) => CloseKeeps(d, p, fd);
    case ForkEvent(p, child) => ForkKeeps(d, p, child);
    case ExitEvent(p) => ExitKeeps(d, p);
    case MoveEvent(p, fd, offset) =>
      var g := Apply(d, e);
      assert forall x :: 0 <= x < MAX_SYS_FILE_NUM ==> AllRefs(g, x) == AllRefs(d, x);
  }

  lemma {:induction false} RunKeepsDesc(tr: seq<Desc>, evs: seq<FileEvent>, n: nat)
    requires FileRun(tr, evs) && NoneOpen(tr[0]) && n <= |evs|
    ensures DescInv(tr[n])
  {
    if n == 0 {
      NoneOpenInv(tr[0]);
    } else {
      RunKeepsDesc(tr, evs, n - 1);
      ApplyKeeps(tr[n - 1], evs[n - 1]);
    }
  }

  /**
   Descriptor safety in every reachable state: a live descriptor names an entry in use, an entry has at
   least as many links as live descriptors naming it, and exactly as many when none leaked.
   */
  lemma DescriptorSafety(tr: seq<Desc>, evs: seq<FileEvent>, n: nat)
    requires FileRun(tr, evs) && NoneOpen(tr[0]) && n <= |evs|
    ensures DescInv(tr[n])
    ensures forall p, fd :: 0 <= p < MAX_PCB_NUM && tr[n].live[p] && 0 <= fd < MAX_FP_NUM && tr[n].fps[p][fd] != CLOSED ==>
      tr[n].table[tr[n].fps[p][fd]].inodeIndex != -1
    ensures forall e :: 0 <= e < MAX_SYS_FILE_NUM ==>
      && tr[n].table[e].linkNum >= AllRefs(tr[n], e)
      && (tr[n].table[e].linkNum == AllRefs(tr[n], e) <==> tr[n].leaked[e] == 0)
  {
    RunKeepsDesc(tr, evs, n);
    var d := tr[n];
    forall p, fd | 0 <= p < MAX_PCB_NUM && d.live[p] && 0 <= fd < MAX_FP_NUM && d.fps[p][fd] != CLOSED
      ensures d.table[d.fps[p][fd]].inodeIndex != -1
    {
      UsesSet(d.fps[p], fd, CLOSED, d.fps[p][fd]);
      RefsAtLeast(d.fps, d.live, d.fps[p][fd], p, MAX_PCB_NUM);
    }
  }

  /** An entry leaks exactly at an exit that still holds it, and then it is never free again. */
  lemma {:induction false} LeaksStay(tr: seq<Desc>, evs: seq<FileEvent>, e: nat, n: nat)
    requires FileRun(tr, evs) && NoneOpen(tr[0]) && n <= |evs| && e < MAX_SYS_FILE_NUM
    ensures DescInv(tr[n])
    ensures tr[n].leaked[e] > 0 <==> exists i :: 0 <= i < n && LeakAt(tr, evs, e, i)
    ensures tr[n].leaked[e] > 0 ==> tr[n].table[e].inodeIndex != -1
  {
    RunKeepsDesc(tr, evs, n);
    if n > 0 {
      LeaksStay(tr, evs, e, n - 1);
      var d, g := tr[n - 1], tr[n];
      assert g == Apply(d, evs[n - 1]);
      assert g.leaked[e] > 0 <==> d.leaked[e] > 0 || LeakAt(tr, evs, e, n - 1);
    }
  }

  ghost predicate LeakAt(tr: seq<Desc>, evs: seq<FileEvent>, e: nat, i: nat) {
    i < |evs| <= |tr| && evs[i].ExitEvent? && evs[i].p < |tr[i].fps| && Uses(tr[i].fps[evs[i].p], e) > 0
  }

  /** Open and exit: the entry keeps a link that nobody has, for good. */
  lemma OneLeak(d: Desc, p: nat, inode: nat) returns (tr: seq<Desc>, evs: seq<FileEvent>)
    requires NoneOpen(d) && 0 < p < MAX_PCB_NUM && d.live[p]
    ensures FileRun(tr, evs) && tr[0] == d && evs == [OpenEvent(p, inode), ExitEvent(p)]
    ensures DescInv(tr[2]) && tr[2].table[0].linkNum == 1 && AllRefs(tr[2], 0) == 0 && tr[2].leaked[0] == 1
  {
    NoneOpenInv(d);
    hide DescInv;
    var fd := FreeFd(d.fps[p], 3);
    assert d.fps[p][3] == CLOSED && FreeEntry(d.table) == 0;
    var g := OpenStep(d, p, inode);
    OpenKeeps(d, p, inode);
    tr, evs := [d, g, ExitStep(g, p)], [OpenEvent(p, inode), ExitEvent(p)];
    InvShape(d);
    InvShape(g);
    ExitKeeps(g, p);
    UsesSet(d.fps[p], fd, 0, 0);
    UsesNone(d.fps[p], 0);
    assert Uses(g.fps[p], 0) == 1;
    LinksAre(tr[2], 0);
  }

  lemma InvShape(d: Desc)
    requires DescInv(d)
    ensures Shape(d)
  {
  }

  lemma LinksAre(d: Desc, e: nat)
    requires DescInv(d) && e < MAX_SYS_FILE_NUM
    ensures |d.fps| == |d.live| == MAX_PCB_NUM && |d.table| == |d.leaked| == MAX_SYS_FILE_NUM
    ensures d.table[e].linkNum == AllRefs(d, e) + d.leaked[e]
  {
  }
}
