/** Scheduler, descriptors and disk together: fork and exit as a whole. */
module Processes {
  import opened Seqs
  import opened SchedModel
  import opened SchedInvariant
  import opened SchedRuns
  import opened SchedTheorems
  import opened Lists
  import opened Scheduler
  import opened Descriptors
  import opened OpenFiles
  import opened Disk

  /** The processes that own descriptors are those whose PCB is not dead. */
  ghost predicate Agree(s: Sys, d: Desc) {
    |s.procs| == MAX_PCB_NUM == |d.live| && forall i :: 0 < i < MAX_PCB_NUM ==> (d.live[i] <==> Alive(s, i))
  }

  lemma CurrentAlive(s: Sys, d: Desc)
    requires Inv(s) && Agree(s, d) && s.current != IDLE
    ensures 0 < s.current < MAX_PCB_NUM && d.live[s.current]
  {
  }

  lemma ForkAgrees(s: Sys, d: Desc)
    requires Inv(s) && DescInv(d) && Agree(s, d) && s.current != IDLE && SchedModel.Fork(s).Some?
    ensures 0 < s.pnum < MAX_PCB_NUM && s.pnum != s.current && !d.live[s.pnum] && d.live[s.current]
    ensures Fork(s).value.current == s.current
    ensures Agree(Fork(s).value, ForkStep(d, s.current, s.pnum))
  {
    CurrentAlive(s, d);
    RunnableShort(s);
    var c: nat := s.pnum;
    assert c in s.free;
    assert s.free[IndexOf(s.free, c)] == c;
    assert At(s, c);
  }

  lemma ExitAgrees(s: Sys, d: Desc)
    requires Inv(s) && DescInv(d) && Agree(s, d) && Enabled(s, ExitCall)
    ensures s.current != IDLE && Agree(Exit(s), ExitStep(d, s.current))
  {
    InvReady(s);
    assert Next(s, ExitCall, Exit(s));
    CurrentAlive(s, d);
    hide Inv, DescInv, Exit, Next;
    StepLife(s, ExitCall, Exit(s));
  }

  /** Nothing but fork and exit changes who is alive. */
  lemma OthersAgree(s: Sys, e: Event, t: Sys, d: Desc)
    requires Inv(s) && Agree(s, d) && Next(s, e, t) && e != ExitCall && e != ForkCall
    ensures Agree(t, d)
  {
    hide Inv, Next;
    StepLife(s, e, t);
  }

  lemma ZeroedStart()
    ensures InitialOver(0) == Initial()
  {
  }

  lemma NoneOpenLive(d: Desc)
    requires NoneOpen(d)
    ensures |d.live| == MAX_PCB_NUM
  {
  }

  lemma BootAgrees(s: Sys, d: Desc)
    requires Boot(s) && NoneOpen(d) && |d.live| == MAX_PCB_NUM && forall p :: 0 <= p < MAX_PCB_NUM ==> (d.live[p] <==> p == 1)
    ensures Inv(s) && DescInv(d) && Agree(s, d)
  {
    BootKeeps();
    NoneOpenInv(d);
    hide Inv, DescInv, Remove;
    assert forall i :: 0 < i < MAX_PCB_NUM ==> Initial().procs[i] == DEAD_PROC;
  }

  class System {
    const kernel: Kernel
    const files: FileLayer
    const machine: Machine

    constructor (kernel: Kernel, files: FileLayer, machine: Machine)
      ensures this.kernel == kernel && this.files == files && this.machine == machine
    {
      this.kernel, this.files, this.machine := kernel, files, machine;
    }

    ghost predicate Valid()
      reads kernel, kernel.pcb, kernel.runnableList`next, kernel.blockedList`next, kernel.freeList`next, kernel.dummysem`next
      reads files`desc, files.table
    {
      && kernel.pcb == files.pcb && kernel.Valid() && files.Valid()
      && Inv(kernel.abs) && DescInv(files.desc) && Agree(kernel.abs, files.desc)
    }

    /** Process i is not dead and its descriptor fd is open. */
    ghost predicate Holds(i: nat, fd: nat)
      requires |kernel.pcb| == MAX_PCB_NUM
      reads kernel.pcb`state, kernel.pcb`filepointer
    {
      && 0 < i < MAX_PCB_NUM && kernel.pcb[i].state != Dead
      && fd < |kernel.pcb[i].filepointer| && kernel.pcb[i].filepointer[fd] != CLOSED
    }

    /** No process that is not dead has a descriptor naming a free entry. */
    lemma LiveDescriptorsName(i: nat, fd: nat)
      requires Valid() && |kernel.pcb| == MAX_PCB_NUM && Holds(i, fd)
      ensures 0 <= kernel.pcb[i].filepointer[fd] < files.table.Length
      ensures files.table[kernel.pcb[i].filepointer[fd]].inodeIndex != -1
      ensures files.table[kernel.pcb[i].filepointer[fd]].linkNum >= AllRefs(files.desc, kernel.pcb[i].filepointer[fd]) >= 1
    {
      var d, e := files.desc, kernel.pcb[i].filepointer[fd];
      UsesSet(d.fps[i], fd, e, e);
      RefsAtLeast(d.fps, d.live, e, i, MAX_PCB_NUM);
    }

    /** initPcb and preparePCB on zeroed file tables. */
    method Start()
      requires kernel.pcb == files.pcb && kernel.Static() && kernel.pcb[IDLE].ppid == 0
      requires files.table.Length == MAX_SYS_FILE_NUM && |kernel.pcb[IDLE].filepointer| == MAX_FP_NUM
      requires forall e :: 0 <= e < MAX_SYS_FILE_NUM ==> files.table[e] == SysFile(0, 0, 0)
      modifies kernel, files, files.table, kernel.pcb
      modifies kernel.runnableList`next, kernel.blockedList`next, kernel.freeList`next, kernel.dummysem`next
      ensures Valid() && Boot(kernel.abs) && NoneOpen(files.desc)
    {
      hide Kernel.Links, Kernel.Fields, FileLayer.Valid, Inv, DescInv, Agree, Shape, InitialOver, Initial, Prepare, NoDup, NoneOpen, Boot;
      files.InitFiles();
      kernel.InitPcb();
      ZeroedStart();
      var _ := kernel.PreparePCB();
      assert |files.desc.live| == MAX_PCB_NUM by { NoneOpenLive(files.desc); }
      files.StartFiles(1);
      BootAgrees(kernel.abs, files.desc);
    }

    /** fork; false, with nothing changed, where the kernel halts. */
    method Fork() returns (ok: bool)
      requires Valid() && Enabled(kernel.abs, ForkCall)
      modifies kernel`abs, kernel`pNum, kernel.runnableList`next, kernel.freeList`next, files`desc, files.table
      modifies kernel.pcb`next, kernel.pcb`state, kernel.pcb`timeCount, kernel.pcb`sleepTime, kernel.pcb`pid, kernel.pcb`ppid
      modifies kernel.pcb`psem, kernel.pcb`filepointer, kernel.pcb`fpNum
      ensures Valid() && old(kernel.abs).Sized() && DescInv(old(files.desc)) && old(kernel.abs).current < MAX_PCB_NUM
      ensures SchedModel.Fork(old(kernel.abs)) == if ok then Some(kernel.abs) else None
      ensures ok ==> 0 < old(kernel.abs).pnum < MAX_PCB_NUM
      ensures ok ==> files.desc == ForkStep(old(files.desc), old(kernel.abs).current, old(kernel.abs).pnum)
      ensures !ok ==> kernel.abs == old(kernel.abs) && files.desc == old(files.desc)
    {
      hide Kernel.Links, Kernel.Fields, FileLayer.Valid, Inv, DescInv, Agree, Shape, ForkStep, SchedModel.Fork;
      kernel.ReadCurrent();
      ghost var s, d := kernel.abs, files.desc;
      var child := kernel.pNum;
      if SchedModel.Fork(s).Some? {
        ForkAgrees(s, d);
      }
      ok := kernel.ForkAux();
      kernel.ReadCurrent();
      if ok {
        files.ForkFiles(kernel.current, s.current, kernel.pcb[child], child);
      }
    }

    /** exit: the file system is written to the disk, the descriptors stay open. */
    method Exit()
      requires Valid() && Enabled(kernel.abs, ExitCall) && machine.HoldsFs()
      modifies kernel`abs, kernel`current, kernel`pNum
      modifies kernel.pcb`next, kernel.pcb`state, kernel.pcb`timeCount, kernel.pcb`sleepTime
      modifies kernel.runnableList`next, kernel.blockedList`next, kernel.freeList`next, kernel.dummysem`next
      modifies files`desc, machine.disk
      ensures Valid() && old(kernel.abs).Sized() && DescInv(old(files.desc))
      ensures kernel.abs == SchedModel.Exit(old(kernel.abs)) && files.desc == ExitStep(old(files.desc), old(kernel.abs).current)
      ensures machine.DiskImage() == machine.Image()
    {
      hide Kernel.Links, Kernel.Fields, FileLayer.Valid, Inv, DescInv, Agree, Shape, ExitStep, SchedModel.Exit;
      kernel.ReadCurrent();
      ghost var s, d := kernel.abs, files.desc;
      ExitAgrees(s, d);
      CurrentAlive(s, d);
      machine.WriteBack();
      kernel.ExitAux();
      files.ExitFiles(s.current);
    }

    /** close of an open descriptor of the current process. */
    method Close(fd: nat)
      requires Valid() && kernel.abs.current != IDLE && HasOpen(files.desc, kernel.abs.current, fd)
      modifies files`desc, files`sysFileNum, files.table, kernel.current`filepointer, kernel.current`fpNum
      ensures Valid() && kernel.abs == old(kernel.abs) && HasOpen(old(files.desc), kernel.abs.current, fd)
      ensures |old(files.desc).fps| == |old(files.desc).fpNum| && files.desc == CloseStep(old(files.desc), kernel.abs.current, fd)
    {
      hide Kernel.Links, Kernel.Fields, FileLayer.Valid, Inv, DescInv, Shape, HasOpen;
      kernel.ReadCurrent();
      CurrentAlive(kernel.abs, files.desc);
      files.CloseAux(kernel.current, kernel.abs.current, fd);
    }

    /** The second half of open, for the inode found or made; false, with nothing changed, where the kernel halts. */
    method Open(inode: nat) returns (ok: bool, fd: int)
      requires Valid() && kernel.abs.current != IDLE
      modifies files`desc, files`sysFileNum, files.table, kernel.current`filepointer, kernel.current`fpNum
      ensures Valid() && kernel.abs == old(kernel.abs) && DescInv(old(files.desc)) && kernel.abs.current < MAX_PCB_NUM
      ensures ok <==> CanOpen(old(files.desc), kernel.abs.current)
      ensures files.desc == if ok then OpenStep(old(files.desc), kernel.abs.current, inode) else old(files.desc)
    {
      hide Kernel.Links, Kernel.Fields, FileLayer.Valid, Inv, DescInv, CanOpen, Shape;
      kernel.ReadCurrent();
      CurrentAlive(kernel.abs, files.desc);
      ok, fd := files.OpenInode(kernel.current, kernel.abs.current, inode);
    }

    /** Every other event: the descriptors are not touched. */
    method Other(e: Event) returns (ok: bool)
      requires Valid() && Ready(kernel.abs) && Enabled(kernel.abs, e) && e != ExitCall && e != ForkCall
      modifies kernel, kernel.pcb`next, kernel.pcb`state, kernel.pcb`timeCount, kernel.pcb`sleepTime
      modifies kernel.pcb`pid, kernel.pcb`ppid, kernel.pcb`psem
      modifies kernel.runnableList`next, kernel.blockedList`next, kernel.freeList`next, kernel.dummysem`next
      ensures ok && Valid() && Next(old(kernel.abs), e, kernel.abs) && files.desc == old(files.desc)
    {
      hide Kernel.Links, Kernel.Fields, FileLayer.Valid, Inv, DescInv, Agree, Shape, Enabled, Step, Ready;
      kernel.ReadCurrent();
      ghost var s, d := kernel.abs, files.desc;
      HaltsOnlyInFork(s, e);
      ok := kernel.Handle(e);
      OthersAgree(s, e, kernel.abs, d);
    }
  }
}
