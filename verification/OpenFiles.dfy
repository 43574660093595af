/** The open-file layer: descriptors in the PCBs, the table of open files, and the file system below. */
module OpenFiles {
  import opened Seqs
  import opened SchedModel
  import opened Lists
  import opened Paths
  import opened FsModel
  import opened FsTree
  import opened FsGrowth
  import opened FsPaths
  import opened FsRuns
  import opened Descriptors
  import opened FileData
  import opened FileSystem
  import opened OpenPaths
  import FileIo

  /** A file that is there is left alone; another one is made, and that works exactly when it is possible. */
  ghost predicate FoundOrMade(f: Fs, abspath: string, g: Fs, ok: bool) {
    && |f.inodes| > 0 && Absolute(abspath)
    && (Lookup(f, abspath, FL).Some? ==> ok && g == f)
    && (Lookup(f, abspath, FL).None? ==> (ok <==> Possible(f, MkFile(abspath, None))) && (ok ==> Creates(f, MkFile(abspath, None), g)))
  }

  class FileLayer {
    const fs: FileSys
    const table: array<SysFile>
    const pcb: seq<PCB>
    var sysFileNum: int

    ghost var desc: Desc

    constructor (fs: FileSys, table: array<SysFile>, pcb: seq<PCB>)
      ensures this.fs == fs && this.table == table && this.pcb == pcb
    {
      this.fs, this.table, this.pcb := fs, table, pcb;
      sysFileNum := 0;
    }

    ghost predicate Valid()
      reads this`desc, table, pcb`filepointer, pcb`fpNum
    {
      && |pcb| == MAX_PCB_NUM && NoDup(pcb) && Shape(desc)
      && desc.table == table[..]
      && forall p :: 0 <= p < MAX_PCB_NUM ==> pcb[p].filepointer == desc.fps[p] && pcb[p].fpNum == desc.fpNum[p]
    }

    lemma OthersDiffer(p: nat)
      requires |pcb| == MAX_PCB_NUM && NoDup(pcb) && p < MAX_PCB_NUM
      ensures forall q :: 0 <= q < MAX_PCB_NUM && q != p ==> pcb[q] != pcb[p]
    {
      forall q | 0 <= q < MAX_PCB_NUM && q != p
        ensures pcb[q] != pcb[p]
      {
        assert if p < q then pcb[p] != pcb[q] else pcb[q] != pcb[p];
      }
    }

    /** The file part of initPcb, on zeroed storage: no entry in use, no descriptor open. */
    method InitFiles()
      requires |pcb| == MAX_PCB_NUM && NoDup(pcb) && table.Length == MAX_SYS_FILE_NUM && |pcb[IDLE].filepointer| == MAX_FP_NUM
      requires forall e :: 0 <= e < MAX_SYS_FILE_NUM ==> table[e] == SysFile(0, 0, 0)
      modifies this`desc, this`sysFileNum, table, pcb`filepointer, pcb`fpNum
      ensures Valid() && NoneOpen(desc) && forall p :: 0 <= p < MAX_PCB_NUM ==> !desc.live[p]
    {
      sysFileNum := 0;
      FreeEntries();
      var i := 1;
      while i < MAX_PCB_NUM
        invariant 1 <= i <= MAX_PCB_NUM && |pcb[IDLE].filepointer| == MAX_FP_NUM
        invariant forall e :: 0 <= e < MAX_SYS_FILE_NUM ==> table[e] == SysFile(-1, 0, 0)
        invariant forall p :: 0 < p < i ==> pcb[p].fpNum == 3 && pcb[p].filepointer == seq(MAX_FP_NUM, _ => CLOSED)
      {
        OthersDiffer(i);
        pcb[i].fpNum := 3;
        pcb[i].filepointer := seq(MAX_FP_NUM, _ => CLOSED);
        i := i + 1;
      }
      desc := Desc(seq(MAX_PCB_NUM, p requires 0 <= p < MAX_PCB_NUM reads pcb => pcb[p].filepointer),
                   seq(MAX_PCB_NUM, p requires 0 <= p < MAX_PCB_NUM reads pcb => pcb[p].fpNum),
                   seq(MAX_PCB_NUM, _ => false), table[..], seq(MAX_SYS_FILE_NUM, _ => 0));
    }

    /** The first loop of initPcb. */
    method FreeEntries()
      requires table.Length == MAX_SYS_FILE_NUM && forall e :: 0 <= e < MAX_SYS_FILE_NUM ==> table[e] == SysFile(0, 0, 0)
      modifies table
      ensures forall e :: 0 <= e < MAX_SYS_FILE_NUM ==> table[e] == SysFile(-1, 0, 0)
    {
      var i := 0;
      while i < MAX_SYS_FILE_NUM
        invariant 0 <= i <= MAX_SYS_FILE_NUM
        invariant forall e :: 0 <= e < i ==> table[e] == SysFile(-1, 0, 0)
        invariant forall e :: i <= e < MAX_SYS_FILE_NUM ==> table[e] == SysFile(0, 0, 0)
      {
        table[i] := table[i].(inodeIndex := -1);
        i := i + 1;
      }
    }

    method GetAvlFilepointer(current: PCB) returns (r: int)
      requires |current.filepointer| == MAX_FP_NUM
      ensures var k := FreeFd(current.filepointer, 3); r == if k == MAX_FP_NUM then -1 else k
    {
      var i := 3;
      while i < MAX_FP_NUM
        invariant 3 <= i <= MAX_FP_NUM && FreeFd(current.filepointer, 3) == FreeFd(current.filepointer, i)
      {
        if current.filepointer[i] == CLOSED {
          return i;
        }
        i := i + 1;
      }
      return -1;
    }

    method GetAvlSystemFile() returns (r: int)
      requires table.Length == MAX_SYS_FILE_NUM
      ensures var k := FreeEntry(table[..]); r == if k == MAX_SYS_FILE_NUM then -1 else k
    {
      var i := 0;
      while i < MAX_SYS_FILE_NUM
        invariant 0 <= i <= MAX_SYS_FILE_NUM && forall j :: 0 <= j < i ==> table[..][j].inodeIndex != -1
      {
        if table[i].inodeIndex == -1 {
          assert table[..][i].inodeIndex == -1;
          return i;
        }
        i := i + 1;
      }
      return -1;
    }

    /** The last part of open: an entry and a descriptor for inode index.  False where the kernel halts. */
    method OpenInode(current: PCB, ghost p: nat, index: nat) returns (ok: bool, fd: int)
      requires Valid() && 0 < p < MAX_PCB_NUM && current == pcb[p]
      modifies this`desc, this`sysFileNum, table, current`filepointer, current`fpNum
      ensures Valid() && p < |old(desc).fps| && |old(desc).fps[p]| >= 3
      ensures ok <==> CanOpen(old(desc), p)
      ensures ok ==> desc == OpenStep(old(desc), p, index) && fd == FreeFd(old(desc).fps[p], 3)
      ensures !ok ==> desc == old(desc)
      ensures DescInv(old(desc)) && desc.live[p] ==> DescInv(desc)
    {
      hide DescInv;
      OthersDiffer(p);
      var sysFileIndex := GetAvlSystemFile();
      var fpIndex := GetAvlFilepointer(current);
      if sysFileIndex == -1 || fpIndex == -1 {
        return false, -1;
      }
      table[sysFileIndex] := SysFile(index, 1, 0);
      current.filepointer := current.filepointer[fpIndex := sysFileIndex];
      sysFileNum := sysFileNum + 1;
      current.fpNum := current.fpNum + 1;
      if DescInv(desc) && desc.live[p] {
        OpenKeeps(desc, p, index);
      }
      desc := OpenStep(desc, p, index);
      return true, fpIndex;
    }

    method CloseAux(current: PCB, ghost p: nat, fd: nat)
      requires Valid() && 0 < p < MAX_PCB_NUM && current == pcb[p] && HasOpen(desc, p, fd)
      modifies this`desc, this`sysFileNum, table, current`filepointer, current`fpNum
      ensures Valid() && HasOpen(old(desc), p, fd) && |old(desc).fps| == |old(desc).fpNum| && desc == CloseStep(old(desc), p, fd)
      ensures DescInv(old(desc)) && desc.live[p] ==> DescInv(desc)
    {
      hide DescInv;
      OthersDiffer(p);
      var e := current.filepointer[fd];
      table[e] := table[e].(linkNum := table[e].linkNum - 1);
      if table[e].linkNum == 0 {
        table[e] := table[e].(inodeIndex := -1);
        table[e] := table[e].(offset := 0);
        sysFileNum := sysFileNum - 1;
      }
      current.filepointer := current.filepointer[fd := CLOSED];
      current.fpNum := current.fpNum - 1;
      if DescInv(desc) && desc.live[p] {
        CloseKeeps(desc, p, fd);
      }
      desc := CloseStep(desc, p, fd);
    }

    /** The descriptor part of fork. */
    method ForkFiles(current: PCB, ghost p: nat, child: PCB, ghost c: nat)
      requires Valid() && 0 < p < MAX_PCB_NUM && current == pcb[p] && 0 < c < MAX_PCB_NUM && child == pcb[c] && p != c
      modifies this`desc, table, child`filepointer, child`fpNum
      ensures Valid() && p < |old(desc).fps| && c < |old(desc).fps| == |old(desc).fpNum| == |old(desc).live|
      ensures desc == ForkStep(old(desc), p, c)
      ensures DescInv(old(desc)) && old(desc).live[p] && !old(desc).live[c] ==> DescInv(desc)
    {
      hide DescInv, Uses, Relinked;
      OthersDiffer(c);
      ghost var d, fp := desc, current.filepointer;
      child.fpNum := current.fpNum;
      var i := 0;
      LinkedNone(d.table);
      while i < MAX_FP_NUM
        invariant 0 <= i <= MAX_FP_NUM && |child.filepointer| == MAX_FP_NUM && child.fpNum == d.fpNum[p]
        invariant forall j :: 0 <= j < i ==> child.filepointer[j] == fp[j]
        invariant table[..] == Relinked(d.table, fp[..i])
      {
        LinkedNext(d.table, fp, i);
        child.filepointer := child.filepointer[i := current.filepointer[i]];
        if current.filepointer[i] != CLOSED {
          var e := current.filepointer[i];
          table[e] := table[e].(linkNum := table[e].linkNum + 1);
        }
        i := i + 1;
      }
      assert child.filepointer == fp && fp[..MAX_FP_NUM] == fp;
      assert fp == d.fps[p];
      if DescInv(d) && d.live[p] && !d.live[c] {
        ForkKeeps(d, p, c);
      }
      desc := ForkStep(d, p, c);
    }

    // -------------------------------------------------------------- write, read, seek

    /** The open file behind descriptor fd of process p. */
    ghost predicate Usable(p: nat, fd: nat)
      reads this`desc, fs.inodes
    {
      && HasOpen(desc, p, fd) && fs.inodes.Length == NR_INODE
      && 0 <= desc.table[desc.fps[p][fd]].inodeIndex < NR_INODE && -0x8000_0000 <= desc.table[desc.fps[p][fd]].offset < 0x8000_0000
      && Sound(fs.inodes[desc.table[desc.fps[p][fd]].inodeIndex])
    }

    ghost function HandleOf(p: nat, fd: nat): Handle
      requires Usable(p, fd)
      reads this`desc, fs.inodes
    {
      var t := desc.table[desc.fps[p][fd]];
      Handle(fs.inodes[t.inodeIndex], t.offset)
    }

    /** Process p is made from scratch: it has no open descriptor yet. */
    ghost method StartFiles(p: nat)
      requires Valid() && NoneOpen(desc) && 0 < p < MAX_PCB_NUM
      modifies this`desc
      ensures Valid() && NoneOpen(desc) && p < |old(desc).live| && desc == old(desc).(live := old(desc).live[p := true])
    {
      desc := desc.(live := desc.live[p := true]);
    }

    /** exit leaves the tables alone; only the account of who is alive changes. */
    ghost method ExitFiles(p: nat)
      requires Valid() && 0 < p < MAX_PCB_NUM
      modifies this`desc
      ensures Valid() && p < |old(desc).fps| && p < |old(desc).live| && desc == ExitStep(old(desc), p)
      ensures DescInv(old(desc)) && old(desc).live[p] ==> DescInv(desc)
    {
      if DescInv(desc) && desc.live[p] {
        ExitKeeps(desc, p);
      }
      desc := ExitStep(desc, p);
    }

    /** Moves an open-file entry to another offset. */
    method SetOffset(ghost p: nat, ghost fd: nat, e: nat, offset: int)
      requires Valid() && HasOpen(desc, p, fd) && desc.fps[p][fd] == e
      modifies this`desc, table
      ensures Valid() && desc == Moved(old(desc), e, offset)
    {
      table[e] := table[e].(offset := offset);
      desc := Moved(desc, e, offset);
    }

    /** write to a file; nothing is changed where the kernel halts or would write in front of the block. */
    method WriteAux(current: PCB, ghost p: nat, fd: nat, buf: seq<Byte>) returns (r: Writing, eax: int)
      requires Valid() && fs.Valid() && 0 < p < MAX_PCB_NUM && current == pcb[p] && Usable(p, fd)
      modifies this`desc, table, fs.inodes
      ensures Valid() && fs.inodes.Length == NR_INODE
      ensures r == TooLong <==> old(HandleOf(p, fd)).offset + |buf| >= MAX_FILE_SZ
      ensures r == Strays <==> old(HandleOf(p, fd)).offset + |buf| < MAX_FILE_SZ && old(HandleOf(p, fd)).offset < 0 && buf != []
      ensures CanWrite(Files(old(desc), old(fs.inodes[..])), WriteEvent(p, fd, buf)) <==>
        r == Wrote && old(HandleOf(p, fd)).offset >= 0
      ensures r == Wrote ==> eax == |buf|
      ensures r == Wrote && old(HandleOf(p, fd)).offset >= 0 ==>
        && Files(desc, fs.inodes[..]) == WriteStep(Files(old(desc), old(fs.inodes[..])), WriteEvent(p, fd, buf))
        && Usable(p, fd) && HandleOf(p, fd) == HandleStep(old(HandleOf(p, fd)), WriteOp(buf)).0
        && FileIo.Calls(Files(old(desc), old(fs.inodes[..])), FileIo.Io(p, fd, WriteOp(buf)), Files(desc, fs.inodes[..]), [])
      ensures r == Wrote && old(HandleOf(p, fd)).offset < 0 ==>
        var c := old(desc).table[old(desc).fps[p][fd]].inodeIndex;
        desc == old(desc) && fs.inodes[..] == old(fs.inodes[..])[c := WrittenAt(old(HandleOf(p, fd)).inode, buf, old(HandleOf(p, fd)).offset)]
      ensures r != Wrote ==> desc == old(desc) && fs.inodes[..] == old(fs.inodes[..])
    {
      var e := current.filepointer[fd];
      var index := table[e].inodeIndex;
      var offset := table[e].offset;
      assert fs.inodes[..][index] == fs.inodes[index];
      r, eax := fs.WriteF(index, buf, offset);
      if r == Wrote {
        SetOffset(p, fd, e, table[e].offset + |buf|);
        assert offset < 0 ==> desc.table == old(desc).table;
      }
    }

    /** read from a file. */
    method ReadAux(current: PCB, ghost p: nat, fd: nat, len: nat) returns (buf: seq<Byte>, eax: int)
      requires Valid() && fs.Valid() && 0 < p < MAX_PCB_NUM && current == pcb[p] && Usable(p, fd)
      modifies this`desc, table
      ensures Valid() && Usable(p, fd) && old(Usable(p, fd))
      ensures (HandleOf(p, fd), buf) == HandleStep(old(HandleOf(p, fd)), ReadOp(len))
      ensures eax == |buf| && desc == Moved(old(desc), old(desc).fps[p][fd], HandleOf(p, fd).offset)
      ensures FileIo.Calls(Files(old(desc), fs.inodes[..]), FileIo.Io(p, fd, ReadOp(len)), Files(desc, fs.inodes[..]), buf)
    {
      var e := current.filepointer[fd];
      var index := table[e].inodeIndex;
      var offset := table[e].offset;
      buf, eax := fs.ReadF(index, len, offset);
      assert fs.inodes[..][index] == fs.inodes[index];
      var filesz := fs.inodes[index].size;
      if offset + len > filesz {
        SetOffset(p, fd, e, filesz);
      } else {
        SetOffset(p, fd, e, table[e].offset + len);
      }
    }

    /** lseek; ok is false, with nothing changed, where the kernel halts. */
    method LseekAux(current: PCB, ghost p: nat, fd: nat, offset: int, whence: int) returns (ok: bool)
      requires Valid() && 0 < p < MAX_PCB_NUM && current == pcb[p] && Usable(p, fd)
      modifies this`desc, table
      ensures Valid() && HasOpen(old(desc), p, fd)
      ensures ok <==> 0 <= whence <= 2
      ensures ok ==> desc == Moved(old(desc), old(desc).fps[p][fd],
        HandleStep(old(HandleOf(p, fd)), SeekOp(offset, if whence == 0 then SET else if whence == 1 then CUR else END)).0.offset)
      ensures ok ==> var base := if whence == 0 then SET else if whence == 1 then CUR else END;
        FileIo.Calls(Files(old(desc), fs.inodes[..]), FileIo.Io(p, fd, SeekOp(offset, base)), Files(desc, fs.inodes[..]), [])
      ensures !ok ==> desc == old(desc)
    {
      var e := current.filepointer[fd];
      assert fs.inodes[..][table[e].inodeIndex] == fs.inodes[table[e].inodeIndex];
      if whence == 0 {
        SetOffset(p, fd, e, offset);
      } else if whence == 1 {
        SetOffset(p, fd, e, table[e].offset + offset);
      } else if whence == 2 {
        var index := table[e].inodeIndex;
        SetOffset(p, fd, e, offset + fs.inodes[index].size);
      } else {
        return false;
      }
      return true;
    }

    // -------------------------------------------------------------- open by path

    /**
     The first part of open: the file is there afterwards, made if need be.  False where the kernel halts.
     All it needs is that its searches stay inside the entry tables.
     */
    method FindOrMake(abspath: string, ghost n: nat) returns (ok: bool, ghost m: nat)
      requires fs.Valid() && fs.inodeMap.Length == NR_INODE && Tree(fs.View(), n)
      requires Absolute(abspath) && Buffered(abspath) && NameOk(LastLevelName(abspath), FL) && fs.LookupReady(abspath, FL)
      modifies fs, fs.inodeMap, fs.inodes
      ensures |fs.View().inodes| == NR_INODE
      ensures ok ==> Tree(fs.View(), m) && fs.Valid() && Walk(fs.View(), Parents(abspath)).Some? && Lookup(fs.View(), abspath, FL).Some?
      ensures FoundOrMade(old(fs.View()), abspath, fs.View(), ok)
    {
      hide Tree, NameOk, Walk, Dirs, LastName, WalkReady, WalkAlmost, ScanReady, IsLastLevel, FirstSlash, Shaped, Possible;
      ghost var f0 := fs.View();
      MadeIffPossible(f0, n, abspath);
      TreeShaped(f0, n);
      assert fs.inodes.Length == NR_INODE by { ValidLength(); }
      ProperParts(abspath, abspath);
      m := n;
      var r;
      ok, r := fs.FindCurrentFLPos(abspath);
      if ok && r == -1 {
        ParentsReady(f0, n, Parents(abspath));
        TreeUsed(f0, n, Parents(abspath));
        var status := fs.MakeFile(abspath, None);
        if status != Done {
          return false, n;
        }
        MadeCreates(f0, n, abspath, fs.View());
        m := Used(n, FreeInode(f0));
        TreeShaped(fs.View(), m);
      }
    }

    lemma ValidLength()
      requires fs.Valid()
      ensures fs.inodes.Length == NR_INODE
    {
      assert |fs.View().inodes| == NR_INODE;
    }

    /** open of an absolute path: the file exists afterwards and has a descriptor. */
    method OpenAux(current: PCB, ghost p: nat, abspath: string, ghost n: nat) returns (ok: bool, fd: int)
      requires Valid() && 0 < p < MAX_PCB_NUM && current == pcb[p]
      requires fs.Valid() && fs.inodeMap.Length == NR_INODE && Tree(fs.View(), n)
      requires Absolute(abspath) && Buffered(abspath) && NameOk(LastLevelName(abspath), FL) && fs.LookupReady(abspath, FL)
      modifies this`desc, this`sysFileNum, table, current`filepointer, current`fpNum, fs, fs.inodeMap, fs.inodes
      ensures Valid() && |fs.View().inodes| > 0 && p < |old(desc).fps| && |old(desc).fps[p]| >= 3
      ensures old(Lookup(fs.View(), abspath, FL).Some?) ==> fs.View() == old(fs.View())
      ensures old(Lookup(fs.View(), abspath, FL).None? && Possible(fs.View(), MkFile(abspath, None))) ==>
        Creates(old(fs.View()), MkFile(abspath, None), fs.View())
      ensures ok <==> CanOpen(old(desc), p) && old(Lookup(fs.View(), abspath, FL).Some? || Possible(fs.View(), MkFile(abspath, None)))
      ensures ok ==> Lookup(fs.View(), abspath, FL).Some? && CanOpen(old(desc), p)
      ensures ok ==> desc == OpenStep(old(desc), p, Lookup(fs.View(), abspath, FL).value) && fd == FreeFd(old(desc).fps[p], 3)
      ensures !ok ==> desc == old(desc)
      ensures ok && Proper(abspath) && desc.live[p] ==> Opens(Machine(old(fs.View()), old(desc)), p, abspath, Machine(fs.View(), desc))
    {
      hide Tree, NameOk, Walk, Dirs, LastName, WalkReady, WalkAlmost, ScanReady, IsLastLevel, FirstSlash, Shaped, Creates, Lookup, Possible;
      ghost var m;
      ghost var f0 := fs.View();
      TreeShaped(f0, n);
      ok, m := FindOrMake(abspath, n);
      if !ok {
        return false, -1;
      }
      FoundReady(fs.View(), m, abspath, FL);
      var index;
      ok, index := fs.FindCurrentFLPos(abspath);
      assert ok;
      ok, fd := OpenInode(current, p, index);
    }

    /**
     Where open can be used: the file exists, or its directory does and never lost a file, or nothing on
     the way did.
     */
    lemma OpenReady(n: nat, path: string)
      requires Tree(fs.View(), n) && Absolute(path)
      ensures SLASH in path && |fs.View().inodes| > 0
      ensures Lookup(fs.View(), path, FL).Some? ==> fs.LookupReady(path, FL)
      ensures ExactAlong(fs.View(), Parents(path)) ==> fs.LookupReady(path, FL)
      ensures Walk(fs.View(), Parents(path)).Some? && Lookup(fs.View(), path, FL).None? ==>
        var d := fs.View().inodes[Walk(fs.View(), Parents(path)).value];
        (fs.LookupReady(path, FL) <==> d.size == Count(d.entries))
    {
      hide Tree, WalkReady, ScanReady, Dirs, LastName, Walk, Find, ExactAlong;
      TreeShaped(fs.View(), n);
      if Lookup(fs.View(), path, FL).Some? {
        FoundReady(fs.View(), n, path, FL);
      } else if Walk(fs.View(), Parents(path)).Some? {
        MissReady(fs.View(), n, path, FL);
      }
      if ExactAlong(fs.View(), Parents(path)) {
        ExactReady(fs.View(), n, path, FL);
      }
    }

    lemma TreeUsed(f: Fs, n: nat, dirs: seq<string>)
      requires Tree(f, n) && DirNames(dirs)
      ensures Walk(f, dirs).Some? ==> f.inuse[Walk(f, dirs).value]
    {
      hide Tree;
      TreeShaped(f, n);
      if Walk(f, dirs).Some? {
        WalkIn(f, n, dirs);
        DirInUse(f, n, Walk(f, dirs).value);
      }
    }

    /** Making a file succeeds exactly when there are an inode, a parent and room in it. */
    lemma MadeIffPossible(f: Fs, n: nat, path: string)
      requires Tree(f, n) && Absolute(path) && NameOk(LastLevelName(path), FL)
      ensures SLASH in path && MakeFL(f, path, None).Made? <==> Possible(f, MkFile(path, None))
      ensures |f.inodes| > 0 && (Possible(f, MkFile(path, None)) ==> Walk(f, Parents(path)).Some?)
    {
      hide Tree, Walk, FreeSlot, FreeInode, NameOk, Dirs, LastName, LastLevelName, IsLastLevel, Adopt, AsFile;
      TreeShaped(f, n);
      FirstUnused(f, n);
      ProperParts(path, path);
      if Walk(f, Parents(path)).Some? {
        WalkIn(f, n, Parents(path));
      }
      SlotBound(f);
    }

    lemma SlotBound(f: Fs)
      requires Shaped(f)
      ensures FreeInode(f) <= NR_INODE
      ensures forall p :: 0 <= p < NR_INODE ==> FreeSlot(f.inodes[p].entries) <= NR_DIRDATA
    {
    }

    /** A file made where none was found is a creation of the tree. */
    lemma MadeCreates(f: Fs, n: nat, path: string, g: Fs)
      requires Tree(f, n) && Absolute(path) && NameOk(LastLevelName(path), FL)
      requires Lookup(f, path, FL).None? && MakeFL(f, path, None) == Made(g)
      ensures Creates(f, MkFile(path, None), g) && Tree(g, Used(n, FreeInode(f))) && Lookup(g, path, FL) == Some(FreeInode(f))
    {
      hide Tree, Possible, Lookup, NameOk, FreeInode;
      MadeIffPossible(f, n, path);
      CreateStep(f, n, MkFile(path, None), g);
    }

    lemma LinkedNone(table: seq<SysFile>)
      ensures Relinked(table, [][..0]) == table
    {
      assert forall e :: 0 <= e < |table| ==> table[e].(linkNum := table[e].linkNum + 0) == table[e];
    }

    lemma LinkedNext(table: seq<SysFile>, fp: seq<int>, i: nat)
      requires i < |fp| && CLOSED <= fp[i] < |table|
      ensures Relinked(table, fp[..i + 1]) == if fp[i] == CLOSED then Relinked(table, fp[..i]) else
        Relinked(table, fp[..i])[fp[i] := Relinked(table, fp[..i])[fp[i]].(linkNum := Relinked(table, fp[..i])[fp[i]].linkNum + 1)]
    {
      assert fp[..i + 1][..i] == fp[..i];
    }
  }
}
