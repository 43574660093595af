/** A small run of system calls in which a descriptor outlives its file. */
module OpenWitness {
  import opened Seqs
  import opened Paths
  import opened FsModel
  import opened FsTree
  import opened FsGrowth
  import opened FsPaths
  import opened FsRemoval
  import opened FsScan
  import opened FsRuns
  import opened FsLimits
  import opened FsContents
  import opened FileSystem
  import opened FsWitness
  import opened Descriptors
  import opened FileData
  import opened OpenPaths

  /** The file /d/x on inode 3, made without data. */
  lemma XHeld(h: Fs, k: Fs)
    requires |h.inodes| == |k.inodes| == NR_INODE && k.inodes[0] == h.inodes[0] && Walk(h, ["d/"]) == Some(2) && FreeInode(h) == 3
    requires Tree(h, 3) && Filled(h, 3, 4) && Packed(h) && SoundFiles(h) && Creates(h, MkFile(DX, None), k)
    ensures Walk(k, ["d/"]) == Some(2) && k.inodes[3].size == 0 && Tree(k, 4) && Filled(k, 4, 4) && Packed(k) && SoundFiles(k)
    ensures SLASH in B && Lookup(h, B, FL) == Lookup(k, B, FL)
  {
    hide Tree, Packed, SoundFiles, Lookup, FreeInode, Possible, Perform, Walk, Dirs, LastName, LastLevelName, Creates;
    DxParts();
    ShortPath(B);
    CreateStep(h, 3, MkFile(DX, None), k);
    CreatedSound(h, 3, MkFile(DX, None), k);
    WalkOne(h, "d/");
    WalkOne(k, "d/");
    LookupParts(h, "/d/", DIR);
    LookupParts(k, "/d/", DIR);
    NewUse(h, k);
  }

  lemma NewUse(h: Fs, k: Fs)
    requires |h.inodes| == |k.inodes| == NR_INODE && k.inodes[0] == h.inodes[0] && FreeInode(h) == 3
    requires Tree(h, 3) && Filled(h, 3, 4) && Creates(h, MkFile(DX, None), k)
    ensures k.inodes[3].size == 0 && Filled(k, 4, 4)
  {
    hide Tree, Lookup, FreeInode, FreeSlot, Walk, Dirs, LastName, LastLevelName, Possible, Perform, NameOk;
    var cmd := MkFile(DX, None);
    StillBlank(h);
    CreatedInodes(h, 3, cmd, k);
    UsesOne(h, cmd, k);
  }

  lemma StillBlank(h: Fs)
    requires |h.inodes| == NR_INODE && Tree(h, 3)
    ensures h.inodes[3].size == 0
  {
  }

  lemma UsesOne(fs: Fs, cmd: Cmd, g: Fs)
    requires Possible(fs, cmd) && Perform(fs, cmd) == Made(g)
    ensures FreeInode(fs) < NR_INODE && g.inuse == fs.inuse[FreeInode(fs) := true]
  {
    hide Walk, FreeSlot, FreeInode, Dirs, LastName, LastLevelName;
  }

  /** Without /d/x again: the root is as it was, and inode 3 keeps its block. */
  lemma WithoutX(k: Fs) returns (i: Fs)
    requires |k.inodes| == NR_INODE && Walk(k, ["d/"]) == Some(2) && k.inodes[3].size == 0
    requires Tree(k, 4) && Filled(k, 4, 4) && SoundFiles(k) && SLASH in DX && Lookup(k, DX, FL) == Some(3)
    ensures |i.inodes| == NR_INODE && i.inodes[0] == k.inodes[0] && i.inodes[3].size == 0
    ensures Removes(k, DX, i) && Tree(i, 4) && Filled(i, 3, 4) && SoundFiles(i) && SLASH in B && Lookup(i, B, FL) == Lookup(k, B, FL)
  {
    hide Tree, Lookup, FreeInode, Walk, Dirs, LastName, CanRemove, WithoutFL, SoundFiles;
    DxParts();
    ShortPath(B);
    var p, j, c := FoundEntry(k, 4, DX);
    i := WithoutFL(k, DX);
    RemovedInodes(k, p, j, c);
    RemoveStep(k, 4, DX);
    RemovedElsewhere(k, 4, DX, B, FL);
    RemovedSound(k, 4, DX, i);
  }

  lemma RemovedSound(fs: Fs, n: nat, path: string, g: Fs)
    requires Tree(fs, n) && SoundFiles(fs) && Removes(fs, path, g)
    ensures SoundFiles(g)
  {
    hide Tree, Lookup, WithoutFL, CanRemove, Dirs, LastName;
    RemovedFiles(fs, n, path, g);
  }

  /** /b, made on inode 3. */
  lemma EmptyB(i: Fs) returns (j: Fs)
    requires |i.inodes| == NR_INODE && i.inodes[3].size == 0
    requires Tree(i, 4) && Filled(i, 3, 4) && SoundFiles(i) && SLASH in B && Lookup(i, B, FL) == None
    ensures Creates(i, MkFile(B, None), j) && Shaped(j) && FileAt(j, B) == Some([]) && Lookup(j, B, FL) == Some(3)
  {
    hide Tree, Lookup, FreeInode, FileAt, Content, Possible, Perform, Dirs, LastName, SoundFiles, Walk, Makes, LastLevelName, Filled;
    ShortPath(B);
    j := Fill(i, 4, 3, 4, MkFile(B, None));
    MakesCreates(i, MkFile(B, None), j);
    CreateStep(i, 4, MkFile(B, None), j);
    CreateContents(i, 4, MkFile(B, None), j);
    EmptyExactly(i, 4, B, j);
    TreeShaped(j, 4);
  }

  /** The searches for /d/x and /b stay inside the tables: no file was removed from the root. */
  lemma Searched(h: Fs, k: Fs, i: Fs)
    requires Tree(h, 3) && Packed(h) && Tree(k, 4) && Packed(k) && Tree(i, 4) && |i.inodes| == |k.inodes| == NR_INODE && i.inodes[0] == k.inodes[0]
    ensures SLASH in DX && SLASH in B && SearchReady(h, DX, FL) && SearchReady(i, B, FL)
  {
    hide Tree, Packed, Dirs, LastName, Walk, Count, ScanIn, WalkReady, WalkAlmost;
    DxParts();
    ShortPath(B);
    DirsOfD();
    PackedExact(h, 3, ["d/"]);
    ExactReady(h, 3, DX, FL);
    PackedExact(k, 4, []);
    WalkRoot(k);
    WalkRoot(i);
    ExactReady(i, 4, B, FL);
  }

  lemma DirsOfD()
    ensures DirNames(["d/"])
  {
    ProperParts(DX, DX);
    DxParts();
  }

  // ---------------------------------------------------------------- descriptors

  lemma OpenTwice(d: Desc, c: nat) returns (e: Desc, f: Desc)
    requires NoneOpen(d) && d.live[1]
    ensures Shape(d) && CanOpen(d, 1) && e == OpenStep(d, 1, c) && Shape(e) && e.live[1] && CanOpen(e, 1) && f == OpenStep(e, 1, c)
    ensures FreeEntry(d.table) == 0 && HasOpen(f, 1, 3) && f.fps[1][3] == 0 && f.table[0] == SysFile(c, 1, 0)
  {
    assert FreeEntry(d.table) == 0 && d.fps[1][3] == CLOSED;
    assert FreeFd(d.fps[1], 3) == 3;
    e := OpenStep(d, 1, c);
    assert e.table[1].inodeIndex == -1 && e.fps[1][4] == CLOSED;
    f := OpenStep(e, 1, c);
  }

  lemma OpenNew(m: Machine, path: string, g: Fs, c: nat) returns (t: Machine)
    requires Creates(m.fs, MkFile(path, None), g) && Shaped(m.fs) && Shaped(g) && Proper(path) && SearchReady(m.fs, path, FL)
    requires Lookup(m.fs, path, FL) == None && Lookup(g, path, FL) == Some(c)
    requires Shape(m.desc) && m.desc.live[1] && CanOpen(m.desc, 1)
    ensures t == Machine(g, OpenStep(m.desc, 1, c)) && Calls(m, OpenCall(1, path), t)
  {
    hide Creates, Lookup, Dirs, LastName, SearchReady;
    t := Machine(g, OpenStep(m.desc, 1, c));
  }

  /** Descriptor 3, opened on the inode that /b has now, takes a byte to /b. */
  lemma WriteIntoB(m: Machine, c: nat) returns (t: Machine)
    requires Shaped(m.fs) && SLASH in B && Lookup(m.fs, B, FL) == Some(c) && FileAt(m.fs, B) == Some([])
    requires HasOpen(m.desc, 1, 3) && m.desc.fps[1][3] == 0 && m.desc.table[0] == SysFile(c, 1, 0)
    ensures Calls(m, WriteCall(WriteEvent(1, 3, [7])), t) && |t.fs.inodes| > 0 && FileAt(t.fs, B) == Some([7])
  {
    hide Lookup, Dirs, LastName, Written;
    var w := WriteEvent(1, 3, [7]);
    var f := Files(m.desc, m.fs.inodes);
    assert CanWrite(f, w);
    t := Machine(m.fs.(inodes := WriteStep(f, w).inodes), WriteStep(f, w).desc);
    ShortPath(B);
    WrittenContent(m.fs.inodes[c], [7], 0);
    WrittenShape(m.fs.inodes[c], [7], 0);
    LookupKept(m.fs, t.fs, B, FL);
    assert Overwrite([], [7], 0) == [7];
  }

  lemma WrittenShape(i: Inode, buf: seq<Byte>, off: nat)
    requires off + |buf| <= |i.data|
    ensures Written(i, buf, off).kind == i.kind && Written(i, buf, off).entries == i.entries
  {
  }

  lemma RemovalCalled(m: Machine, path: string, g: Fs)
    requires Removes(m.fs, path, g)
    ensures Calls(m, RemoveCall(path), Machine(g, m.desc))
  {
  }

  lemma MakeCalled(m: Machine, cmd: Cmd, g: Fs)
    requires Creates(m.fs, cmd, g)
    ensures Calls(m, MakeCall(cmd), Machine(g, m.desc))
  {
  }

  // ---------------------------------------------------------------- the run

  const W: WriteEvent := WriteEvent(1, 3, [7])

  const CALLS: seq<Call> := [MakeCall(MkFile(A, None)), MakeCall(MkDir(D)), OpenCall(1, DX), RemoveCall(DX), OpenCall(1, B), WriteCall(W)]

  lemma RunOfCalls(tr: seq<Machine>)
    requires |tr| == 7 && Formatted(tr[0].fs) && NoneOpen(tr[0].desc)
    requires Calls(tr[0], CALLS[0], tr[1]) && Calls(tr[1], CALLS[1], tr[2]) && Calls(tr[2], CALLS[2], tr[3])
    requires Calls(tr[3], CALLS[3], tr[4]) && Calls(tr[4], CALLS[4], tr[5]) && Calls(tr[5], CALLS[5], tr[6])
    ensures CallRun(tr, CALLS)
  {
    hide Calls, Formatted, NoneOpen;
  }

  /** The tables before and after each of the first five calls. */
  lemma TablesOf() returns (g: Fs, h: Fs, k: Fs, i: Fs, j: Fs)
    ensures Formatted(NewFs()) && Shaped(h) && Shaped(k) && Shaped(i) && Shaped(j) && Proper(DX) && Proper(B)
    ensures Creates(NewFs(), MkFile(A, None), g) && Creates(g, MkDir(D), h) && Creates(h, MkFile(DX, None), k)
    ensures Removes(k, DX, i) && Creates(i, MkFile(B, None), j) && SearchReady(h, DX, FL) && SearchReady(i, B, FL)
    ensures Lookup(h, DX, FL) == None && Lookup(k, DX, FL) == Some(3) && Lookup(i, B, FL) == None && Lookup(j, B, FL) == Some(3)
    ensures FileAt(j, B) == Some([])
  {
    hide Tree, Packed, SoundFiles, Lookup, FreeInode, FreeSlot, Makes, Creates, NewFs, FileAt, Formatted, Removes, Dirs, LastName, AsFile,
      Walk, SearchReady, Filled;
    ShortPath(B);
    DxParts();
    g, h := MadeD();
    TreeShaped(h, 3);
    k := MadeX(h);
    XHeld(h, k);
    i := WithoutX(k);
    TreeShaped(i, 4);
    j := EmptyB(i);
    Searched(h, k, i);
  }

  /** open /d/x, remove it, open /b: a write through the descriptor of /d/x goes into /b. */
  lemma StaleDescriptor(d: Desc) returns (tr: seq<Machine>)
    requires NoneOpen(d) && d.live[1]
    ensures CallRun(tr, CALLS) && tr[0].desc == d && Through(tr[5].desc, W, FreeEntry(tr[2].desc.table))
    ensures |tr[5].fs.inodes| > 0 && |tr[6].fs.inodes| > 0 && SLASH in B && FileAt(tr[5].fs, B) == Some([]) && FileAt(tr[6].fs, B) == Some([7])
  {
    hide Shaped, Lookup, Creates, NewFs, FileAt, Formatted, Removes, Dirs, LastName, NoneOpen, Shape, Calls, CallRun, SearchReady, CanOpen, FreeEntry, OpenStep;
    var g, h, k, i, j := TablesOf();
    var e, f := OpenTwice(d, 3);
    var m0, m1, m2 := Machine(NewFs(), d), Machine(g, d), Machine(h, d);
    MakeCalled(m0, MkFile(A, None), g);
    MakeCalled(m1, MkDir(D), h);
    var m3 := OpenNew(m2, DX, k, 3);
    RemovalCalled(m3, DX, i);
    var m5 := OpenNew(Machine(i, e), B, j, 3);
    var m6 := WriteIntoB(m5, 3);
    tr := [m0, m1, m2, m3, Machine(i, e), m5, m6];
    RunOfCalls(tr);
  }
}
