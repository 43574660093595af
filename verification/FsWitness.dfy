/** Small runs of the file system in which the code does less than one might expect. */
module FsWitness {
  import opened Seqs
  import opened Paths
  import opened FsModel
  import opened FsTree
  import opened FsGrowth
  import opened FsPaths
  import opened FsRemoval
  import opened FsScan
  import opened FsRuns
  import opened FsLimits
  import opened FileData
  import opened FsContents

  function BlankInode(): Inode {
    Inode(UNUSED, 0, "", seq(NR_DIRDATA, _ => DirEntry(0, "")), seq(MAX_FILE_SZ, _ => 0))
  }

  /** makeRootDir on zeroed storage. */
  function NewFs(): Fs {
    Fs([true] + seq(NR_INODE - 1, _ => false), [AsDir(BlankInode(), 0, 0, "/")] + seq(NR_INODE - 1, _ => BlankInode()))
  }

  lemma NewFormatted()
    ensures Formatted(NewFs())
  {
    assert Blank(BlankInode());
    assert NewFs().inodes[0] == AsDir(BlankInode(), 0, 0, "/");
  }

  const A: string := "/a"
  const B: string := "/b"
  const D: string := "/d"
  const DX: string := "/d/x"

  /** A path of one letter. */
  predicate Short(path: string) {
    |path| == 2 && path[0] == SLASH && path[1] != SLASH && path[1] != '.'
  }

  lemma ShortPath(path: string)
    requires Short(path)
    ensures Absolute(path) && Proper(path) && Parents(path) == [] && Base(path) == path[1..] && LastLevelName(path) == path[1..]
    ensures IsDirName(path[1..] + [SLASH]) && Stored(path, DIR) == path + [SLASH] && Proper(path + [SLASH])
    ensures WithSlash(path[1..]) == path[1..] + [SLASH] && Parents(path + [SLASH]) == [] && Base(path + [SLASH]) == path[1..] + [SLASH]
  {
    assert FirstSlash(path) == 0;
    assert BelowTop(path) == path[1..] == [path[1]];
    StoredParts(path, FL);
    StoredParts(path, DIR);
  }

  /** What can be made in the root: a file, or a directory on a clean block. */
  lemma RootPossible(fs: Fs, n: nat, cmd: Cmd)
    requires Tree(fs, n) && FreeInode(fs) < NR_INODE && FreeSlot(fs.inodes[0].entries) < NR_DIRDATA
    requires Short(cmd.path) && !cmd.RmFile? && ContentFits(cmd) && (cmd.MkDir? ==> CleanBlock(fs.inodes[FreeInode(fs)]))
    ensures Possible(fs, cmd) && Walk(fs, Parents(cmd.path)) == Some(0)
  {
    hide FreeInode, FreeSlot, LastLevelName, Dirs, LastName, Tree, CleanBlock;
    TreeShaped(fs, n);
    ShortPath(cmd.path);
    assert cmd.path[1..] == [cmd.path[1]];
  }

  /** The table after something has been made in the root. */
  lemma RootStep(fs: Fs, n: nat, cmd: Cmd, g: Fs)
    requires Tree(fs, n) && Makes(fs, cmd, g) && SLASH in cmd.path && |fs.inodes| > 0 && Walk(fs, Parents(cmd.path)) == Some(0)
    ensures var c, m := FreeInode(fs), FreeSlot(fs.inodes[0].entries);
      && Shaped(fs) && Shaped(g) && Tree(g, Used(n, c)) && g.inodes[0].kind == DIR && 2 <= m < NR_DIRDATA && 0 < c < NR_INODE
      && g.inodes[0].entries == fs.inodes[0].entries[m := DirEntry(c, StoredName(cmd.path, KindOf(cmd)))]
      && g.inuse == fs.inuse[c := true]
      && ContentFits(cmd) && !cmd.RmFile? && g.inodes[c] == Child(fs, c, 0, cmd)
      && forall i :: 0 <= i < NR_INODE && i != 0 && i != c ==> g.inodes[i] == fs.inodes[i]
  {
    PossibleParts(fs, cmd);
    hide Tree, Possible, Perform, Child, FreeInode, FreeSlot, Grown, Walk, NameOk, EmptyDir, Dirs, LastName, LastLevelName;
    PerformMakes(fs, n, cmd);
    TreeShaped(fs, n);
    var c, name := FreeInode(fs), StoredName(cmd.path, KindOf(cmd));
    GrownEntries(fs, n, c, 0, name, Child(fs, c, 0, cmd));
    GrownTree(fs, n, c, 0, name, Child(fs, c, 0, cmd));
    assert g.inuse == fs.inuse[c := true];
  }

  lemma SlotIs(es: seq<DirEntry>, k: nat)
    requires k < |es| && es[k].filename == "" && forall j :: 0 <= j < k ==> es[j].filename != ""
    ensures FreeSlot(es) == k
  {
  }

  lemma FreeIs(fs: Fs, c: nat)
    requires c < |fs.inuse| && !fs.inuse[c] && forall i :: 0 <= i < c ==> fs.inuse[i]
    ensures FreeInode(fs) == c
  {
  }

  /** Inodes 0 to c - 1 are in use, and the root has entries up to m - 1. */
  ghost predicate Filled(fs: Fs, c: nat, m: nat) {
    && Shaped(fs) && c < NR_INODE && 2 <= m < NR_DIRDATA
    && (forall i :: 0 <= i < NR_INODE ==> (fs.inuse[i] <==> i < c))
    && fs.inodes[0].entries[0].filename == "." && fs.inodes[0].entries[1].filename == ".."
    && forall k :: 0 <= k < NR_DIRDATA ==> (fs.inodes[0].entries[k].filename != "" <==> k < m)
  }

  lemma FilledIs(fs: Fs, c: nat, m: nat)
    requires Filled(fs, c, m)
    ensures FreeInode(fs) == c && FreeSlot(fs.inodes[0].entries) == m
  {
    FreeIs(fs, c);
    SlotIs(fs.inodes[0].entries, m);
  }

  lemma NewFilled()
    ensures Formatted(NewFs()) && Tree(NewFs(), 1) && Distinct(NewFs()) && Packed(NewFs()) && SoundFiles(NewFs()) && Filled(NewFs(), 1, 2)
    ensures forall q, kind :: Proper(q) ==> Lookup(NewFs(), q, kind) == None
    ensures forall i :: 1 <= i < NR_INODE ==> NewFs().inodes[i] == BlankInode()
    ensures CleanBlock(BlankInode()) && Sound(BlankInode())
  {
    NewFormatted();
    FormattedTree(NewFs());
    RootEmpty(NewFs());
    forall q, kind | Proper(q)
      ensures Lookup(NewFs(), q, kind) == None
    {
      EmptyLookup(NewFs(), q, kind);
    }
  }

  /** Making something in the root of a file system without holes. */
  lemma Fill(fs: Fs, n: nat, c: nat, m: nat, cmd: Cmd) returns (g: Fs)
    requires Tree(fs, n) && Filled(fs, c, m) && c + 1 < NR_INODE && m + 1 < NR_DIRDATA
    requires Short(cmd.path) && !cmd.RmFile? && ContentFits(cmd) && (cmd.MkDir? ==> CleanBlock(fs.inodes[c]))
    ensures Makes(fs, cmd, g) && Tree(g, Used(n, c)) && Filled(g, c + 1, m + 1) && FreeInode(fs) == c && c > 0
    ensures Walk(fs, Parents(cmd.path)) == Some(0) && g.inodes[c] == Child(fs, c, 0, cmd)
    ensures g.inodes[0].entries == fs.inodes[0].entries[m := DirEntry(c, StoredName(cmd.path, KindOf(cmd)))]
    ensures forall i :: 0 <= i < NR_INODE && i != 0 && i != c ==> g.inodes[i] == fs.inodes[i]
  {
    hide Tree, FreeInode, FreeSlot, Possible, Perform, Dirs, LastName, LastLevelName, CleanBlock, Child, Walk;
    FilledIs(fs, c, m);
    TreeShaped(fs, n);
    RootPossible(fs, n, cmd);
    g := MadeBy(fs, cmd);
    RootStep(fs, n, cmd, g);
    NameThere(fs, cmd);
  }

  lemma MadeBy(fs: Fs, cmd: Cmd) returns (g: Fs)
    requires Possible(fs, cmd)
    ensures Makes(fs, cmd, g)
  {
    hide Walk, FreeInode, FreeSlot, Dirs, LastName, LastLevelName, NameOk, CleanBlock, AsDir, AsFile, Adopt;
    g := Perform(fs, cmd).fs;
  }

  lemma NameThere(fs: Fs, cmd: Cmd)
    requires Possible(fs, cmd)
    ensures StoredName(cmd.path, KindOf(cmd)) != ""
  {
  }

  /** A removal from the root, where the file's entry is known. */
  lemma Unfill(fs: Fs, n: nat, path: string, k: nat, c: nat) returns (g: Fs)
    requires Tree(fs, n) && Short(path) && |fs.inodes| > 0 && SLASH in path && Lookup(fs, path, FL) == Some(c)
    requires 2 <= k < NR_DIRDATA == |fs.inodes[0].entries| && fs.inodes[0].entries[k].filename == path[1..]
    requires forall j :: 0 <= j < k ==> fs.inodes[0].entries[j].filename != path[1..]
    ensures Removes(fs, path, g) && Tree(g, n) && Shaped(fs) && Shaped(g) && 0 < c < NR_INODE
    ensures g.inodes[0] == fs.inodes[0].(entries := fs.inodes[0].entries[k := DirEntry(0, "")])
    ensures forall i :: 0 < i < NR_INODE ==> g.inodes[i] == fs.inodes[i]
    ensures forall i :: 0 <= i < NR_INODE ==> g.inuse[i] == (fs.inuse[i] && i != c)
  {
    hide Tree, Lookup, Dirs, LastName, Walk, Copies, NameOk;
    ShortPath(path);
    TreeShaped(fs, n);
    WalkRoot(fs);
    var p, j, x := FoundEntry(fs, n, path);
    EntryOk(fs, n, p, j, x);
    assert p == 0 && x == c && j == k;
    RemovedTree(fs, n, 0, k, c);
    RemovedInodes(fs, 0, k, c);
    g := WithoutFL(fs, path);
  }

  lemma WalkRoot(fs: Fs)
    requires |fs.inodes| > 0
    ensures Walk(fs, []) == Some(0)
  {
  }

  // ---------------------------------------------------------------- names that are taken

  lemma FreshFirst(content: Option<seq<Byte>>) returns (g: Fs)
    requires content.Some? ==> |content.value| < MAX_FILE_SZ && NUL_BYTE !in content.value
    ensures Creates(NewFs(), MkFile(A, content), g) && Tree(g, 2) && Filled(g, 2, 3) && Distinct(g) && Packed(g) && SoundFiles(g)
    ensures g.inodes[0].entries[2] == DirEntry(1, "a")
    ensures forall q, kind :: Proper(q) ==> Lookup(g, q, kind) == if q == A && kind == FL then Some(1) else None
    ensures g.inodes[1] == AsFile(BlankInode(), "a", content) && Proper(A)
    ensures forall i :: 2 <= i < NR_INODE ==> g.inodes[i] == BlankInode()
  {
    hide Tree, Distinct, Packed, Lookup, Possible, Perform, FreeInode, NewFs, Formatted, SoundFiles, CleanBlock, Dirs, LastName, LastLevelName;
    NewFilled();
    ShortPath(A);
    assert A[1..] == "a";
    g := Fill(NewFs(), 1, 1, 2, MkFile(A, content));
    CreateStep(NewFs(), 1, MkFile(A, content), g);
    CreatedSound(NewFs(), 1, MkFile(A, content), g);
  }

  lemma OneCopy(g: Fs, n: nat, q: string, kind: FileType, c: nat)
    requires Tree(g, n) && Distinct(g) && Absolute(q) && |g.inodes| > 0 && Lookup(g, q, kind) == Some(c)
    ensures Copies(g, q, kind) == [c]
  {
    hide Tree, Distinct, Lookup, Copies;
    DistinctOnce(g, n, q, kind);
    LookupIsHead(g, q, kind);
  }

  lemma SecondA(g: Fs) returns (h: Fs)
    requires Tree(g, 2) && Filled(g, 2, 3) && Packed(g) && Distinct(g)
    requires forall q, kind :: Proper(q) ==> Lookup(g, q, kind) == if q == A && kind == FL then Some(1) else None
    ensures Makes(g, MkFile(A, Some([2])), h) && Tree(h, 3) && |h.inodes| > 0 && FreeInode(g) == 2 && Absolute(A)
    ensures !Fresh(g, MkFile(A, Some([2]))) && Copies(h, A, FL) == [1, 2]
    ensures forall q, kind :: Proper(q) ==> Lookup(h, q, kind) == Lookup(g, q, kind)
  {
    hide Tree, Distinct, Packed, Lookup, FreeInode, Makes, Copies, Dirs, LastName, Child;
    ShortPath(A);
    var cmd := MkFile(A, Some([2]));
    h := Fill(g, 2, 2, 3, cmd);
    OneCopy(g, 2, A, FL, 1);
    TwoCopies(g, 2, cmd, h);
    forall q, kind | Proper(q)
      ensures Lookup(h, q, kind) == Lookup(g, q, kind)
    {
      TakenChangesNothing(g, 2, cmd, h, q, kind);
    }
  }

  lemma FirstARemoved(h: Fs) returns (i: Fs)
    requires Tree(h, 3) && |h.inodes| > 0 && Absolute(A) && Proper(A) && Copies(h, A, FL) == [1, 2]
    ensures Removes(h, A, i) && |i.inodes| > 0 && Lookup(i, A, FL) == Some(2)
  {
    hide Tree, Lookup, Copies, WithoutFL, Dirs, LastName, CanRemove;
    LookupIsHead(h, A, FL);
    RemoveStep(h, 3, A);
    i := WithoutFL(h, A);
    LookupIsHead(i, A, FL);
  }

  /** makeFL of a name that is taken: the second file stands behind the first, until that is removed. */
  lemma TakenName() returns (tr: seq<Fs>, cmds: seq<Cmd>)
    ensures Run(tr, cmds) && cmds == [MkFile(A, Some([1])), MkFile(A, Some([2])), RmFile(A)]
    ensures |tr[1].inodes| > 0 && |tr[2].inodes| > 0 && |tr[3].inodes| > 0 && SLASH in A && !Fresh(tr[1], cmds[1])
    ensures FreeInode(tr[1]) == 2 && Lookup(tr[2], A, FL) == Some(1) && Lookup(tr[3], A, FL) == Some(2)
    ensures forall q, kind :: Proper(q) ==> Lookup(tr[2], q, kind) != Some(2)
  {
    hide Tree, Distinct, Packed, Lookup, FreeInode, Makes, Creates, NewFs, SoundFiles, Copies, Formatted, Dirs, LastName, Filled, Removes, Fresh;
    var g := FreshFirst(Some([1]));
    CreatesMakes(NewFs(), MkFile(A, Some([1])), g);
    TreeShaped(g, 2);
    var h := SecondA(g);
    var i := FirstARemoved(h);
    NewFormatted();
    tr, cmds := [NewFs(), g, h, i], [MkFile(A, Some([1])), MkFile(A, Some([2])), RmFile(A)];
  }

  lemma CreatesMakes(fs: Fs, cmd: Cmd, g: Fs)
    requires Creates(fs, cmd, g)
    ensures Makes(fs, cmd, g)
  {
  }

  lemma TwoCopies(g: Fs, n: nat, cmd: Cmd, h: Fs)
    requires Tree(g, n) && Packed(g) && Makes(g, cmd, h) && cmd.MkFile? && Absolute(cmd.path) && |g.inodes| > 0 && Copies(g, cmd.path, FL) == [1]
    ensures |h.inodes| > 0 && Copies(h, cmd.path, FL) == [1, FreeInode(g)]
  {
    hide Tree, Packed, Makes, Copies, FreeInode, Walk, Possible, Front, Dirs, LastName, LastLevelName, Insert;
    MakesParts(g, cmd, h);
    MakeStep(g, n, cmd, h);
    PackedFront(g, n, cmd);
    InsertLast(1, FreeInode(g));
  }

  lemma InsertLast(x: nat, y: nat)
    ensures Insert([x], 1, y) == [x, y]
  {
  }

  lemma MadeB(g: Fs) returns (h: Fs)
    requires Tree(g, 2) && Filled(g, 2, 3) && g.inodes[0].entries[2] == DirEntry(1, "a")
    requires forall q, kind :: Proper(q) ==> Lookup(g, q, kind) == if q == A && kind == FL then Some(1) else None
    ensures Makes(g, MkFile(B, None), h) && Tree(h, 3) && Filled(h, 3, 4) && h.inodes[0].entries[2].filename == "a"
    ensures SLASH in A && SLASH in B && |h.inodes| > 0 && Lookup(h, A, FL) == Some(1) && Lookup(h, B, FL) == Some(2)
  {
    hide Tree, Distinct, Packed, Lookup, FreeInode, Possible, Perform, Dirs, LastName, Child;
    ShortPath(A);
    ShortPath(B);
    h := Fill(g, 2, 2, 3, MkFile(B, None));
    CreateStep(g, 2, MkFile(B, None), h);
  }

  lemma WithoutA(h: Fs, n: nat) returns (i: Fs)
    requires Tree(h, n) && Shaped(h) && h.inodes[0].entries[0].filename == "." && h.inodes[0].entries[1].filename == ".."
    requires h.inodes[0].entries[2].filename == "a" && SLASH in A && |h.inodes| > 0 && Lookup(h, A, FL) == Some(1)
    ensures Removes(h, A, i) && Tree(i, n) && Shaped(i) && FreeInode(i) == 1 && FreeSlot(i.inodes[0].entries) == 2
    ensures i.inodes[1] == h.inodes[1] && forall q, kind :: Absolute(q) && q != A ==> Lookup(i, q, kind) == Lookup(h, q, kind)
  {
    hide Tree, Lookup, FreeInode, FreeSlot, WithoutFL, CanRemove, Dirs, LastName;
    ShortPath(A);
    assert A[1..] == "a";
    TreeShaped(h, n);
    i := Unfill(h, n, A, 2, 1);
    DirInUse(h, n, 0);
    FreeIs(i, 1);
    SlotIs(i.inodes[0].entries, 2);
    forall q, kind | Absolute(q) && q != A
      ensures Lookup(i, q, kind) == Lookup(h, q, kind)
    {
      RemovedElsewhere(h, n, A, q, kind);
    }
  }

  lemma IntoHole(i: Fs, n: nat, cmd: Cmd) returns (j: Fs)
    requires Tree(i, n) && FreeInode(i) == 1 && Shaped(i) && FreeSlot(i.inodes[0].entries) == 2
    requires Short(cmd.path) && !cmd.RmFile? && ContentFits(cmd) && (cmd.MkDir? ==> CleanBlock(i.inodes[1]))
    ensures Makes(i, cmd, j) && SLASH in cmd.path && Walk(i, Parents(cmd.path)).Some? && Front(i, cmd) == 0 && Absolute(Stored(cmd.path, KindOf(cmd)))
    ensures |j.inodes| > 0 && Lookup(j, Stored(cmd.path, KindOf(cmd)), KindOf(cmd)) == Some(1)
  {
    hide Tree, Lookup, FreeInode, FreeSlot, Makes, Dirs, LastName, Walk, Possible, Front, CleanBlock, Stored;
    RootPossible(i, n, cmd);
    j := MadeBy(i, cmd);
    PossibleParts(i, cmd);
    DotsFirst(i, n, cmd);
    FoundIffFirst(i, n, cmd, j);
  }

  /** An entry that is free in front of the old one: then the second file of a name hides the first. */
  lemma MovedName() returns (tr: seq<Fs>, cmds: seq<Cmd>)
    ensures Run(tr, cmds) && cmds == [MkFile(A, None), MkFile(B, None), RmFile(A), MkFile(B, None)]
    ensures |tr[3].inodes| > 0 && |tr[4].inodes| > 0 && Absolute(B) && !Fresh(tr[3], cmds[3])
    ensures Lookup(tr[3], B, FL) == Some(2) && Lookup(tr[4], B, FL) == Some(1)
  {
    hide Tree, Distinct, Packed, Lookup, FreeInode, FreeSlot, Makes, Creates, NewFs, SoundFiles, Formatted, Removes, Dirs, LastName, Front, Walk;
    var g := FreshFirst(None);
    CreatesMakes(NewFs(), MkFile(A, None), g);
    NewFormatted();
    var h := MadeB(g);
    var i := WithoutA(h, 3);
    var j := IntoHole(i, 3, MkFile(B, None));
    tr, cmds := [NewFs(), g, h, i, j], [MkFile(A, None), MkFile(B, None), RmFile(A), MkFile(B, None)];
  }

  /** In front of entry 2 there are only the dots. */
  lemma DotsFirst(fs: Fs, n: nat, cmd: Cmd)
    requires Tree(fs, n) && Possible(fs, cmd) && Short(cmd.path)
    requires Walk(fs, Parents(cmd.path)) == Some(0) && FreeSlot(fs.inodes[0].entries) == 2
    ensures SLASH in cmd.path && |fs.inodes| > 0 && Front(fs, cmd) == 0
  {
    hide Tree, FreeSlot, Dirs, LastName, LastLevelName, Walk, FreeInode;
    ShortPath(cmd.path);
    TreeShaped(fs, n);
    DirInUse(fs, n, 0);
    FrontIsFirst(fs, n, cmd);
    assert cmd.path[1..] == [cmd.path[1]];
  }

  // ---------------------------------------------------------------- entries that stay behind

  /** Make /a and remove it: then looking for /b runs off the end of the entry table. */
  lemma MissAfterRemoval() returns (tr: seq<Fs>, cmds: seq<Cmd>)
    ensures Run(tr, cmds) && cmds == [MkFile(A, None), RmFile(A)]
    ensures |tr[2].inodes| > 0 && SLASH in B && Lookup(tr[2], B, FL) == None && ScanIn(tr[2], 0, "b", FL) == Overrun
  {
    hide Tree, Distinct, Packed, Lookup, FreeInode, FreeSlot, Makes, Creates, NewFs, SoundFiles, Formatted, Removes, Dirs, LastName, Walk, Find;
    var g := FreshFirst(None);
    CreatesMakes(NewFs(), MkFile(A, None), g);
    NewFormatted();
    ShortPath(A);
    ShortPath(B);
    assert B[1..] == "b";
    TreeShaped(g, 2);
    var h := WithoutA(g, 2);
    LookupInRoot(h, B);
    tr, cmds := [NewFs(), g, h], [MkFile(A, None), RmFile(A)];
    WalkRoot(g);
    assert TakesFrom(tr, cmds, 0, 1);
    RootStays(g, h);
    MissOverruns(tr, cmds, 2, 0, "b", FL);
  }

  lemma RootStays(g: Fs, h: Fs)
    requires Tree(g, 2) && Removes(g, A, h)
    ensures |h.inodes| == NR_INODE && h.inodes[0].kind == DIR
  {
    hide Tree, Lookup, Walk, Dirs, LastName;
    TreeShaped(g, 2);
    RemovedFiles(g, 2, A, h);
  }

  lemma LookupInRoot(g: Fs, path: string)
    requires Short(path) && |g.inodes| > 0
    ensures Proper(path) && Lookup(g, path, FL) == FindIn(g, 0, path[1..], FL)
  {
    hide Dirs, LastName, Find;
    ShortPath(path);
    WalkRoot(g);
  }

  lemma StaleB(h: Fs) returns (i: Fs)
    requires Tree(h, 2) && Shaped(h) && FreeInode(h) == 1 && FreeSlot(h.inodes[0].entries) == 2 && SoundFiles(h)
    requires h.inodes[1] == AsFile(BlankInode(), "a", Some([7])) && SLASH in B && Lookup(h, B, FL) == None
    ensures Makes(h, MkFile(B, None), i) && |i.inodes| > 0 && FileAt(i, B) == Some([7]) && Lookup(i, B, FL) == Some(1)
  {
    hide Tree, Distinct, Packed, Lookup, FreeInode, FreeSlot, Makes, FileAt, Content, Possible, Perform, Dirs, LastName, SoundFiles, Walk, Front;
    ShortPath(B);
    i := IntoHole(h, 2, MkFile(B, None));
    MakesCreates(h, MkFile(B, None), i);
    CreateContents(h, 2, MkFile(B, None), i);
    SevenHeld();
  }

  lemma StillSound(g: Fs, h: Fs)
    requires Tree(g, 2) && Removes(g, A, h) && SoundFiles(g)
    ensures SoundFiles(h)
  {
    hide Tree, Lookup, Walk, Dirs, LastName;
    RemovedFiles(g, 2, A, h);
  }

  /** Make /a holding 7, remove it, and make /b without data: /b holds 7. */
  lemma StaleContent() returns (tr: seq<Fs>, ops: seq<Op>)
    ensures ContentRun(tr, ops) && ops == [Change(MkFile(A, Some([7]))), Change(RmFile(A)), Change(MkFile(B, None))]
    ensures |tr[3].inodes| > 0 && SLASH in B && FileAt(tr[3], B) == Some([7])
    ensures |tr[1].inodes| > 0 && SLASH in A && Lookup(tr[1], A, FL) == Lookup(tr[3], B, FL) == Some(1)
  {
    hide Tree, Distinct, Packed, Lookup, FreeInode, FreeSlot, Makes, Creates, NewFs, FileAt, Formatted, Removes, Dirs, LastName, SoundFiles, AsFile;
    var g := FreshFirst(Some([7]));
    CreatesMakes(NewFs(), MkFile(A, Some([7])), g);
    NewFormatted();
    ShortPath(A);
    ShortPath(B);
    TreeShaped(g, 2);
    var h := WithoutA(g, 2);
    StillSound(g, h);
    var i := StaleB(h);
    tr, ops := [NewFs(), g, h, i], [Change(MkFile(A, Some([7]))), Change(RmFile(A)), Change(MkFile(B, None))];
  }

  lemma SevenHeld()
    ensures var i := AsFile(BlankInode(), "a", Some([7])); i.size <= |i.data| && Content(i) == [7]
  {
  }

  lemma MakesCreates(fs: Fs, cmd: Cmd, g: Fs)
    requires Makes(fs, cmd, g) && Absolute(cmd.path) && |fs.inodes| > 0 && Fresh(fs, cmd)
    ensures Creates(fs, cmd, g)
  {
  }

  /** Make a file of 69 letters, remove it, make a directory: it has an entry that nobody made and does not count. */
  lemma OldBytesShow() returns (g: Fs, h: Fs, i: Fs)
    ensures Creates(NewFs(), MkFile(A, Some(seq(69, _ => 97))), g) && Removes(g, A, h)
    ensures Shaped(h) && SLASH in B && MakeDir(h, B) == Made(i) && |i.inodes| == NR_INODE
    ensures i.inodes[1].kind == DIR && i.inodes[1].size == 2 && |i.inodes[1].entries| == NR_DIRDATA && i.inodes[1].entries[2].filename != ""
  {
    hide Tree, Distinct, Packed, Lookup, FreeInode, FreeSlot, Makes, NewFs, SoundFiles, Formatted, Removes, Possible, Perform, Dirs, LastName, Overlay, Walk, LastLevelName, AddEntry;
    var content: seq<Byte> := seq(69, _ => 97);
    g := FreshFirst(Some(content));
    ShortPath(A);
    ShortPath(B);
    assert A[1..] == "a";
    h := Unfill(g, 2, A, 2, 1);
    FreeIs(h, 1);
    SlotIs(h.inodes[0].entries, 2);
    WalkRoot(h);
    LettersHeld(content);
    i := MakeDir(h, B).fs;
    OverlayName(h.inodes[1].data, 2);
  }

  lemma LettersHeld(content: seq<Byte>)
    requires |content| == 69 && content[68] == 97
    ensures var i := AsFile(BlankInode(), "a", Some(content)); |i.data| == MAX_FILE_SZ && NameByte(i.data, 2) == 97
  {
  }

  // ---------------------------------------------------------------- directories

  /** makeDir of "/d" makes a directory that is found as "/d/" and not as "/d". */
  lemma MissingSlash() returns (g: Fs)
    ensures Creates(NewFs(), MkDir(D), g) && |g.inodes| > 0 && SLASH in D && SLASH in "/d/"
    ensures Lookup(g, D, DIR) == None && Lookup(g, "/d/", DIR) == Some(1)
  {
    hide Tree, Distinct, Packed, Lookup, FreeInode, Makes, Perform, Possible, NewFs, SoundFiles, Formatted, Dirs, LastName, CleanBlock, Walk, Child;
    NewFilled();
    ShortPath(D);
    assert D + [SLASH] == "/d/";
    g := Fill(NewFs(), 1, 1, 2, MkDir(D));
    MakesCreates(NewFs(), MkDir(D), g);
    CreateStep(NewFs(), 1, MkDir(D), g);
  }

  lemma DxParts()
    ensures Absolute(DX) && Proper(DX) && Parents(DX) == ["d/"] && Base(DX) == "x" && LastLevelName(DX) == "x"
    ensures Below("/d/", DX) && Stored(D, DIR) == "/d/" && Absolute("/d/") && Parents("/d/") == [] && Base("/d/") == "d/"
  {
    hide Dirs, LastName, FirstSlash, LastLevelName, TopDir, IsDirName, IsLastLevel, Stored, BelowTop;
    ShortPath(D);
    assert D + [SLASH] == "/d/" && D[1..] + [SLASH] == "d/" && "/d/" + "x" == DX;
    BelowParts("/d/", "x");
    SplitOne("x");
    StoredParts(DX, FL);
  }

  lemma WalkOne(fs: Fs, d: string)
    requires |fs.inodes| > 0
    ensures Walk(fs, [d]) == FindIn(fs, 0, d, DIR)
  {
    assert [d][..0] == [];
    WalkRoot(fs);
  }

  /** /a and the directory /d. */
  lemma MadeD() returns (g: Fs, h: Fs)
    ensures Formatted(NewFs()) && Makes(NewFs(), MkFile(A, None), g) && Makes(g, MkDir(D), h) && Tree(h, 3) && Filled(h, 3, 4)
    ensures h.inodes[0].entries[2].filename == "a" && h.inodes[1] == AsFile(BlankInode(), "a", None)
    ensures SLASH in A && Lookup(h, A, FL) == Some(1) && Walk(h, ["d/"]) == Some(2) && FreeSlot(h.inodes[2].entries) == 2
    ensures forall q, kind :: Proper(q) && q != A && q != "/d/" ==> Lookup(h, q, kind) == None
    ensures Creates(NewFs(), MkFile(A, None), g) && Creates(g, MkDir(D), h) && Packed(h) && SoundFiles(h)
  {
    hide Tree, Distinct, Packed, Lookup, FreeInode, Possible, Perform, NewFs, SoundFiles, Formatted, Dirs, LastName, CleanBlock, Walk, AsFile, Overlay, Find;
    NewFilled();
    g := FreshFirst(None);
    CreatesMakes(NewFs(), MkFile(A, None), g);
    h := DAfterA(g);
  }

  lemma DAfterA(g: Fs) returns (h: Fs)
    requires Tree(g, 2) && Filled(g, 2, 3) && g.inodes[2] == BlankInode() && CleanBlock(BlankInode()) && Packed(g) && SoundFiles(g)
    requires forall q, kind :: Proper(q) ==> Lookup(g, q, kind) == if q == A && kind == FL then Some(1) else None
    ensures Makes(g, MkDir(D), h) && Tree(h, 3) && Filled(h, 3, 4) && h.inodes[0].entries[2] == g.inodes[0].entries[2] && h.inodes[1] == g.inodes[1]
    ensures SLASH in A && Lookup(h, A, FL) == Some(1) && Walk(h, ["d/"]) == Some(2) && FreeSlot(h.inodes[2].entries) == 2
    ensures forall q, kind :: Proper(q) && q != A && q != "/d/" ==> Lookup(h, q, kind) == None
    ensures Creates(g, MkDir(D), h) && Packed(h) && SoundFiles(h)
  {
    hide Tree, Distinct, Packed, Lookup, FreeInode, Possible, Perform, SoundFiles, Dirs, LastName, CleanBlock, Walk, Overlay, Find, FreeSlot,
      Child, AsDir, IsDirName, LastLevelName, BlankInode;
    ShortPath(A);
    DxParts();
    h := FillD(g);
    CreateStep(g, 2, MkDir(D), h);
    CreatedSound(g, 2, MkDir(D), h);
    forall q, kind | Proper(q) && q != A && q != "/d/"
      ensures Lookup(h, q, kind) == None
    {
      NotDots(g, MkDir(D), q);
    }
    NewDirectory(h);
  }

  lemma FillD(g: Fs) returns (h: Fs)
    requires Tree(g, 2) && Filled(g, 2, 3) && CleanBlock(g.inodes[2])
    ensures Makes(g, MkDir(D), h) && FreeInode(g) == 2 && Tree(h, 3) && Filled(h, 3, 4)
    ensures h.inodes[0].entries[2] == g.inodes[0].entries[2] && h.inodes[1] == g.inodes[1] && h.inodes[2] == AsDir(g.inodes[2], 2, 0, "d/")
  {
    hide Tree, FreeInode, CleanBlock, Child, AsDir, Makes;
    ShortPath(D);
    ChildD(g);
    h := Fill(g, 2, 2, 3, MkDir(D));
  }

  lemma ChildD(g: Fs)
    requires Shaped(g)
    ensures Child(g, 2, 0, MkDir(D)) == AsDir(g.inodes[2], 2, 0, "d/")
  {
    ShortPath(D);
    assert D[1..] + [SLASH] == "d/";
  }

  lemma NewDirectory(h: Fs)
    requires Shaped(h) && CleanBlock(BlankInode()) && h.inodes[2] == AsDir(BlankInode(), 2, 0, "d/") && SLASH in "/d/" && Lookup(h, "/d/", DIR) == Some(2)
    ensures Walk(h, ["d/"]) == Some(2) && FreeSlot(h.inodes[2].entries) == 2
  {
    hide Lookup, Walk, FreeSlot, Overlay, Find, Dirs, LastName, CleanBlock;
    DxParts();
    WalkOne(h, "d/");
    LookupParts(h, "/d/", DIR);
    EmptyExactlyClean(BlankInode(), 2, 0, "d/");
    SlotIs(h.inodes[2].entries, 2);
  }

  lemma LookupParts(fs: Fs, q: string, kind: FileType)
    requires |fs.inodes| > 0 && SLASH in q && Parents(q) == []
    ensures Lookup(fs, q, kind) == FindIn(fs, 0, Base(q), kind)
  {
    hide Dirs, LastName, Find;
    WalkRoot(fs);
  }

  /** And a file in it. */
  lemma MadeX(h: Fs) returns (k: Fs)
    requires Tree(h, 3) && Filled(h, 3, 4) && Walk(h, ["d/"]) == Some(2) && FreeSlot(h.inodes[2].entries) == 2
    requires SLASH in A && SLASH in DX && Lookup(h, A, FL) == Some(1) && Lookup(h, DX, FL) == None
    ensures Makes(h, MkFile(DX, None), k) && Tree(k, 4) && Shaped(k) && k.inodes[0] == h.inodes[0] && k.inodes[1] == h.inodes[1]
    ensures Lookup(k, DX, FL) == Some(3) && Lookup(k, A, FL) == Some(1)
    ensures Creates(h, MkFile(DX, None), k) && FreeInode(h) == 3
  {
    hide Tree, Lookup, FreeInode, FreeSlot, Dirs, LastName, Walk, LastLevelName;
    DxParts();
    ShortPath(A);
    FilledIs(h, 3, 4);
    assert "/d/x" != A;
    var cmd := MkFile(DX, None);
    assert Possible(h, cmd);
    hide Possible, Perform, Child;
    k := MadeBy(h, cmd);
    MakesCreates(h, cmd, k);
    CreateStep(h, 3, cmd, k);
    CreatedInodes(h, 3, cmd, k);
  }

  lemma BlankFileClean()
    ensures CleanBlock(AsFile(BlankInode(), "a", None))
  {
  }

  lemma SecondD(i: Fs) returns (j: Fs)
    requires Tree(i, 4) && FreeInode(i) == 1 && Shaped(i) && FreeSlot(i.inodes[0].entries) == 2 && CleanBlock(i.inodes[1])
    ensures Makes(i, MkDir(D), j) && |j.inodes| > 0 && SLASH in DX && Lookup(j, DX, FL) == None
  {
    hide Tree, Lookup, FreeInode, FreeSlot, Makes, Dirs, LastName, Walk, CleanBlock, Front;
    DxParts();
    ShortPath(D);
    j := IntoHole(i, 4, MkDir(D));
    ShadowHides(i, 4, MkDir(D), j, DX, FL);
  }

  lemma RunOfFive(tr: seq<Fs>, cmds: seq<Cmd>)
    requires |tr| == 6 && cmds == [MkFile(A, None), MkDir(D), MkFile(DX, None), RmFile(A), MkDir(D)]
    requires Formatted(tr[0]) && Makes(tr[0], cmds[0], tr[1]) && Makes(tr[1], cmds[1], tr[2]) && Makes(tr[2], cmds[2], tr[3])
    requires Removes(tr[3], A, tr[4]) && Makes(tr[4], cmds[4], tr[5])
    ensures Run(tr, cmds)
  {
    hide Formatted, Makes, Removes;
  }

  /** /a, /d and /d/x, and /a removed. */
  lemma BeforeSecondD() returns (g: Fs, h: Fs, k: Fs, i: Fs)
    ensures Formatted(NewFs()) && Makes(NewFs(), MkFile(A, None), g) && Makes(g, MkDir(D), h) && Makes(h, MkFile(DX, None), k) && Removes(k, A, i)
    ensures Tree(i, 4) && Shaped(i) && FreeInode(i) == 1 && FreeSlot(i.inodes[0].entries) == 2 && CleanBlock(i.inodes[1])
    ensures SLASH in DX && Lookup(i, DX, FL) == Some(3)
  {
    hide Creates, Packed, SoundFiles, Tree, Lookup, FreeInode, FreeSlot, Makes, NewFs, Formatted, Removes, Dirs, LastName, Walk, AsFile, CleanBlock, Filled;
    g, h := MadeD();
    DxParts();
    FilledShape(h);
    k := MadeX(h);
    i := WithoutA(k, 4);
    BlankFileClean();
  }

  /** A directory made a second time in a free entry in front of the first: what was in the first is gone. */
  lemma HiddenBelow() returns (tr: seq<Fs>, cmds: seq<Cmd>)
    ensures Run(tr, cmds) && cmds == [MkFile(A, None), MkDir(D), MkFile(DX, None), RmFile(A), MkDir(D)]
    ensures |tr[4].inodes| > 0 && |tr[5].inodes| > 0 && SLASH in DX
    ensures Lookup(tr[4], DX, FL) == Some(3) && Lookup(tr[5], DX, FL) == None
  {
    hide Run, Tree, Lookup, FreeInode, FreeSlot, Makes, NewFs, Formatted, Removes, CleanBlock;
    var g, h, k, i := BeforeSecondD();
    var j := SecondD(i);
    tr, cmds := [NewFs(), g, h, k, i, j], [MkFile(A, None), MkDir(D), MkFile(DX, None), RmFile(A), MkDir(D)];
    RunOfFive(tr, cmds);
  }

  lemma FilledShape(h: Fs)
    requires Filled(h, 3, 4)
    ensures Shaped(h) && h.inodes[0].entries[0].filename == "." && h.inodes[0].entries[1].filename == ".."
  {
  }
}
