/** Runs of creations, writes and removals, against a map from paths to file contents. */
module FsContents {
  import opened Seqs
  import opened Paths
  import opened FsModel
  import opened FsTree
  import opened FsGrowth
  import opened FsPaths
  import opened FsRemoval
  import opened FsRuns
  import opened FsLimits
  import opened FileData

  datatype Op = Change(cmd: Cmd) | WriteAt(path: string, buf: seq<Byte>, off: nat)

  /** The simple file system: which inodes a path stands for, and what each inode holds. */
  datatype Store = Store(paths: PathMap, held: seq<seq<Byte>>)

  ghost predicate SoundFiles(fs: Fs) {
    forall i :: 0 <= i < |fs.inodes| && fs.inodes[i].kind != DIR ==> Sound(fs.inodes[i])
  }

  /** What a new file holds.  Made without data it shows what its inode held last, nothing if it was never used. */
  function InitialContent(fs: Fs, cmd: Cmd): seq<Byte> {
    if cmd.MkFile? && cmd.content.Some? then cmd.content.value
    else if FreeInode(fs) < |fs.inodes| && fs.inodes[FreeInode(fs)].size <= |fs.inodes[FreeInode(fs)].data| then
      Content(fs.inodes[FreeInode(fs)])
    else []
  }

  /** A file made with data replaces what its inode held, one made without shows it; a removal leaves it. */
  function HeldAfter(held: seq<seq<Byte>>, fs: Fs, cmd: Cmd): seq<seq<Byte>> {
    if cmd.MkFile? && cmd.content.Some? && FreeInode(fs) < |held| then held[FreeInode(fs) := cmd.content.value] else held
  }

  function After(st: Store, fs: Fs, op: Op): Store {
    match op
    case Change(cmd) => Store(AfterCmd(st.paths, fs, cmd), HeldAfter(st.held, fs, cmd))
    case WriteAt(path, buf, off) =>
      var xs := At(st.paths, path, FL);
      if xs != [] && xs[0] < |st.held| && off <= |st.held[xs[0]]| then
        st.(held := st.held[xs[0] := Overwrite(st.held[xs[0]], buf, off)])
      else st
  }

  function NewStore(): Store {
    Store(map[], seq(NR_INODE, _ => []))
  }

  ghost function Stores(tr: seq<Fs>, ops: seq<Op>, k: nat): Store
    requires k <= |ops| <= |tr|
  {
    if k == 0 then NewStore() else After(Stores(tr, ops, k - 1), tr[k - 1], ops[k - 1])
  }

  /** The contents of path q. */
  function ContentsOf(st: Store, q: string): Option<seq<Byte>> {
    var xs := At(st.paths, q, FL);
    if xs != [] && xs[0] < |st.held| then Some(st.held[xs[0]]) else None
  }

  /** Inodes that have ever been used after k operations. */
  ghost function Reached(tr: seq<Fs>, ops: seq<Op>, k: nat): nat
    requires k <= |ops| <= |tr|
  {
    if k == 0 then 1
    else Next(tr[k - 1], Reached(tr, ops, k - 1), ops[k - 1])
  }

  function Next(fs: Fs, n: nat, op: Op): nat {
    if op.Change? && !op.cmd.RmFile? then Used(n, FreeInode(fs)) else n
  }

  ghost predicate WritesAt(fs: Fs, path: string, buf: seq<Byte>, off: nat, g: Fs) {
    && Shaped(fs) && Proper(path) && Lookup(fs, path, FL).Some?
    && var c := Lookup(fs, path, FL).value;
      && off <= fs.inodes[c].size && off + |buf| < MAX_FILE_SZ
      && g == fs.(inodes := fs.inodes[c := Written(fs.inodes[c], buf, off)])
  }

  ghost predicate Performs(fs: Fs, op: Op, g: Fs) {
    match op
    case Change(cmd) => Does(fs, cmd, g)
    case WriteAt(path, buf, off) => WritesAt(fs, path, buf, off, g)
  }

  ghost predicate ContentRun(tr: seq<Fs>, ops: seq<Op>) {
    && |tr| == |ops| + 1 && Formatted(tr[0])
    && forall i :: 0 <= i < |ops| ==> Performs(tr[i], ops[i], tr[i + 1])
  }

  /** Paths stand for the inodes of the store, and each inode that is no directory holds what the store says. */
  ghost predicate Holds(fs: Fs, st: Store) {
    && Refines(fs, st.paths) && |st.held| == |fs.inodes| == NR_INODE
    && forall i :: 0 <= i < NR_INODE && fs.inodes[i].kind != DIR ==> Sound(fs.inodes[i]) && Content(fs.inodes[i]) == st.held[i]
  }

  // ---------------------------------------------------------------- creation

  lemma ChildSound(fs: Fs, c: nat, p: nat, cmd: Cmd)
    requires Shaped(fs) && c == FreeInode(fs) < NR_INODE && ContentFits(cmd) && !cmd.RmFile?
    requires Sound(fs.inodes[c])
    ensures var child := Child(fs, c, p, cmd);
      && child.kind == KindOf(cmd)
      && (cmd.MkFile? ==> Sound(child) && Content(child) == InitialContent(fs, cmd))
  {
  }

  /** One path after a creation. */
  lemma CreatedFileAt(fs: Fs, n: nat, cmd: Cmd, g: Fs, q: string)
    requires Tree(fs, n) && SoundFiles(fs) && Creates(fs, cmd, g) && Proper(q) && |fs.inodes| > 0 && |g.inodes| > 0
    ensures FileAt(g, q) == if cmd.MkFile? && q == cmd.path then Some(InitialContent(fs, cmd)) else FileAt(fs, q)
  {
    hide Tree, Walk, Lookup, Possible, Perform, Fresh, Child, InitialContent, FreeInode, Shaped;
    PossibleParts(fs, cmd);
    CreateStep(fs, n, cmd, g);
    CreatedInodes(fs, n, cmd, g);
    FirstUnused(fs, n);
    TreeShaped(fs, n);
    TreeShaped(g, Used(n, FreeInode(fs)));
    ChildSound(fs, FreeInode(fs), Walk(fs, Parents(cmd.path)).value, cmd);
    if Lookup(fs, q, FL).Some? {
      LookupUsed(fs, n, q, FL);
    }
  }

  /** A creation adds the new file with its contents and touches no other. */
  lemma CreateContents(fs: Fs, n: nat, cmd: Cmd, g: Fs)
    requires Tree(fs, n) && SoundFiles(fs) && Creates(fs, cmd, g)
    ensures Tree(g, Used(n, FreeInode(fs))) && (Distinct(fs) ==> Distinct(g)) && SoundFiles(g) && |fs.inodes| > 0 && |g.inodes| > 0
    ensures forall q :: Proper(q) ==>
      FileAt(g, q) == if cmd.MkFile? && q == cmd.path then Some(InitialContent(fs, cmd)) else FileAt(fs, q)
  {
    hide Tree, Distinct, Packed, Walk, Lookup, Possible, Perform, Fresh, Child, InitialContent, FileAt, FreeInode, Shaped;
    PossibleParts(fs, cmd);
    CreateStep(fs, n, cmd, g);
    CreatedInodes(fs, n, cmd, g);
    TreeShaped(fs, n);
    TreeShaped(g, Used(n, FreeInode(fs)));
    CreatedSound(fs, n, cmd, g);
    forall q | Proper(q)
      ensures FileAt(g, q) == if cmd.MkFile? && q == cmd.path then Some(InitialContent(fs, cmd)) else FileAt(fs, q)
    {
      CreatedFileAt(fs, n, cmd, g, q);
    }
  }

  lemma CreatedSound(fs: Fs, n: nat, cmd: Cmd, g: Fs)
    requires Tree(fs, n) && SoundFiles(fs) && Creates(fs, cmd, g)
    ensures SoundFiles(g)
  {
    hide Tree, Walk, Lookup, Possible, Perform, Fresh, Child, FreeInode, InitialContent;
    PossibleParts(fs, cmd);
    CreatedInodes(fs, n, cmd, g);
    FirstUnused(fs, n);
    ChildSound(fs, FreeInode(fs), Walk(fs, Parents(cmd.path)).value, cmd);
  }

  /** A file made without data is empty exactly when its inode was never used or held an empty file. */
  lemma EmptyExactly(fs: Fs, n: nat, path: string, g: Fs)
    requires Tree(fs, n) && SoundFiles(fs) && Creates(fs, MkFile(path, None), g) && Proper(path)
    ensures |g.inodes| > 0 && FreeInode(fs) < |fs.inodes|
    ensures FileAt(g, path) == Some([]) <==> fs.inodes[FreeInode(fs)].size == 0
  {
    hide Tree, Walk, Lookup, Possible, Perform, Fresh, FreeInode, FileAt;
    PossibleParts(fs, MkFile(path, None));
    FirstUnused(fs, n);
    CreatedInodes(fs, n, MkFile(path, None), g);
    CreateContents(fs, n, MkFile(path, None), g);
    assert Sound(fs.inodes[FreeInode(fs)]);
  }

  /** Behind the contents given to a new file come a zero byte and what the block held before: a gap shows them. */
  lemma GapOfNewFile(fs: Fs, c: nat, p: nat, path: string, content: seq<Byte>, h: Handle, buf: seq<Byte>)
    requires Shaped(fs) && c < NR_INODE && |content| < MAX_FILE_SZ
    requires NUL_BYTE !in content && h.inode == Child(fs, c, p, MkFile(path, Some(content)))
    requires |content| < h.offset && h.offset + |buf| < MAX_FILE_SZ
    ensures Sound(h.inode) && var w := HandleStep(h, WriteOp(buf)).0;
      Sound(w.inode) && Content(w.inode) == content + [0] + fs.inodes[c].data[|content| + 1..h.offset] + buf
  {
    WriteLeavesGap(h, buf);
    var d := content + [0] + fs.inodes[c].data[|content| + 1..];
    assert h.inode.data == d && h.inode.size == |content|;
    assert d[|content|..h.offset] == [0] + fs.inodes[c].data[|content| + 1..h.offset];
    assert Content(h.inode) == content;
  }

  // ---------------------------------------------------------------- writing

  lemma WrittenNames(fs: Fs, c: nat, i: Inode, p: nat, k: nat, x: nat)
    requires Shaped(fs) && c < NR_INODE && fs.inodes[c].kind == FL
    requires i == fs.inodes[c].(data := i.data, size := i.size) && |i.data| == MAX_FILE_SZ
    ensures var g := fs.(inodes := fs.inodes[c := i]); Shaped(g) && (Names(g, p, k, x) <==> Names(fs, p, k, x))
  {
  }

  lemma WrittenDirOk(fs: Fs, n: nat, c: nat, i: Inode, p: nat)
    requires Shaped(fs) && c < n <= NR_INODE && fs.inodes[c].kind == FL && p < n && DirOk(fs, n, p) && p != c
    requires i == fs.inodes[c].(data := i.data, size := i.size) && |i.data| == MAX_FILE_SZ
    ensures Shaped(fs.(inodes := fs.inodes[c := i])) && DirOk(fs.(inodes := fs.inodes[c := i]), n, p)
  {
    var g := fs.(inodes := fs.inodes[c := i]);
    hide Count;
    forall k | 2 <= k < NR_DIRDATA && g.inodes[p].entries[k].filename != ""
      ensures ChildOk(g, n, p, g.inodes[p].entries[k])
    {
      assert ChildOk(fs, n, p, fs.inodes[p].entries[k]);
    }
  }

  /** The tree is about names and types, not about data. */
  lemma WriteKeepsTree(fs: Fs, n: nat, c: nat, i: Inode)
    requires Tree(fs, n) && c < n && fs.inodes[c].kind == FL
    requires i == fs.inodes[c].(data := i.data, size := i.size) && |i.data| == MAX_FILE_SZ
    ensures Tree(fs.(inodes := fs.inodes[c := i]), n)
    ensures Distinct(fs) ==> Distinct(fs.(inodes := fs.inodes[c := i]))
  {
    hide DirOk, ChildOk, Count;
    var g := fs.(inodes := fs.inodes[c := i]);
    var rank := Ranks(fs, n);
    forall p: nat, k: nat, x: nat
      ensures Shaped(g) && (Names(g, p, k, x) <==> Names(fs, p, k, x))
    {
      WrittenNames(fs, c, i, p, k, x);
    }
    WrittenNames(fs, c, i, 0, 0, 0);
    assert Ranked(g, rank);
    hide Names, Ranked;
    forall p | 0 <= p < n && g.inodes[p].kind == DIR
      ensures DirOk(g, n, p)
    {
      WrittenDirOk(fs, n, c, i, p);
    }
    forall x | 0 < x < n && g.inuse[x]
      ensures Named(g, x)
    {
      assert Named(fs, x);
      var p: nat, k: nat :| Names(fs, p, k, x);
      assert Names(g, p, k, x);
    }
  }

  /** A write changes the contents at exactly one path. */
  lemma WriteContents(fs: Fs, n: nat, path: string, buf: seq<Byte>, off: nat, g: Fs)
    requires Tree(fs, n) && SoundFiles(fs) && WritesAt(fs, path, buf, off, g)
    ensures Tree(g, n) && (Distinct(fs) ==> Distinct(g)) && SoundFiles(g) && |fs.inodes| > 0 && |g.inodes| > 0
    ensures FileAt(fs, path).Some? && off <= |FileAt(fs, path).value|
    ensures forall q :: Proper(q) ==>
      FileAt(g, q) == if q == path then Some(Overwrite(FileAt(fs, path).value, buf, off)) else FileAt(fs, q)
  {
    hide Tree, Distinct, Lookup, Dirs, LastName;
    var c := Lookup(fs, path, FL).value;
    LookupUsed(fs, n, path, FL);
    WrittenContent(fs.inodes[c], buf, off);
    WriteKeepsTree(fs, n, c, Written(fs.inodes[c], buf, off));
    forall q | Proper(q)
      ensures FileAt(g, q) == if q == path then Some(Overwrite(FileAt(fs, path).value, buf, off)) else FileAt(fs, q)
    {
      WriteOnePath(fs, n, path, buf, off, q);
    }
  }

  // ---------------------------------------------------------------- removal

  /** Where names differ a removal takes one path away and changes no contents. */
  lemma RemoveContents(fs: Fs, n: nat, path: string, g: Fs)
    requires Tree(fs, n) && Distinct(fs) && SoundFiles(fs) && Removes(fs, path, g)
    ensures Tree(g, n) && Distinct(g) && SoundFiles(g) && |fs.inodes| > 0 && |g.inodes| > 0
    ensures forall q :: Proper(q) ==> FileAt(g, q) == if q == path then None else FileAt(fs, q)
  {
    hide Tree, Distinct, Lookup, Walk, Dirs, LastName, Copies;
    RemoveStep(fs, n, path);
    TreeShaped(fs, n);
    RemovedFiles(fs, n, path, g);
    DistinctOnce(fs, n, path, FL);
    hide WithoutFL;
    forall q | Proper(q)
      ensures FileAt(g, q) == if q == path then None else FileAt(fs, q)
    {
      LookupIsHead(fs, q, FL);
      LookupIsHead(g, q, FL);
    }
  }

  lemma RemovedFiles(fs: Fs, n: nat, path: string, g: Fs)
    requires Tree(fs, n) && Removes(fs, path, g)
    ensures |fs.inodes| == |g.inodes| == NR_INODE
    ensures forall i :: 0 <= i < NR_INODE ==>
      g.inodes[i].kind == fs.inodes[i].kind && (fs.inodes[i].kind != DIR ==> g.inodes[i] == fs.inodes[i])
  {
    hide Tree, Lookup, Walk, Dirs, LastName;
    TreeShaped(fs, n);
    var p, k, c := FoundEntry(fs, n, path);
    RemovedInodes(fs, p, k, c);
  }

  // ---------------------------------------------------------------- runs

  lemma NewHolds(fs: Fs)
    requires Formatted(fs)
    ensures Tree(fs, 1) && Holds(fs, NewStore())
  {
    FormattedTree(fs);
    EmptyRefines(fs);
  }

  lemma MakeHolds(fs: Fs, n: nat, cmd: Cmd, g: Fs, st: Store)
    requires Tree(fs, n) && Makes(fs, cmd, g) && Holds(fs, st)
    ensures Tree(g, Used(n, FreeInode(fs))) && Holds(g, After(st, fs, Change(cmd)))
  {
    hide Tree, Possible, Perform, Child, FreeInode, Refines, Walk, AfterCmd;
    MakesParts(fs, cmd, g);
    PossibleParts(fs, cmd);
    DoesKeeps(fs, n, cmd, g, st.paths);
    CreatedInodes(fs, n, cmd, g);
    ChildSound(fs, FreeInode(fs), Walk(fs, Parents(cmd.path)).value, cmd);
  }

  lemma RemoveHolds(fs: Fs, n: nat, cmd: Cmd, g: Fs, st: Store)
    requires Tree(fs, n) && cmd.RmFile? && Removes(fs, cmd.path, g) && Holds(fs, st)
    ensures Tree(g, n) && Holds(g, After(st, fs, Change(cmd)))
  {
    hide Tree, Removes, FreeInode, Refines, AfterCmd;
    DoesKeeps(fs, n, cmd, g, st.paths);
    RemovedFiles(fs, n, cmd.path, g);
  }

  lemma WriteHolds(fs: Fs, n: nat, path: string, buf: seq<Byte>, off: nat, g: Fs, st: Store)
    requires Tree(fs, n) && WritesAt(fs, path, buf, off, g) && Holds(fs, st)
    ensures Tree(g, n) && Holds(g, After(st, fs, WriteAt(path, buf, off)))
  {
    hide Tree, Distinct, Lookup, Copies, Dirs, LastName;
    var c := Lookup(fs, path, FL).value;
    LookupUsed(fs, n, path, FL);
    LookupIsHead(fs, path, FL);
    WrittenContent(fs.inodes[c], buf, off);
    WriteKeepsTree(fs, n, c, Written(fs.inodes[c], buf, off));
    forall q, kind | Proper(q)
      ensures Copies(g, q, kind) == Copies(fs, q, kind)
    {
      CopiesKept(fs, g, q, kind);
    }
  }

  lemma CopiesKept(fs: Fs, g: Fs, q: string, kind: FileType)
    requires |g.inodes| == |fs.inodes| > 0 && SLASH in q
    requires forall i :: 0 <= i < |fs.inodes| ==> g.inodes[i].kind == fs.inodes[i].kind && g.inodes[i].entries == fs.inodes[i].entries
    ensures Copies(g, q, kind) == Copies(fs, q, kind)
  {
    WalkKept(fs, g, Parents(q));
    match Walk(fs, Parents(q))
    case None =>
    case Some(p) => AllSame(fs, g, fs.inodes[p].entries, Base(q), kind);
  }

  lemma StepHolds(fs: Fs, n: nat, op: Op, g: Fs, st: Store)
    requires Tree(fs, n) && Performs(fs, op, g) && Holds(fs, st)
    ensures Tree(g, Next(fs, n, op)) && Holds(g, After(st, fs, op))
  {
    hide Tree, Makes, Removes, WritesAt, FreeInode, Holds, AfterCmd;
    match op
    case Change(cmd) =>
      if cmd.RmFile? {
        RemoveHolds(fs, n, cmd, g, st);
      } else {
        MakeHolds(fs, n, cmd, g, st);
      }
    case WriteAt(path, buf, off) => WriteHolds(fs, n, path, buf, off, g, st);
  }

  /** After any run of creations, writes and removals the file system is the store. */
  lemma {:induction false} RunHolds(tr: seq<Fs>, ops: seq<Op>, k: nat)
    requires ContentRun(tr, ops) && k <= |ops|
    ensures Tree(tr[k], Reached(tr, ops, k)) && Holds(tr[k], Stores(tr, ops, k))
  {
    hide Tree, Holds, Performs, After, Formatted;
    if k == 0 {
      NewHolds(tr[0]);
    } else {
      RunHolds(tr, ops, k - 1);
      StepHolds(tr[k - 1], Reached(tr, ops, k - 1), ops[k - 1], tr[k], Stores(tr, ops, k - 1));
    }
  }

  /** What is at each path: the contents the store has for it, and no file where it has none. */
  lemma RunContents(tr: seq<Fs>, ops: seq<Op>, k: nat, q: string)
    requires ContentRun(tr, ops) && k <= |ops| && Proper(q)
    ensures |tr[k].inodes| > 0 && FileAt(tr[k], q) == ContentsOf(Stores(tr, ops, k), q)
  {
    hide Tree, Performs, Stores, Formatted, Lookup, Copies, Dirs, LastName;
    RunHolds(tr, ops, k);
    LookupIsHead(tr[k], q, FL);
  }
}
