/** Runs of makeDir, makeFL and rmFL from a new file system, against a map from paths to inodes. */
module FsRuns {
  import opened Seqs
  import opened Paths
  import opened FsModel
  import opened FsTree
  import opened FsGrowth
  import opened FsPaths
  import opened FsRemoval
  import opened FsScan

  datatype Cmd = MkDir(path: string) | MkFile(path: string, content: Option<seq<Byte>>) | RmFile(path: string)

  function KindOf(cmd: Cmd): FileType {
    if cmd.MkDir? then DIR else FL
  }

  function StoredName(path: string, kind: FileType): string {
    if kind == DIR then WithSlash(LastLevelName(path)) else LastLevelName(path)
  }

  /** The contents given to a new file are a string: they fit the block and hold no zero byte. */
  predicate ContentFits(cmd: Cmd) {
    cmd.MkFile? && cmd.content.Some? ==> |cmd.content.value| < MAX_FILE_SZ && NUL_BYTE !in cmd.content.value
  }

  function Perform(fs: Fs, cmd: Cmd): Outcome
    requires Shaped(fs) && SLASH in cmd.path && ContentFits(cmd) && !cmd.RmFile?
  {
    match cmd
    case MkDir(path) => MakeDir(fs, path)
    case MkFile(path, content) => MakeFL(fs, path, content)
  }

  /**
   A free inode, a parent with room, and a name that fits; nothing about whether the name is taken.  A
   directory is only made where no bytes of an old file would show through as entries.
   */
  ghost predicate Possible(fs: Fs, cmd: Cmd) {
    && Shaped(fs) && FreeInode(fs) < NR_INODE && !cmd.RmFile? && Absolute(cmd.path) && ContentFits(cmd)
    && NameOk(StoredName(cmd.path, KindOf(cmd)), KindOf(cmd))
    && Walk(fs, Parents(cmd.path)).Some?
    && FreeSlot(fs.inodes[Walk(fs, Parents(cmd.path)).value].entries) < NR_DIRDATA
    && (cmd.MkDir? ==> CleanBlock(fs.inodes[FreeInode(fs)]))
  }

  ghost predicate Fresh(fs: Fs, cmd: Cmd)
    requires |fs.inodes| > 0 && Absolute(cmd.path)
  {
    Lookup(fs, Stored(cmd.path, KindOf(cmd)), KindOf(cmd)).None?
  }

  function Child(fs: Fs, c: nat, p: nat, cmd: Cmd): Inode
    requires Shaped(fs) && c < NR_INODE && ContentFits(cmd) && !cmd.RmFile?
  {
    var name := StoredName(cmd.path, KindOf(cmd));
    match cmd
    case MkDir(path) => AsDir(fs.inodes[c], c, p, name)
    case MkFile(path, content) => AsFile(fs.inodes[c], name, content)
  }

  lemma FirstUnused(fs: Fs, n: nat)
    requires Tree(fs, n)
    ensures FreeInode(fs) <= n && (FreeInode(fs) < NR_INODE ==> !fs.inuse[FreeInode(fs)])
    ensures FreeInode(fs) < n ==> fs.inodes[FreeInode(fs)].kind == FL
    ensures FreeInode(fs) == n < NR_INODE ==> Blank(fs.inodes[n])
  {
    var c := FreeInode(fs);
    assert n < NR_INODE ==> !fs.inuse[n];
    assert c < n && fs.inodes[c].kind == DIR ==> DirOk(fs, n, c);
  }

  lemma ParentFound(fs: Fs, n: nat, cmd: Cmd)
    requires Tree(fs, n) && Possible(fs, cmd)
    ensures var p := Walk(fs, Parents(cmd.path)).value; p < n && fs.inodes[p].kind == DIR
  {
    hide Tree, Walk, FreeSlot, FreeInode, Dirs, LastName, IsLastLevel, FirstSlash, NameOk;
    ProperParts(cmd.path, cmd.path);
    WalkIn(fs, n, Parents(cmd.path));
  }

  lemma ChildKind(fs: Fs, c: nat, p: nat, cmd: Cmd)
    requires Shaped(fs) && c < NR_INODE && ContentFits(cmd) && !cmd.RmFile?
    ensures var child := Child(fs, c, p, cmd);
      && child.kind == KindOf(cmd) && child.filename == StoredName(cmd.path, KindOf(cmd))
      && |child.entries| == NR_DIRDATA && |child.data| == MAX_FILE_SZ
    ensures cmd.MkDir? && CleanBlock(fs.inodes[c]) ==> EmptyDir(Child(fs, c, p, cmd), c, p)
  {
    EmptyExactlyClean(fs.inodes[c], c, p, StoredName(cmd.path, KindOf(cmd)));
    hide Overlay, CleanBlock, EmptyDir;
  }

  /** A possible command makes the first free inode a child of the directory its path leads to. */
  lemma PerformMakes(fs: Fs, n: nat, cmd: Cmd)
    requires Tree(fs, n) && Possible(fs, cmd)
    ensures var c, p, name := FreeInode(fs), Walk(fs, Parents(cmd.path)).value, StoredName(cmd.path, KindOf(cmd));
      && Room(fs, n, c, p, name, Child(fs, c, p, cmd)) && Child(fs, c, p, cmd).kind == KindOf(cmd)
      && Perform(fs, cmd) == Made(Grown(fs, c, p, name, Child(fs, c, p, cmd)))
      && LeadsTo(fs, p, name, Stored(cmd.path, KindOf(cmd)))
  {
    hide Tree, Walk, FreeSlot, FreeInode, Adopt, Dirs, LastName, LastLevelName, Child, NameOk, Blank, CleanBlock, EmptyDir;
    TreeShaped(fs, n);
    ParentFound(fs, n, cmd);
    FirstUnused(fs, n);
    StoredParts(cmd.path, KindOf(cmd));
    var c, p := FreeInode(fs), Walk(fs, Parents(cmd.path)).value;
    ChildKind(fs, c, p, cmd);
    PerformIs(fs, cmd);
  }

  lemma PerformIs(fs: Fs, cmd: Cmd)
    requires Possible(fs, cmd)
    ensures var c, p, name := FreeInode(fs), Walk(fs, Parents(cmd.path)).value, StoredName(cmd.path, KindOf(cmd));
      p < NR_INODE && Perform(fs, cmd) == Made(Grown(fs, c, p, name, Child(fs, c, p, cmd)))
  {
    hide Walk, FreeSlot, FreeInode, Adopt, Dirs, LastName, LastLevelName;
  }

  // ---------------------------------------------------------------- one creation

  ghost predicate Makes(fs: Fs, cmd: Cmd, g: Fs) {
    Possible(fs, cmd) && Perform(fs, cmd) == Made(g)
  }

  ghost predicate Creates(fs: Fs, cmd: Cmd, g: Fs) {
    Possible(fs, cmd) && Fresh(fs, cmd) && Perform(fs, cmd) == Made(g)
  }

  /** How many entries of the parent directory have this name and type and stand where the new one comes behind them. */
  function Front(fs: Fs, cmd: Cmd): nat
    requires |fs.inodes| > 0 && SLASH in cmd.path && Walk(fs, Parents(cmd.path)).Some?
  {
    Before(fs, Walk(fs, Parents(cmd.path)).value, StoredName(cmd.path, KindOf(cmd)), KindOf(cmd))
  }

  /** The inodes of path q after a creation, from those before it. */
  function Joined(fs: Fs, cmd: Cmd, q: string, kind: FileType): seq<nat>
    requires |fs.inodes| > 0 && SLASH in cmd.path && Walk(fs, Parents(cmd.path)).Some? && SLASH in q
    requires SLASH in Stored(cmd.path, KindOf(cmd)) && Front(fs, cmd) <= |Copies(fs, Stored(cmd.path, KindOf(cmd)), KindOf(cmd))|
  {
    var path, c, p := Stored(cmd.path, KindOf(cmd)), FreeInode(fs), Walk(fs, Parents(cmd.path)).value;
    if kind == KindOf(cmd) && q == path then Insert(Copies(fs, path, kind), Front(fs, cmd), c)
    else if cmd.MkDir? && Front(fs, cmd) == 0 && Below(path, q) then Dots(path, q, kind, c, p)
    else Copies(fs, q, kind)
  }

  lemma PossibleParts(fs: Fs, cmd: Cmd)
    requires Possible(fs, cmd)
    ensures Absolute(cmd.path) && Absolute(Stored(cmd.path, KindOf(cmd))) && Shaped(fs)
    ensures ContentFits(cmd) && !cmd.RmFile? && FreeInode(fs) < NR_INODE && Walk(fs, Parents(cmd.path)).Some?
  {
  }

  /**
   One creation, whether or not the name is taken: the tree stays a tree, the new inode joins those of its
   path where the first empty entry stands, and a directory that comes first hides what was below.
   */
  lemma MakeStep(fs: Fs, n: nat, cmd: Cmd, g: Fs)
    requires Tree(fs, n) && Makes(fs, cmd, g)
    ensures Tree(g, Used(n, FreeInode(fs))) && (Packed(fs) ==> Packed(g))
    ensures Absolute(cmd.path) && Absolute(Stored(cmd.path, KindOf(cmd))) && |fs.inodes| > 0 && |g.inodes| > 0
    ensures Walk(fs, Parents(cmd.path)).Some? && Front(fs, cmd) <= |Copies(fs, Stored(cmd.path, KindOf(cmd)), KindOf(cmd))|
    ensures forall q, kind :: Absolute(q) ==> Copies(g, q, kind) == Joined(fs, cmd, q, kind)
  {
    hide Tree, Packed, Perform, Room, NameOk, Walk, Copies, Grown, FreeSlot, FreeInode, Child, Possible, Before;
    PossibleParts(fs, cmd);
    PerformMakes(fs, n, cmd);
    var c, p, name, path := FreeInode(fs), Walk(fs, Parents(cmd.path)).value, StoredName(cmd.path, KindOf(cmd)), Stored(cmd.path, KindOf(cmd));
    var child := Child(fs, c, p, cmd);
    GrownTree(fs, n, c, p, name, child);
    if Packed(fs) {
      GrownPacked(fs, n, c, p, name, child);
    }
    TreeShaped(g, Used(n, c));
    CopiesGrown(fs, n, c, p, name, child, path, path, KindOf(cmd));
    forall q, kind | Absolute(q)
      ensures Copies(g, q, kind) == Joined(fs, cmd, q, kind)
    {
      CopiesGrown(fs, n, c, p, name, child, path, q, kind);
    }
  }

  lemma CountBehind(es: seq<DirEntry>, k: nat)
    requires 2 <= k < |es| && es[0].filename != "" && es[1].filename != "" && es[k].filename != ""
    ensures Count(es) > 2
  {
    hide Count;
    CountZero(es);
    CountNext(es, 0);
    CountNext(es, 1);
    CountMonotone(es, 2);
  }

  lemma MadeNeeds(fs: Fs, path: string, g: Fs)
    requires Shaped(fs) && SLASH in path && Perform(fs, MkDir(path)) == Made(g)
    ensures FreeInode(fs) < NR_INODE && Walk(fs, Parents(path)).Some?
    ensures FreeSlot(fs.inodes[Walk(fs, Parents(path)).value].entries) < NR_DIRDATA
    ensures var c, p, name := FreeInode(fs), Walk(fs, Parents(path)).value, WithSlash(LastLevelName(path));
      c < |g.inodes| && c < |g.inuse| && g.inodes[c] == AsDir(fs.inodes[c], c, p, name) && g.inuse[c]
  {
    hide Walk, Dirs, LastName, LastLevelName, AsDir;
  }

  /** Where old bytes show through as entries, filenum of the new directory is too small for them. */
  lemma OldEntries(fs: Fs, path: string, g: Fs, m: nat)
    requires Shaped(fs) && SLASH in path && Perform(fs, MkDir(path)) == Made(g) && Tree(g, m)
    ensures FreeInode(fs) < NR_INODE && CleanBlock(fs.inodes[FreeInode(fs)])
  {
    hide Walk, FreeSlot, FreeInode, Dirs, LastName, LastLevelName, CleanBlock, Overlay, Count, NameOk, Perform;
    MadeNeeds(fs, path, g);
    var c, p, name := FreeInode(fs), Walk(fs, Parents(path)).value, WithSlash(LastLevelName(path));
    var d := AsDir(fs.inodes[c], c, p, name);
    assert DirOk(g, m, c);
    EmptyExactlyClean(fs.inodes[c], c, p, name);
    if !EmptyDir(d, c, p) {
      var k :| 2 <= k < NR_DIRDATA && d.entries[k].filename != "";
      CountBehind(d.entries, k);
    }
  }

  /** The tree survives makeDir exactly when the block taken shows no old bytes as entries. */
  lemma TreeIffClean(fs: Fs, n: nat, path: string, g: Fs)
    requires Tree(fs, n) && Absolute(path) && NameOk(StoredName(path, DIR), DIR) && Perform(fs, MkDir(path)) == Made(g)
    ensures FreeInode(fs) < NR_INODE && ((exists m :: Tree(g, m)) <==> CleanBlock(fs.inodes[FreeInode(fs)]))
  {
    hide Tree, FreeInode, FreeSlot, Walk, Dirs, LastName, LastLevelName, CleanBlock, NameOk, Copies, Front, Perform;
    TreeShaped(fs, n);
    MadeNeeds(fs, path, g);
    if m :| Tree(g, m) {
      OldEntries(fs, path, g, m);
    }
    if CleanBlock(fs.inodes[FreeInode(fs)]) {
      MakeStep(fs, n, MkDir(path), g);
    }
  }

  /** Under a fresh name the names in each directory stay different. */
  lemma FreshDistinct(fs: Fs, n: nat, cmd: Cmd, g: Fs)
    requires Tree(fs, n) && Creates(fs, cmd, g) && Distinct(fs)
    ensures Distinct(g)
  {
    hide Tree, Distinct, Perform, Room, NameOk, Walk, FindIn, Grown, FreeSlot, FreeInode, Child, Possible;
    PossibleParts(fs, cmd);
    PerformMakes(fs, n, cmd);
    var c, p, name := FreeInode(fs), Walk(fs, Parents(cmd.path)).value, StoredName(cmd.path, KindOf(cmd));
    GrownDistinct(fs, n, c, p, name, Child(fs, c, p, cmd));
  }

  lemma {:induction false} WalkStops(fs: Fs, ds: seq<string>, more: seq<string>)
    requires |fs.inodes| > 0 && Walk(fs, ds).None?
    ensures Walk(fs, ds + more).None?
  {
    if more == [] {
      assert ds + more == ds;
    } else {
      assert (ds + more)[..|ds + more| - 1] == ds + more[..|more| - 1];
      WalkStops(fs, ds, more[..|more| - 1]);
    }
  }

  /** Below a directory that is not there, there is nothing. */
  lemma NothingBelow(fs: Fs, path: string, q: string, kind: FileType)
    requires |fs.inodes| > 0 && Absolute(path) && IsDirName(Base(path)) && Lookup(fs, path, DIR).None?
    requires Below(path, q)
    ensures Absolute(q) && Copies(fs, q, kind) == []
  {
    hide Dirs, LastName, FirstSlash, IsLastLevel, Find;
    EndsInSlash(path);
    var x := q[|path|..];
    assert q == path + x;
    BelowParts(path, x);
    var ds := Parents(path) + [Base(path)];
    assert ds[..|ds| - 1] == Parents(path) && ds[|ds| - 1] == Base(path);
    WalkStops(fs, ds, Dirs(x));
  }

  /** One creation of a fresh name: the tree grows by one node, and lookups by one path and its dots. */
  lemma CreateStep(fs: Fs, n: nat, cmd: Cmd, g: Fs)
    requires Tree(fs, n) && Creates(fs, cmd, g)
    ensures Tree(g, Used(n, FreeInode(fs))) && (Distinct(fs) ==> Distinct(g)) && (Packed(fs) ==> Packed(g))
    ensures forall q, kind :: Absolute(q) ==>
      Lookup(g, q, kind) ==
      var path := Stored(cmd.path, KindOf(cmd));
      if kind == KindOf(cmd) && q == path then Some(FreeInode(fs))
      else if kind == DIR == KindOf(cmd) && q == path + "." then Some(FreeInode(fs))
      else if kind == DIR == KindOf(cmd) && q == path + ".." then Walk(fs, Parents(cmd.path))
      else Lookup(fs, q, kind)
  {
    hide Tree, Distinct, Packed, Perform, Walk, Lookup, FreeInode, Possible, Copies, Front;
    MakeStep(fs, n, cmd, g);
    if Distinct(fs) {
      FreshDistinct(fs, n, cmd, g);
    }
    forall q, kind | Absolute(q)
      ensures Lookup(g, q, kind) ==
        var path := Stored(cmd.path, KindOf(cmd));
        if kind == KindOf(cmd) && q == path then Some(FreeInode(fs))
        else if kind == DIR == KindOf(cmd) && q == path + "." then Some(FreeInode(fs))
        else if kind == DIR == KindOf(cmd) && q == path + ".." then Walk(fs, Parents(cmd.path))
        else Lookup(fs, q, kind)
    {
      FreshLookup(fs, cmd, g, q, kind);
    }
  }

  lemma FreshLookup(fs: Fs, cmd: Cmd, g: Fs, q: string, kind: FileType)
    requires Possible(fs, cmd) && Fresh(fs, cmd) && |g.inodes| > 0 && Absolute(q)
    requires Front(fs, cmd) <= |Copies(fs, Stored(cmd.path, KindOf(cmd)), KindOf(cmd))|
    requires Copies(g, q, kind) == Joined(fs, cmd, q, kind)
    ensures Lookup(g, q, kind) ==
      var path := Stored(cmd.path, KindOf(cmd));
      if kind == KindOf(cmd) && q == path then Some(FreeInode(fs))
      else if kind == DIR == KindOf(cmd) && q == path + "." then Some(FreeInode(fs))
      else if kind == DIR == KindOf(cmd) && q == path + ".." then Walk(fs, Parents(cmd.path))
      else Lookup(fs, q, kind)
  {
    var path := Stored(cmd.path, KindOf(cmd));
    StoredIsDir(fs, cmd);
    hide Possible, Lookup, Copies, Walk, FreeInode, Front, IsDirName, IsLastLevel, Dirs, LastName, Below, Stored;
    LookupIsHead(fs, path, KindOf(cmd));
    LookupIsHead(fs, q, kind);
    LookupIsHead(g, q, kind);
    if cmd.MkDir? && Below(path, q) {
      NothingBelow(fs, path, q, kind);
    }
    DotsBelow(path);
  }

  lemma DotsBelow(path: string)
    ensures Below(path, path + ".") && Below(path, path + "..") && !Below(path, path)
  {
  }

  lemma StoredIsDir(fs: Fs, cmd: Cmd)
    requires Possible(fs, cmd)
    ensures Absolute(Stored(cmd.path, KindOf(cmd))) && !cmd.RmFile?
    ensures cmd.MkDir? ==> IsDirName(Base(Stored(cmd.path, DIR)))
  {
    hide Walk, FreeSlot, FreeInode, Dirs, LastName, LastLevelName;
    StoredParts(cmd.path, KindOf(cmd));
  }

  /** The inodes after a creation: the new one, its parent, and the others as they were. */
  lemma CreatedInodes(fs: Fs, n: nat, cmd: Cmd, g: Fs)
    requires Tree(fs, n) && Possible(fs, cmd) && Perform(fs, cmd) == Made(g)
    ensures Shaped(fs) && Shaped(g) && Walk(fs, Parents(cmd.path)).Some?
    ensures var c, p := FreeInode(fs), Walk(fs, Parents(cmd.path)).value;
      && p < NR_INODE && p != c && fs.inodes[p].kind == DIR && g.inodes[p].kind == DIR && g.inodes[p].size == fs.inodes[p].size + 1
      && Count(g.inodes[p].entries) == Count(fs.inodes[p].entries) + 1
      && g.inodes[c] == Child(fs, c, p, cmd) && fs.inodes[c].kind != DIR
      && forall i :: 0 <= i < NR_INODE && i != p && i != c ==> g.inodes[i] == fs.inodes[i]
  {
    hide Perform, Walk, LeadsTo, Lookup, FreeInode, FreeSlot, Tree, Grown, Count, Child;
    TreeShaped(fs, n);
    PerformMakes(fs, n, cmd);
    FirstUnused(fs, n);
    var c, p, name := FreeInode(fs), Walk(fs, Parents(cmd.path)).value, StoredName(cmd.path, KindOf(cmd));
    GrownEntries(fs, n, c, p, name, Child(fs, c, p, cmd));
    CountFilled(fs.inodes[p].entries, FreeSlot(fs.inodes[p].entries), DirEntry(c, name));
  }

  // ---------------------------------------------------------------- runs

  ghost predicate Removes(fs: Fs, path: string, g: Fs) {
    Proper(path) && CanRemove(fs, path) && g == WithoutFL(fs, path)
  }

  ghost predicate Does(fs: Fs, cmd: Cmd, g: Fs) {
    if cmd.RmFile? then Removes(fs, cmd.path, g) else Makes(fs, cmd, g)
  }

  /** Any sequence of creations, of names taken or not, and of removals of files, on a new file system. */
  ghost predicate Run(tr: seq<Fs>, cmds: seq<Cmd>) {
    && |tr| == |cmds| + 1 && Formatted(tr[0])
    && forall i :: 0 <= i < |cmds| ==> Does(tr[i], cmds[i], tr[i + 1])
  }

  /** Inodes that have ever been used after k commands. */
  ghost function EverUsed(tr: seq<Fs>, cmds: seq<Cmd>, k: nat): nat
    requires k <= |cmds| <= |tr|
  {
    if k == 0 then 1
    else if cmds[k - 1].RmFile? then EverUsed(tr, cmds, k - 1)
    else Used(EverUsed(tr, cmds, k - 1), FreeInode(tr[k - 1]))
  }

  /** The simple file system: each path and type stands for a sequence of inodes, of which the first counts. */
  type PathMap = map<(string, FileType), seq<nat>>

  function At(m: PathMap, q: string, kind: FileType): seq<nat> {
    if (q, kind) in m then m[(q, kind)] else []
  }

  /** The inode table answers for every path as the map does. */
  ghost predicate Refines(fs: Fs, m: PathMap) {
    |fs.inodes| > 0 && forall q, kind :: Proper(q) ==> Copies(fs, q, kind) == At(m, q, kind)
  }

  /** A new inode comes at the given place, and a directory that comes first hides all paths below it. */
  function AfterMake(m: PathMap, path: string, kind: FileType, place: nat, c: nat): PathMap {
    var kept := if kind == DIR && place == 0 then map key | key in m && !Below(path, key.0) :: m[key] else m;
    if place <= |At(m, path, kind)| then kept[(path, kind) := Insert(At(m, path, kind), place, c)] else kept
  }

  function AfterCmd(m: PathMap, fs: Fs, cmd: Cmd): PathMap {
    if cmd.RmFile? then
      if At(m, cmd.path, FL) != [] then m[(cmd.path, FL) := At(m, cmd.path, FL)[1..]] else m
    else if |fs.inodes| > 0 && SLASH in cmd.path && Walk(fs, Parents(cmd.path)).Some? then
      AfterMake(m, Stored(cmd.path, KindOf(cmd)), KindOf(cmd), Front(fs, cmd), FreeInode(fs))
    else m
  }

  ghost function MapOf(tr: seq<Fs>, cmds: seq<Cmd>, k: nat): PathMap
    requires k <= |cmds| <= |tr|
  {
    if k == 0 then map[] else AfterCmd(MapOf(tr, cmds, k - 1), tr[k - 1], cmds[k - 1])
  }

  lemma EmptyLookup(fs: Fs, q: string, kind: FileType)
    requires Tree(fs, 1) && Proper(q)
    ensures |fs.inodes| > 0 && Lookup(fs, q, kind) == None
  {
    ProperParts(q, q);
    if Lookup(fs, q, kind).Some? {
      WalkIn(fs, 1, Parents(q));
      var k := FindMeans(fs, 1, Walk(fs, Parents(q)).value, Base(q), kind);
    }
  }

  lemma EmptyRefines(fs: Fs)
    requires Tree(fs, 1)
    ensures Refines(fs, map[])
  {
    TreeShaped(fs, 1);
    hide Tree, Lookup, Copies;
    forall q, kind | Proper(q)
      ensures Copies(fs, q, kind) == []
    {
      EmptyLookup(fs, q, kind);
      LookupIsHead(fs, q, kind);
    }
  }

  lemma DoesKeeps(fs: Fs, n: nat, cmd: Cmd, g: Fs, m: PathMap)
    requires Tree(fs, n) && Does(fs, cmd, g) && Refines(fs, m)
    ensures Tree(g, if cmd.RmFile? then n else Used(n, FreeInode(fs)))
    ensures Packed(fs) && !cmd.RmFile? ==> Packed(g)
    ensures Refines(g, AfterCmd(m, fs, cmd))
  {
    hide Tree, Packed, Lookup, FreeInode, Walk, Possible, Perform, WithoutFL, Copies, Front, Dirs, LastName;
    if cmd.RmFile? {
      RemoveStep(fs, n, cmd.path);
    } else {
      MakeStep(fs, n, cmd, g);
      MadeRefines(fs, n, cmd, g, m);
    }
  }

  lemma MadeRefines(fs: Fs, n: nat, cmd: Cmd, g: Fs, m: PathMap)
    requires Tree(fs, n) && Makes(fs, cmd, g) && Refines(fs, m)
    ensures Refines(g, AfterCmd(m, fs, cmd))
  {
    hide Tree, Packed, Lookup, FreeInode, Walk, Possible, Perform, Copies, Front, Dirs, LastName, Stored;
    MakeStep(fs, n, cmd, g);
    StoredProper(fs, cmd);
    forall q, kind | Proper(q)
      ensures Copies(g, q, kind) == At(AfterCmd(m, fs, cmd), q, kind)
    {
      if cmd.MkDir? {
        NotDots(fs, cmd, q);
      }
    }
  }

  /** After any run the table is a tree, and answers for every path like the map. */
  lemma {:induction false} RunRefines(tr: seq<Fs>, cmds: seq<Cmd>, k: nat)
    requires Run(tr, cmds) && k <= |cmds|
    ensures Tree(tr[k], EverUsed(tr, cmds, k)) && Refines(tr[k], MapOf(tr, cmds, k))
    ensures (forall i :: 0 <= i < k ==> !cmds[i].RmFile?) ==> Packed(tr[k])
  {
    hide Tree, Packed, Does, Refines, AfterCmd;
    if k == 0 {
      FormattedTree(tr[0]);
      EmptyRefines(tr[0]);
    } else {
      RunRefines(tr, cmds, k - 1);
      DoesKeeps(tr[k - 1], EverUsed(tr, cmds, k - 1), cmds[k - 1], tr[k], MapOf(tr, cmds, k - 1));
    }
  }

  /** What a lookup finds after any run: the first inode the map has for the path. */
  lemma RunLookup(tr: seq<Fs>, cmds: seq<Cmd>, k: nat, q: string, kind: FileType)
    requires Run(tr, cmds) && k <= |cmds| && Proper(q)
    ensures |tr[k].inodes| > 0 && Lookup(tr[k], q, kind) == Head(At(MapOf(tr, cmds, k), q, kind))
  {
    hide Tree, Does, Lookup, Copies, MapOf, Dirs, LastName;
    RunRefines(tr, cmds, k);
    LookupIsHead(tr[k], q, kind);
  }

  /** The run only makes what is not there yet. */
  ghost predicate AllFresh(tr: seq<Fs>, cmds: seq<Cmd>, k: nat)
    requires k <= |cmds| < |tr|
  {
    forall i :: 0 <= i < k && !cmds[i].RmFile? ==> Creates(tr[i], cmds[i], tr[i + 1])
  }

  /** Then names differ in each directory, and a path stands for one inode at most. */
  lemma {:induction false} FreshRun(tr: seq<Fs>, cmds: seq<Cmd>, k: nat, q: string, kind: FileType)
    requires Run(tr, cmds) && k <= |cmds| && AllFresh(tr, cmds, k) && Proper(q)
    ensures Distinct(tr[k]) && |At(MapOf(tr, cmds, k), q, kind)| <= 1
  {
    hide Tree, Distinct, Creates, Removes, Makes, Copies, Formatted, MapOf, Dirs, LastName;
    RunRefines(tr, cmds, k);
    if k == 0 {
      FormattedTree(tr[0]);
    } else {
      FreshRun(tr, cmds, k - 1, q, kind);
      RunRefines(tr, cmds, k - 1);
      assert Does(tr[k - 1], cmds[k - 1], tr[k]);
      if cmds[k - 1].RmFile? {
        RemovesDistinct(tr[k - 1], EverUsed(tr, cmds, k - 1), cmds[k - 1].path, tr[k]);
      } else {
        assert Creates(tr[k - 1], cmds[k - 1], tr[k]);
        FreshDistinct(tr[k - 1], EverUsed(tr, cmds, k - 1), cmds[k - 1], tr[k]);
      }
    }
    DistinctOnce(tr[k], EverUsed(tr, cmds, k), q, kind);
  }

  lemma RemovesDistinct(fs: Fs, n: nat, path: string, g: Fs)
    requires Tree(fs, n) && Distinct(fs) && Removes(fs, path, g)
    ensures Distinct(g)
  {
    hide Tree, Distinct, WithoutFL, Copies;
    RemoveStep(fs, n, path);
  }

  // ---------------------------------------------------------------- filenum

  /** Command i removed a file from directory p. */
  ghost predicate TakesFrom(tr: seq<Fs>, cmds: seq<Cmd>, p: nat, i: nat)
    requires i < |cmds| <= |tr|
  {
    cmds[i].RmFile? && |tr[i].inodes| > 0 && SLASH in cmds[i].path && Walk(tr[i], Parents(cmds[i].path)) == Some(p)
  }

  ghost function Taken(tr: seq<Fs>, cmds: seq<Cmd>, p: nat, k: nat): nat
    requires k <= |cmds| <= |tr|
  {
    if k == 0 then 0 else Taken(tr, cmds, p, k - 1) + if TakesFrom(tr, cmds, p, k - 1) then 1 else 0
  }

  /** How far filenum of p is ahead of its entries in use; a file has no filenum. */
  ghost predicate Ahead(fs: Fs, p: nat, lead: nat) {
    && Shaped(fs) && p < NR_INODE
    && if fs.inodes[p].kind == DIR then fs.inodes[p].size == Count(fs.inodes[p].entries) + lead else lead == 0
  }

  lemma FormattedAhead(fs: Fs, p: nat)
    requires Formatted(fs) && p < NR_INODE
    ensures Ahead(fs, p, 0)
  {
    CountPrefix(fs.inodes[0].entries, 2);
  }

  lemma CreateAhead(fs: Fs, n: nat, cmd: Cmd, g: Fs, p: nat, lead: nat)
    requires Tree(fs, n) && Makes(fs, cmd, g) && Ahead(fs, p, lead)
    ensures Ahead(g, p, lead)
  {
    hide Tree, Perform, Walk, FreeInode, Count, Possible, Shaped, Child;
    PossibleParts(fs, cmd);
    CreatedInodes(fs, n, cmd, g);
    if p == FreeInode(fs) {
      NewAhead(fs, n, cmd);
    }
  }

  lemma NewAhead(fs: Fs, n: nat, cmd: Cmd)
    requires Tree(fs, n) && Possible(fs, cmd)
    ensures var c, p := FreeInode(fs), Walk(fs, Parents(cmd.path)).value; var d := Child(fs, c, p, cmd);
      d.kind == DIR ==> d.size == Count(d.entries)
  {
    hide Tree, Walk, FreeSlot, Grown, Count, Child, FreeInode, Perform, EmptyDir, NameOk, LeadsTo;
    PerformMakes(fs, n, cmd);
    var c, p := FreeInode(fs), Walk(fs, Parents(cmd.path)).value;
    if Child(fs, c, p, cmd).kind == DIR {
      EmptyCounts(Child(fs, c, p, cmd), c, p);
    }
  }

  lemma EmptyCounts(d: Inode, c: nat, p: nat)
    requires EmptyDir(d, c, p)
    ensures d.size == Count(d.entries)
  {
    CountPrefix(d.entries, 2);
  }

  lemma RemoveAhead(fs: Fs, n: nat, path: string, g: Fs, p: nat, lead: nat)
    requires Tree(fs, n) && Removes(fs, path, g) && Ahead(fs, p, lead)
    ensures Ahead(g, p, lead + if Walk(fs, Parents(path)) == Some(p) then 1 else 0)
  {
    hide Tree, Walk, Lookup, Count, WithoutFL, Copies, Dirs, LastName;
    RemoveStep(fs, n, path);
    TreeShaped(g, n);
    RemovedCounts(fs, n, path, p);
  }

  /** filenum of a directory is ahead of its entries by exactly the number of files removed from it. */
  lemma {:induction false} RunAhead(tr: seq<Fs>, cmds: seq<Cmd>, k: nat, p: nat)
    requires Run(tr, cmds) && k <= |cmds| && p < NR_INODE
    ensures Ahead(tr[k], p, Taken(tr, cmds, p, k))
  {
    hide Tree, Ahead, Makes, Removes, Formatted, Refines, MapOf, Packed, EverUsed;
    if k == 0 {
      FormattedAhead(tr[0], p);
    } else {
      RunAhead(tr, cmds, k - 1, p);
      RunRefines(tr, cmds, k - 1);
      assert Does(tr[k - 1], cmds[k - 1], tr[k]);
      var n := EverUsed(tr, cmds, k - 1);
      TreeShaped(tr[k - 1], n);
      if cmds[k - 1].RmFile? {
        assert SLASH in cmds[k - 1].path by { RemovesParts(tr[k - 1], cmds[k - 1].path, tr[k]); }
        RemoveAhead(tr[k - 1], n, cmds[k - 1].path, tr[k], p, Taken(tr, cmds, p, k - 1));
      } else {
        CreateAhead(tr[k - 1], n, cmds[k - 1], tr[k], p, Taken(tr, cmds, p, k - 1));
      }
    }
  }

  lemma RemovesParts(fs: Fs, path: string, g: Fs)
    requires Removes(fs, path, g)
    ensures SLASH in path
  {
  }

  lemma {:induction false} TakenSome(tr: seq<Fs>, cmds: seq<Cmd>, p: nat, k: nat)
    requires k <= |cmds| <= |tr|
    ensures Taken(tr, cmds, p, k) > 0 <==> exists i :: 0 <= i < k && TakesFrom(tr, cmds, p, i)
  {
    hide TakesFrom;
    if k > 0 {
      TakenSome(tr, cmds, p, k - 1);
    }
  }

  /**
   After any run, a search of a directory for a name that is not there reads behind the entry table
   exactly when a file has ever been removed from that directory.
   */
  lemma MissOverruns(tr: seq<Fs>, cmds: seq<Cmd>, k: nat, p: nat, name: string, kind: FileType)
    requires Run(tr, cmds) && k <= |cmds| && p < NR_INODE && |tr[k].inodes| == NR_INODE && tr[k].inodes[p].kind == DIR
    requires FindIn(tr[k], p, name, kind).None?
    ensures ScanIn(tr[k], p, name, kind) == Overrun <==> exists i :: 0 <= i < k && TakesFrom(tr, cmds, p, i)
  {
    hide Count, FindIn, ScanIn, Formatted, Does;
    RunAhead(tr, cmds, k, p);
    TakenSome(tr, cmds, p, k);
    ScanExactly(tr[k], p, name, kind);
  }

  lemma StoredProper(fs: Fs, cmd: Cmd)
    requires Possible(fs, cmd)
    ensures Proper(Stored(cmd.path, KindOf(cmd))) && !cmd.RmFile?
  {
    hide Walk, FreeSlot, FreeInode, Dirs, LastName, LastLevelName;
    StoredParts(cmd.path, KindOf(cmd));
  }

  /** A proper path is not a dot path of the directory just made. */
  lemma NotDots(fs: Fs, cmd: Cmd, q: string)
    requires Possible(fs, cmd) && Proper(q) && cmd.MkDir?
    ensures q != Stored(cmd.path, DIR) + "." && q != Stored(cmd.path, DIR) + ".."
  {
    hide LastName, Dirs, FirstSlash, IsLastLevel, Walk, LastLevelName;
    StoredParts(cmd.path, DIR);
    var path := Stored(cmd.path, DIR);
    assert IsDirName(Base(path)) && Absolute(path);
    if q == path + "." || q == path + ".." {
      DotParts(path, q);
    }
  }
}
