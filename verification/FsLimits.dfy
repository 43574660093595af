/** Where creation falls short: names that are taken, directories that hide others, paths without their slash. */
module FsLimits {
  import opened Seqs
  import opened Paths
  import opened FsModel
  import opened FsTree
  import opened FsGrowth
  import opened FsPaths
  import opened FsRemoval
  import opened FsRuns

  /** Lookups in a tree only give inodes in use. */
  lemma LookupUsed(fs: Fs, n: nat, q: string, kind: FileType)
    requires Tree(fs, n) && Absolute(q) && Lookup(fs, q, kind).Some?
    ensures Lookup(fs, q, kind).value < n && fs.inuse[Lookup(fs, q, kind).value]
  {
    hide Tree;
    TreeShaped(fs, n);
    ProperParts(q, q);
    WalkIn(fs, n, Parents(q));
    var p := Walk(fs, Parents(q)).value;
    var k :| 0 <= k < NR_DIRDATA && Matches(fs, fs.inodes[p].entries[k], Base(q), kind)
             && fs.inodes[p].entries[k].inodeNo == Lookup(fs, q, kind).value;
    EntriesUsed(fs, n, p, k);
  }

  // ---------------------------------------------------------------- names that are taken

  /** Every lookup after a creation, whether or not the name is taken. */
  function LookupAfter(fs: Fs, cmd: Cmd, q: string, kind: FileType): Option<nat>
    requires |fs.inodes| > 0 && SLASH in cmd.path && Walk(fs, Parents(cmd.path)).Some? && SLASH in q
  {
    var path := Stored(cmd.path, KindOf(cmd));
    if Front(fs, cmd) == 0 && kind == KindOf(cmd) && q == path then Some(FreeInode(fs))
    else if Front(fs, cmd) == 0 && cmd.MkDir? && Below(path, q) then
      Head(Dots(path, q, kind, FreeInode(fs), Walk(fs, Parents(cmd.path)).value))
    else Lookup(fs, q, kind)
  }

  /**
   The new node counts only where no other of its name and type stands in front of the first empty entry.
   Then its path leads to it, and a directory also takes away every path below its own but its dots; no
   other lookup changes, and otherwise none at all.
   */
  lemma MakeLookups(fs: Fs, n: nat, cmd: Cmd, g: Fs, q: string, kind: FileType)
    requires Tree(fs, n) && Makes(fs, cmd, g) && Absolute(q)
    ensures |fs.inodes| > 0 && |g.inodes| > 0 && Absolute(cmd.path) && Walk(fs, Parents(cmd.path)).Some?
    ensures Lookup(g, q, kind) == LookupAfter(fs, cmd, q, kind)
  {
    hide Tree, Packed, Makes, Lookup, Copies, Walk, FreeInode, Front, Dirs, LastName, Stored, Below, Dots;
    MakeStep(fs, n, cmd, g);
    MakesParts(fs, cmd, g);
    LookupIsHead(fs, q, kind);
    LookupIsHead(g, q, kind);
  }

  lemma MakesParts(fs: Fs, cmd: Cmd, g: Fs)
    requires Makes(fs, cmd, g)
    ensures Possible(fs, cmd) && SLASH in Stored(cmd.path, KindOf(cmd)) && !cmd.RmFile?
  {
    PossibleParts(fs, cmd);
  }

  /** The new node is found under its path exactly when none of its name and type stands in front of the first empty entry. */
  lemma FoundIffFirst(fs: Fs, n: nat, cmd: Cmd, g: Fs)
    requires Tree(fs, n) && Makes(fs, cmd, g)
    ensures |fs.inodes| > 0 && |g.inodes| > 0 && Absolute(cmd.path) && Walk(fs, Parents(cmd.path)).Some?
    ensures Absolute(Stored(cmd.path, KindOf(cmd)))
    ensures Lookup(g, Stored(cmd.path, KindOf(cmd)), KindOf(cmd)) == Some(FreeInode(fs)) <==> Front(fs, cmd) == 0
    ensures Front(fs, cmd) > 0 ==>
      Lookup(g, Stored(cmd.path, KindOf(cmd)), KindOf(cmd)) == Lookup(fs, Stored(cmd.path, KindOf(cmd)), KindOf(cmd))
  {
    hide Tree, Makes, Lookup, Walk, FreeInode, Front, Dirs, LastName, Stored, Possible;
    var path, kind := Stored(cmd.path, KindOf(cmd)), KindOf(cmd);
    MakesParts(fs, cmd, g);
    PossibleParts(fs, cmd);
    MakeLookups(fs, n, cmd, g, path, kind);
    FirstUnused(fs, n);
    if Lookup(fs, path, kind).Some? {
      LookupUsed(fs, n, path, kind);
    }
    DotsBelow(path);
  }

  /** A directory that comes first under a name that is taken: whatever proper path was below it is gone. */
  lemma ShadowHides(fs: Fs, n: nat, cmd: Cmd, g: Fs, q: string, kind: FileType)
    requires Tree(fs, n) && Makes(fs, cmd, g) && cmd.MkDir? && Proper(q)
    requires |fs.inodes| > 0 && SLASH in cmd.path && Walk(fs, Parents(cmd.path)).Some? && Front(fs, cmd) == 0
    requires Below(Stored(cmd.path, DIR), q)
    ensures |g.inodes| > 0 && Lookup(g, q, kind) == None
  {
    hide Tree, Makes, Lookup, Walk, FreeInode, Front, Dirs, LastName, Stored, Possible, Below;
    MakesParts(fs, cmd, g);
    MakeLookups(fs, n, cmd, g, q, kind);
    NotDots(fs, cmd, q);
    DotsBelow(Stored(cmd.path, DIR));
  }

  /** In terms of the table: no entry in front of the first empty one has the name and the type. */
  lemma FrontIsFirst(fs: Fs, n: nat, cmd: Cmd)
    requires Tree(fs, n) && Possible(fs, cmd)
    ensures SLASH in cmd.path && |fs.inodes| > 0 && Walk(fs, Parents(cmd.path)).Some?
    ensures var es := fs.inodes[Walk(fs, Parents(cmd.path)).value].entries;
      Front(fs, cmd) == 0 <==>
      forall j :: 0 <= j < FreeSlot(es) ==> !Matches(fs, es[j], StoredName(cmd.path, KindOf(cmd)), KindOf(cmd))
  {
    hide Tree, Walk, Possible, LastLevelName, FreeInode, All, Dirs, LastName;
    PossibleParts(fs, cmd);
    var es := fs.inodes[Walk(fs, Parents(cmd.path)).value].entries;
    AllEmptyIff(fs, es[..FreeSlot(es)], StoredName(cmd.path, KindOf(cmd)), KindOf(cmd));
    assert forall j :: 0 <= j < FreeSlot(es) ==> es[..FreeSlot(es)][j] == es[j];
  }

  lemma {:induction false} AllEmptyIff(fs: Fs, es: seq<DirEntry>, name: string, kind: FileType)
    ensures All(fs, es, name, kind) == [] <==> forall j :: 0 <= j < |es| ==> !Matches(fs, es[j], name, kind)
  {
    if es != [] {
      AllEmptyIff(fs, es[1..], name, kind);
      assert forall j :: 1 <= j < |es| ==> es[j] == es[1..][j - 1];
    }
  }

  // ---------------------------------------------------------------- creations that fail

  /** Every inode is in use. */
  ghost predicate NoInode(fs: Fs) {
    forall i :: 0 <= i < |fs.inuse| ==> fs.inuse[i]
  }

  /** Every entry of directory p is in use. */
  ghost predicate Crowded(fs: Fs, p: nat)
    requires p < |fs.inodes|
  {
    forall k :: 0 <= k < |fs.inodes[p].entries| ==> fs.inodes[p].entries[k].filename != ""
  }

  /**
   makeDir only prints a message without inode or parent, and halts when the parent is full; makeFL halts
   in all three cases.
   */
  lemma OutcomeExactly(fs: Fs, path: string, content: Option<seq<Byte>>)
    requires Shaped(fs) && SLASH in path && (content.Some? ==> |content.value| < MAX_FILE_SZ)
    ensures var p := Walk(fs, Parents(path));
      && (MakeDir(fs, path).Refused? <==> NoInode(fs) || p.None?)
      && (MakeDir(fs, path).Halted? <==> !NoInode(fs) && p.Some? && Crowded(fs, p.value))
      && (MakeFL(fs, path, content).Made? <==> !NoInode(fs) && p.Some? && !Crowded(fs, p.value))
      && (MakeFL(fs, path, content).Halted? <==> NoInode(fs) || p.None? || Crowded(fs, p.value))
  {
    hide Walk, Dirs, LastName, LastLevelName, AsDir, AsFile, Adopt;
    var c := FreeInode(fs);
    assert NoInode(fs) <==> c == NR_INODE;
    if Walk(fs, Parents(path)).Some? {
      var p := Walk(fs, Parents(path)).value;
      assert Crowded(fs, p) <==> FreeSlot(fs.inodes[p].entries) == NR_DIRDATA;
    }
  }

  // ---------------------------------------------------------------- without holes

  /** Where no directory has a hole the new node comes behind all others of its name. */
  lemma PackedFront(fs: Fs, n: nat, cmd: Cmd)
    requires Tree(fs, n) && Packed(fs) && Possible(fs, cmd)
    ensures SLASH in cmd.path && |fs.inodes| > 0 && Walk(fs, Parents(cmd.path)).Some? && Absolute(Stored(cmd.path, KindOf(cmd)))
    ensures Front(fs, cmd) == |Copies(fs, Stored(cmd.path, KindOf(cmd)), KindOf(cmd))|
    ensures Front(fs, cmd) == 0 <==> Fresh(fs, cmd)
  {
    hide Tree, Packed, Walk, Possible, Lookup, Dirs, LastName, LastLevelName, All, FreeSlot, FreeInode, Perform, Child, Grown, Room;
    PossibleParts(fs, cmd);
    PerformMakes(fs, n, cmd);
    var p, path, kind := Walk(fs, Parents(cmd.path)).value, Stored(cmd.path, KindOf(cmd)), KindOf(cmd);
    ParentFound(fs, n, cmd);
    TreeShaped(fs, n);
    PackedFrontIn(fs, p, StoredName(cmd.path, kind), kind);
    LookupIsHead(fs, path, kind);
  }

  lemma PackedFrontIn(fs: Fs, p: nat, name: string, kind: FileType)
    requires Packed(fs) && p < NR_INODE && fs.inodes[p].kind == DIR
    ensures Before(fs, p, name, kind) == |All(fs, fs.inodes[p].entries, name, kind)|
  {
    hide All, FreeSlot, Count;
    PackedSlot(fs, p);
    var es, m := fs.inodes[p].entries, FreeSlot(fs.inodes[p].entries);
    assert es == es[..m] + es[m..];
    AllConcat(fs, es[..m], es[m..], name, kind);
    AllNone(fs, es[m..], name, kind);
  }

  /** Without holes, creating a path that exists uses up an inode and an entry and changes no lookup at all. */
  lemma TakenChangesNothing(fs: Fs, n: nat, cmd: Cmd, g: Fs, q: string, kind: FileType)
    requires Tree(fs, n) && Packed(fs) && Makes(fs, cmd, g) && Absolute(cmd.path) && |fs.inodes| > 0 && !Fresh(fs, cmd) && Absolute(q)
    ensures |g.inodes| > 0 && Lookup(g, q, kind) == Lookup(fs, q, kind)
  {
    hide Tree, Packed, Makes, Lookup, Walk, FreeInode, Front, Dirs, LastName, Stored, Possible, Copies;
    MakesParts(fs, cmd, g);
    PackedFront(fs, n, cmd);
    MakeLookups(fs, n, cmd, g, q, kind);
  }

  /** Without holes, the created node is found under its stored path exactly when the name was free. */
  lemma FoundIffFresh(fs: Fs, n: nat, cmd: Cmd, g: Fs)
    requires Tree(fs, n) && Packed(fs) && Makes(fs, cmd, g) && Absolute(cmd.path)
    ensures |fs.inodes| > 0 && |g.inodes| > 0 && SLASH in Stored(cmd.path, KindOf(cmd))
    ensures Lookup(g, Stored(cmd.path, KindOf(cmd)), KindOf(cmd)) == Some(FreeInode(fs)) <==> Fresh(fs, cmd)
  {
    hide Tree, Packed, Makes, Lookup, Walk, FreeInode, Front, Dirs, LastName, Stored, Possible, Copies;
    MakesParts(fs, cmd, g);
    PackedFront(fs, n, cmd);
    FoundIffFirst(fs, n, cmd, g);
  }

  /** A new directory is found under the path it was made with exactly when that path ends in a slash. */
  lemma FoundIffSlash(fs: Fs, n: nat, path: string, g: Fs)
    requires Tree(fs, n) && Creates(fs, MkDir(path), g)
    ensures |g.inodes| > 0 && (Lookup(g, path, DIR) == Some(FreeInode(fs)) <==> path[|path| - 1] == SLASH)
  {
    hide Tree, Perform, Possible, Fresh, FreeInode, Lookup;
    PossibleParts(fs, MkDir(path));
    CreateStep(fs, n, MkDir(path), g);
    TreeShaped(g, Used(n, FreeInode(fs)));
    if path[|path| - 1] != SLASH && Lookup(fs, path, DIR).Some? {
      LookupUsed(fs, n, path, DIR);
      FirstUnused(fs, n);
    }
  }

  // ---------------------------------------------------------------- runs without removals

  /** The first creation of a path counts. */
  function FirstWins(m: map<(string, FileType), nat>, fs: Fs, cmd: Cmd): map<(string, FileType), nat> {
    var key := (Stored(cmd.path, KindOf(cmd)), KindOf(cmd));
    if key in m then m else m[key := FreeInode(fs)]
  }

  ghost function FirstMap(tr: seq<Fs>, cmds: seq<Cmd>, k: nat): map<(string, FileType), nat>
    requires k <= |cmds| <= |tr|
  {
    if k == 0 then map[] else FirstWins(FirstMap(tr, cmds, k - 1), tr[k - 1], cmds[k - 1])
  }

  ghost predicate Finds(fs: Fs, m: map<(string, FileType), nat>) {
    |fs.inodes| > 0 && forall q, kind :: Proper(q) ==> Lookup(fs, q, kind) == if (q, kind) in m then Some(m[(q, kind)]) else None
  }

  lemma MadeFinds(fs: Fs, n: nat, cmd: Cmd, g: Fs, q: string, kind: FileType)
    requires Tree(fs, n) && Packed(fs) && Makes(fs, cmd, g) && Proper(q) && Proper(Stored(cmd.path, KindOf(cmd)))
    ensures |fs.inodes| > 0 && |g.inodes| > 0
    ensures Lookup(g, q, kind) ==
      if q == Stored(cmd.path, KindOf(cmd)) && kind == KindOf(cmd) && Lookup(fs, q, kind).None? then Some(FreeInode(fs))
      else Lookup(fs, q, kind)
  {
    hide Tree, Packed, Possible, Makes, Lookup, FreeInode, Dirs, LastName, Stored, Walk, Front, Copies;
    MakesParts(fs, cmd, g);
    PossibleParts(fs, cmd);
    MakeLookups(fs, n, cmd, g, q, kind);
    PackedFront(fs, n, cmd);
    if cmd.MkDir? {
      NotDots(fs, cmd, q);
      if Below(Stored(cmd.path, DIR), q) && Fresh(fs, cmd) {
        MissingBelow(fs, cmd, q, kind);
      }
    }
  }

  lemma MissingBelow(fs: Fs, cmd: Cmd, q: string, kind: FileType)
    requires Possible(fs, cmd) && Fresh(fs, cmd) && cmd.MkDir? && Below(Stored(cmd.path, DIR), q)
    ensures |fs.inodes| > 0 && Absolute(q) && Lookup(fs, q, kind) == None
  {
    StoredIsDir(fs, cmd);
    hide Possible, Lookup, Dirs, LastName, Stored, Copies, IsDirName;
    NothingBelow(fs, Stored(cmd.path, DIR), q, kind);
    LookupIsHead(fs, q, kind);
  }

  lemma MadeKeeps(fs: Fs, n: nat, cmd: Cmd, g: Fs, m: map<(string, FileType), nat>)
    requires Tree(fs, n) && Packed(fs) && Makes(fs, cmd, g) && Finds(fs, m)
    ensures Finds(g, FirstWins(m, fs, cmd))
  {
    hide Tree, Packed, Possible, Lookup, FreeInode, Dirs, LastName, Perform;
    StoredProper(fs, cmd);
    MadeFinds(fs, n, cmd, g, Stored(cmd.path, KindOf(cmd)), KindOf(cmd));
    forall q, kind | Proper(q)
      ensures Lookup(g, q, kind) ==
        if (q, kind) in FirstWins(m, fs, cmd) then Some(FirstWins(m, fs, cmd)[(q, kind)]) else None
    {
      MadeFinds(fs, n, cmd, g, q, kind);
    }
  }

  /** After any run of creations, names taken or not, every path leads to what was made first under it. */
  lemma {:induction false} FirstCreationWins(tr: seq<Fs>, cmds: seq<Cmd>, k: nat)
    requires Run(tr, cmds) && k <= |cmds| && forall i :: 0 <= i < k ==> !cmds[i].RmFile?
    ensures Finds(tr[k], FirstMap(tr, cmds, k))
  {
    hide Tree, Packed, Finds, FirstWins, Makes, Formatted, Refines, MapOf;
    if k == 0 {
      FormattedTree(tr[0]);
      EmptyFinds(tr[0]);
    } else {
      FirstCreationWins(tr, cmds, k - 1);
      RunRefines(tr, cmds, k - 1);
      assert Does(tr[k - 1], cmds[k - 1], tr[k]);
      MadeKeeps(tr[k - 1], EverUsed(tr, cmds, k - 1), cmds[k - 1], tr[k], FirstMap(tr, cmds, k - 1));
    }
  }

  lemma EmptyFinds(fs: Fs)
    requires Tree(fs, 1)
    ensures Finds(fs, map[])
  {
    TreeShaped(fs, 1);
    hide Tree, Lookup;
    forall q, kind | Proper(q)
      ensures Lookup(fs, q, kind) == None
    {
      EmptyLookup(fs, q, kind);
    }
  }
}
