/** What creating and removing a path does to every other path. */
module FsPaths {
  import opened Seqs
  import opened Paths
  import opened FsModel
  import opened FsTree
  import opened FsGrowth

  // ---------------------------------------------------------------- extending a path

  lemma PeelExtended(path: string, x: string)
    requires SLASH in path && x != []
    ensures SLASH in path + x && !IsLastLevel(path + x)
    ensures TopDir(path + x) == TopDir(path) && BelowTop(path + x) == BelowTop(path) + x
  {
    hide FirstSlash;
    SameFirstSlash(path, x);
    var k := FirstSlash(path);
    assert (path + x)[..k + 1] == path[..k + 1] && (path + x)[k + 1..] == path[k + 1..] + x;
  }

  lemma SameFirstSlash(path: string, x: string)
    requires SLASH in path
    ensures SLASH in path + x && FirstSlash(path + x) == FirstSlash(path) < |path|
  {
    hide FirstSlash;
    var k := FirstSlash(path);
    assert (path + x)[k] == SLASH;
    assert forall i :: 0 <= i <= k ==> (path + x)[i] == path[i];
  }

  /** A path put behind a directory path. */
  lemma {:induction false} SplitAppended(path: string, x: string)
    requires path != [] && path[|path| - 1] == SLASH && x != []
    ensures Dirs(path + x) == Dirs(path) + [LastName(path)] + Dirs(x) && LastName(path + x) == LastName(x)
    decreases |path|
  {
    hide Dirs, LastName;
    PeelExtended(path, x);
    SplitOne(path);
    SplitOne(path + x);
    if IsLastLevel(path) {
      assert FirstSlash(path) == |path| - 1;
      assert BelowTop(path) + x == x && TopDir(path) == path;
    } else {
      BelowLast(path);
      hide IsLastLevel, TopDir, BelowTop;
      SplitAppended(BelowTop(path), x);
    }
  }

  lemma BelowLast(path: string)
    requires !IsLastLevel(path)
    ensures BelowTop(path) != [] && BelowTop(path)[|BelowTop(path)| - 1] == path[|path| - 1]
  {
  }

  /** A slash at the end goes to the last name. */
  lemma {:induction false} SplitSlashed(path: string)
    requires path != [] && path[|path| - 1] != SLASH
    ensures Dirs(path + [SLASH]) == Dirs(path) && LastName(path + [SLASH]) == LastName(path) + [SLASH]
    decreases |path|
  {
    if IsLastLevel(path) {
      assert forall i :: 0 <= i < |path| ==> (path + [SLASH])[i] == path[i];
    } else {
      PeelExtended(path, [SLASH]);
      BelowLast(path);
      SplitSlashed(BelowTop(path));
    }
  }

  /** The path under which a new node is found again: directories get their slash. */
  function Stored(path: string, kind: FileType): string {
    if kind == DIR then WithSlash(path) else path
  }

  ghost predicate Absolute(path: string) {
    |path| >= 2 && path[0] == SLASH
  }

  /** Creation takes its name from the end of the path, lookups peel from the front: they meet. */
  lemma StoredParts(path: string, kind: FileType)
    requires Absolute(path)
    ensures LastLevelName(path) == Base(path) && Base(path) != []
    ensures Parents(Stored(path, kind)) == Parents(path)
    ensures Base(Stored(path, kind)) == if kind == DIR then WithSlash(Base(path)) else Base(path)
  {
    hide Dirs, LastName, Join, LastLevelName;
    PathsAgree(path);
    var rest := BelowTop(path);
    assert rest == path[1..];
    SplitJoin(rest);
    LastChar(rest);
    if kind == DIR && path[|path| - 1] != SLASH {
      SplitSlashed(rest);
      assert BelowTop(path + [SLASH]) == rest + [SLASH];
    }
  }

  lemma {:induction false} LastChar(rest: string)
    requires rest != []
    ensures LastName(rest) != [] && LastName(rest)[|LastName(rest)| - 1] == rest[|rest| - 1]
    decreases |rest|
  {
    if !IsLastLevel(rest) {
      BelowLast(rest);
      LastChar(BelowTop(rest));
    }
  }

  // ---------------------------------------------------------------- one creation

  /** path is where the child will be found: its parents lead to p and it ends in the child's name. */
  ghost predicate LeadsTo(fs: Fs, p: nat, name: string, path: string) {
    |fs.inodes| > 0 && Absolute(path) && Walk(fs, Parents(path)) == Some(p) && Base(path) == name
  }

  /** q goes on where path ends. */
  predicate Below(path: string, q: string) {
    path <= q && path != q
  }

  /** What stands below a directory path has that directory among its parents. */
  lemma BelowParts(path: string, x: string)
    requires Absolute(path) && path[|path| - 1] == SLASH && x != []
    ensures Absolute(path + x) && Parents(path + x) == Parents(path) + [Base(path)] + Dirs(x) && Base(path + x) == LastName(x)
  {
    hide Dirs, LastName, IsLastLevel;
    var rest := BelowTop(path);
    assert rest == path[1..];
    hide FirstSlash;
    SplitAppended(rest, x);
    PeelExtended(path, x);
  }

  lemma {:induction false} JoinAppended(ds: seq<string>, d: string, rest: seq<string>, b: string)
    ensures Join(ds + [d] + rest, b) == Join(ds, d) + Join(rest, b)
  {
    if ds == [] {
      assert [] + [d] + rest == [d] + rest && ([d] + rest)[1..] == rest;
    } else {
      assert (ds + [d] + rest)[1..] == ds[1..] + [d] + rest;
      JoinAppended(ds[1..], d, rest, b);
    }
  }

  lemma ThroughIsBelow(path: string, q: string)
    requires Absolute(path) && Absolute(q) && Parents(path) + [Base(path)] <= Parents(q)
    ensures Below(path, q)
  {
    hide Dirs, LastName, IsLastLevel, Join, FirstSlash;
    var ds, d := Parents(path), Base(path);
    var rest := Parents(q)[|ds| + 1..];
    assert Parents(q) == ds + [d] + rest;
    SplitJoin(BelowTop(path));
    SplitJoin(BelowTop(q));
    JoinAppended(ds, d, rest, Base(q));
    RootTop(path);
    RootTop(q);
    assert q == path + Join(rest, Base(q));
    assert |Parents(q)| >= |Parents(path)| + 1;
  }

  lemma RootTop(path: string)
    requires Absolute(path)
    ensures SLASH in path && path == [SLASH] + BelowTop(path)
  {
  }

  /** All inodes a path has entries for in the directory it leads to; a lookup finds the first. */
  function Copies(fs: Fs, q: string, kind: FileType): seq<nat>
    requires |fs.inodes| > 0 && SLASH in q
  {
    match Walk(fs, Parents(q))
    case None => []
    case Some(p) => All(fs, fs.inodes[p].entries, Base(q), kind)
  }

  lemma LookupIsHead(fs: Fs, q: string, kind: FileType)
    requires |fs.inodes| > 0 && SLASH in q
    ensures Lookup(fs, q, kind) == Head(Copies(fs, q, kind))
  {
    match Walk(fs, Parents(q))
    case None =>
    case Some(p) => FindIsHead(fs, fs.inodes[p].entries, Base(q), kind);
  }

  /** What is below a new directory that comes first under its name: its dots. */
  function Dots(path: string, q: string, kind: FileType, c: nat, p: nat): seq<nat> {
    if kind == DIR && q == path + "." then [c] else if kind == DIR && q == path + ".." then [p] else []
  }

  /**
   All paths after a creation, whether or not the name is taken: the new inode joins those of its path where
   the first empty entry stands; a directory that comes first hides everything below; the rest stays.
   */
  lemma CopiesGrown(fs: Fs, n: nat, c: nat, p: nat, name: string, child: Inode, path: string, q: string, kind: FileType)
    requires Room(fs, n, c, p, name, child) && LeadsTo(fs, p, name, path) && Absolute(q)
    ensures Shaped(Grown(fs, c, p, name, child)) && Before(fs, p, name, child.kind) <= |Copies(fs, path, child.kind)|
    ensures Copies(Grown(fs, c, p, name, child), q, kind) ==
      if kind == child.kind && q == path then Insert(Copies(fs, path, kind), Before(fs, p, name, kind), c)
      else if Hides(fs, p, name, child) && Below(path, q) then Dots(path, q, kind, c, p)
      else Copies(fs, q, kind)
  {
    hide Tree, Dirs, LastName, IsLastLevel, FirstSlash, Walk, All, Grown, Before, Hides;
    TreeShaped(fs, n);
    GrownEntries(fs, n, c, p, name, child);
    var ds, b, route := Parents(q), Base(q), Parents(path);
    ProperParts(q, path);
    ProperParts(path, q);
    WalkGrown(fs, n, c, p, name, child, route, ds);
    WalkIn(fs, n, route);
    AllGrown(fs, n, c, p, name, child, p, name, child.kind);
    if Hides(fs, p, name, child) && Below(path, q) {
      CopiesBelow(fs, n, c, p, name, child, path, q, kind);
    } else {
      if route + [name] <= ds {
        ThroughIsBelow(path, q);
      }
      assert Walk(Grown(fs, c, p, name, child), ds) == Walk(fs, ds);
      if Walk(fs, ds).Some? {
        WalkIn(fs, n, ds);
        AllGrown(fs, n, c, p, name, child, Walk(fs, ds).value, b, kind);
        if Walk(fs, ds) == Some(p) {
          WalkInjective(fs, n, ds, route);
        }
      }
    }
  }

  lemma CopiesBelow(fs: Fs, n: nat, c: nat, p: nat, name: string, child: Inode, path: string, q: string, kind: FileType)
    requires Room(fs, n, c, p, name, child) && LeadsTo(fs, p, name, path) && Absolute(q) && Shaped(Grown(fs, c, p, name, child))
    requires Hides(fs, p, name, child) && Below(path, q)
    ensures Copies(Grown(fs, c, p, name, child), q, kind) == Dots(path, q, kind, c, p)
  {
    var x := q[|path|..];
    assert q == path + x && x != [];
    HiddenWalk(fs, n, c, p, name, child, path, x);
    Flat(x);
    DotsAre(path, x, kind, c, p);
    hide Tree, Dirs, LastName, FirstSlash, IsLastLevel, IsDirName, Walk, All, Grown, Before, Hides, Room, Dots;
    if Dirs(x) == [] {
      AllInNew(fs, n, c, p, name, child, x, kind);
    }
  }

  lemma HiddenWalk(fs: Fs, n: nat, c: nat, p: nat, name: string, child: Inode, path: string, x: string)
    requires Room(fs, n, c, p, name, child) && LeadsTo(fs, p, name, path) && Shaped(Grown(fs, c, p, name, child))
    requires Hides(fs, p, name, child) && x != []
    ensures child.kind == DIR && Absolute(path + x) && Base(path + x) == LastName(x)
    ensures Walk(Grown(fs, c, p, name, child), Parents(path + x)) == if Dirs(x) == [] then Some(c) else None
  {
    hide Tree, Dirs, LastName, FirstSlash, IsLastLevel, Walk, All, Grown, Before, Find, EmptyDir;
    EndsInSlash(path);
    BelowParts(path, x);
    ProperParts(path + x, path + x);
    ProperParts(path, path);
    WalkGrown(fs, n, c, p, name, child, Parents(path), Parents(path + x));
    if Dirs(x) == [] {
      assert Parents(path + x) == Parents(path) + [name];
    } else {
      assert Parents(path) + [name] <= Parents(path + x) && Parents(path) + [name] != Parents(path + x);
    }
  }

  lemma DotsAre(path: string, x: string, kind: FileType, c: nat, p: nat)
    ensures Dots(path, path + x, kind, c, p) == if kind == DIR && x == "." then [c] else if kind == DIR && x == ".." then [p] else []
  {
    assert (path + x)[|path|..] == x && (path + ".")[|path|..] == "." && (path + "..")[|path|..] == "..";
  }

  lemma EndsInSlash(path: string)
    requires Absolute(path) && IsDirName(Base(path))
    ensures path[|path| - 1] == SLASH
  {
    hide Dirs, LastName, IsLastLevel, FirstSlash;
    RootTop(path);
    LastChar(BelowTop(path));
  }

  lemma Flat(x: string)
    requires x != []
    ensures Dirs(x) == [] ==> LastName(x) == x
    ensures x == "." || x == ".." ==> Dirs(x) == []
  {
  }

  /** The dot paths of a directory have that directory as their last parent. */
  lemma DotParts(path: string, q: string)
    requires Absolute(path) && IsDirName(Base(path)) && (q == path + "." || q == path + "..")
    ensures Absolute(q) && Base(q) == q[|path|..]
  {
    hide Dirs, LastName, IsLastLevel, FirstSlash;
    EndsInSlash(path);
    BelowParts(path, ".");
    BelowParts(path, "..");
    Flat(".");
    Flat("..");
  }
}
