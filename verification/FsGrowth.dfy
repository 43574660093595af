/** One creation keeps the tree and adds exactly one path. */
module FsGrowth {
  import opened Seqs
  import opened Paths
  import opened FsModel
  import opened FsTree

  /** There is room for child in inode c, which is not in use, under a well-formed name in directory p. */
  ghost predicate Room(fs: Fs, n: nat, c: nat, p: nat, name: string, child: Inode) {
    && Tree(fs, n) && c < NR_INODE && c <= n && !fs.inuse[c] && p < n && fs.inodes[p].kind == DIR
    && FreeSlot(fs.inodes[p].entries) < NR_DIRDATA
    && NameOk(name, child.kind) && child.filename == name
    && |child.entries| == NR_DIRDATA && |child.data| == MAX_FILE_SZ
    && child.kind != UNUSED
    && (child.kind == DIR ==> EmptyDir(child, c, p))
  }

  /** How many entries with this name and type stand in front of the first empty one. */
  function Before(fs: Fs, p: nat, name: string, kind: FileType): nat
    requires p < |fs.inodes|
  {
    |All(fs, fs.inodes[p].entries[..FreeSlot(fs.inodes[p].entries)], name, kind)|
  }

  function Insert(xs: seq<nat>, k: nat, x: nat): seq<nat>
    requires k <= |xs|
  {
    xs[..k] + [x] + xs[k..]
  }

  /** Inodes ever used once c has been taken. */
  function Used(n: nat, c: nat): nat {
    if c == n then n + 1 else n
  }

  function Grown(fs: Fs, c: nat, p: nat, name: string, child: Inode): (g: Fs)
    requires c < |fs.inodes| && p < |fs.inodes| && c < |fs.inuse|
    requires FreeSlot(fs.inodes[p].entries) < |fs.inodes[p].entries|
  {
    Adopt(fs, p, c, name, child)
  }

  /** The entries of the grown table: the old ones, one more in p, and those of the child. */
  lemma GrownEntries(fs: Fs, n: nat, c: nat, p: nat, name: string, child: Inode)
    requires Room(fs, n, c, p, name, child)
    ensures p != c && 2 <= FreeSlot(fs.inodes[p].entries)
    ensures var g := Grown(fs, c, p, name, child); var m := FreeSlot(fs.inodes[p].entries);
      && Shaped(g)
      && g.inodes[p] == fs.inodes[p].(entries := fs.inodes[p].entries[m := DirEntry(c, name)], size := fs.inodes[p].size + 1)
      && g.inodes[c] == child
      && (forall i :: 0 <= i < NR_INODE && i != p && i != c ==> g.inodes[i] == fs.inodes[i])
      && forall i :: 0 <= i < NR_INODE ==> g.inuse[i] == (fs.inuse[i] || i == c)
  {
    assert DirOk(fs, n, p);
  }

  lemma {:induction false} CountFilled(es: seq<DirEntry>, m: nat, e: DirEntry)
    requires m < |es| && es[m].filename == "" && e.filename != ""
    ensures Count(es[m := e]) == Count(es) + 1
  {
    var front := es[..|es| - 1];
    if m == |es| - 1 {
      assert es[m := e][..|es| - 1] == front;
    } else {
      assert es[m := e][..|es| - 1] == front[m := e];
      CountFilled(front, m, e);
    }
  }

  lemma NewDirOk(fs: Fs, n: nat, c: nat, p: nat, name: string, child: Inode)
    requires Room(fs, n, c, p, name, child) && child.kind == DIR
    ensures Shaped(Grown(fs, c, p, name, child)) && DirOk(Grown(fs, c, p, name, child), Used(n, c), c)
  {
    hide Grown, Count, Tree, NameOk;
    GrownEntries(fs, n, c, p, name, child);
    CountPrefix(child.entries, 2);
  }

  lemma OldDirOk(fs: Fs, n: nat, c: nat, p: nat, name: string, child: Inode, q: nat)
    requires Room(fs, n, c, p, name, child) && q < n && fs.inodes[q].kind == DIR && DirOk(fs, n, q)
    ensures Shaped(Grown(fs, c, p, name, child)) && DirOk(Grown(fs, c, p, name, child), Used(n, c), q)
  {
    hide Grown, Count, Tree, NameOk, EmptyDir, ChildOk;
    TreeShaped(fs, n);
    GrownEntries(fs, n, c, p, name, child);
    var g := Grown(fs, c, p, name, child);
    var es := fs.inodes[q].entries;
    if q == p {
      NameNotEmpty(name, child.kind);
      CountFilled(es, FreeSlot(es), DirEntry(c, name));
    }
    forall k | 2 <= k < NR_DIRDATA && g.inodes[q].entries[k].filename != ""
      ensures ChildOk(g, Used(n, c), q, g.inodes[q].entries[k])
    {
      if q == p && k == FreeSlot(es) {
        NewChildOk(fs, n, c, p, name, child);
      } else {
        ChildKept(fs, n, c, p, name, child, q, es[k]);
      }
    }
  }

  lemma NewChildOk(fs: Fs, n: nat, c: nat, p: nat, name: string, child: Inode)
    requires Room(fs, n, c, p, name, child)
    ensures Shaped(Grown(fs, c, p, name, child)) && ChildOk(Grown(fs, c, p, name, child), Used(n, c), p, DirEntry(c, name))
    ensures name != ""
  {
    hide Grown, Count;
    GrownEntries(fs, n, c, p, name, child);
    DirInUse(fs, n, 0);
  }

  lemma GrownChildren(fs: Fs, n: nat, c: nat, p: nat, name: string, child: Inode, q: nat)
    requires Room(fs, n, c, p, name, child) && q < NR_INODE
    requires var g := Grown(fs, c, p, name, child); Shaped(g) && g.inodes[q].kind == DIR && q < Used(n, c)
    ensures DirOk(Grown(fs, c, p, name, child), Used(n, c), q)
  {
    hide Grown, Count, DirOk, ChildOk, Names;
    GrownEntries(fs, n, c, p, name, child);
    if q == c {
      NewDirOk(fs, n, c, p, name, child);
    } else {
      OldDirOk(fs, n, c, p, name, child, q);
    }
  }

  lemma ChildKept(fs: Fs, n: nat, c: nat, p: nat, name: string, child: Inode, q: nat, e: DirEntry)
    requires Room(fs, n, c, p, name, child) && ChildOk(fs, n, q, e) && Shaped(Grown(fs, c, p, name, child))
    ensures ChildOk(Grown(fs, c, p, name, child), Used(n, c), q, e)
  {
    hide Grown, Count, Tree;
    GrownEntries(fs, n, c, p, name, child);
  }

  lemma GrownNames(fs: Fs, n: nat, c: nat, p: nat, name: string, child: Inode, q: nat, k: nat, x: nat)
    requires Room(fs, n, c, p, name, child) && Shaped(Grown(fs, c, p, name, child))
    ensures Names(Grown(fs, c, p, name, child), q, k, x) <==>
      (Names(fs, q, k, x) && q != c) || (q == p && k == FreeSlot(fs.inodes[p].entries) && x == c)
  {
    GrownEntries(fs, n, c, p, name, child);
    assert DirOk(fs, n, p);
  }

  /** What an entry names is in use. */
  lemma NamesUsed(fs: Fs, n: nat, p: nat, k: nat, c: nat)
    requires Tree(fs, n) && Names(fs, p, k, c)
    ensures p < n && 0 < c < n && fs.inuse[c]
  {
    assert DirOk(fs, n, p) && ChildOk(fs, n, p, fs.inodes[p].entries[k]);
  }

  /** A creation keeps the tree, whether or not the name is taken. */
  lemma GrownTree(fs: Fs, n: nat, c: nat, p: nat, name: string, child: Inode)
    requires Room(fs, n, c, p, name, child)
    ensures Tree(Grown(fs, c, p, name, child), Used(n, c))
  {
    hide DirOk, ChildOk, Named, Ranked, Count;
    GrownEntries(fs, n, c, p, name, child);
    DirInUse(fs, n, p);
    DirInUse(fs, n, 0);
    var g := Grown(fs, c, p, name, child);
    forall q | 0 <= q < Used(n, c) && g.inodes[q].kind == DIR
      ensures DirOk(g, Used(n, c), q)
    {
      GrownChildren(fs, n, c, p, name, child, q);
    }
    forall x | 0 < x < Used(n, c) && g.inuse[x]
      ensures Named(g, x)
    {
      GrownNamed(fs, n, c, p, name, child, x);
    }
    forall q: nat, k: nat, r: nat, j: nat, x: nat | Names(g, q, k, x) && Names(g, r, j, x)
      ensures q == r && k == j
    {
      GrownOnce(fs, n, c, p, name, child, q, k, r, j, x);
    }
    var rank := GrownRanked(fs, n, c, p, name, child);
    assert Ranked(g, rank);
  }

  lemma GrownNamed(fs: Fs, n: nat, c: nat, p: nat, name: string, child: Inode, x: nat)
    requires Room(fs, n, c, p, name, child) && Shaped(Grown(fs, c, p, name, child))
    requires 0 < x < Used(n, c) && Grown(fs, c, p, name, child).inuse[x]
    ensures Named(Grown(fs, c, p, name, child), x)
  {
    GrownEntries(fs, n, c, p, name, child);
    var g := Grown(fs, c, p, name, child);
    if x != c {
      assert Named(fs, x);
      hide Tree, Grown;
      var q: nat, k: nat :| Names(fs, q, k, x);
      NamesUsed(fs, n, q, k, x);
      GrownNames(fs, n, c, p, name, child, q, k, x);
      assert Names(g, q, k, x) by { NotFree(fs, n, c, p, name, child, q, k, x); }
    } else {
      var m := FreeSlot(fs.inodes[p].entries);
      GrownNames(fs, n, c, p, name, child, p, m, c);
      assert Names(g, p, m, c);
    }
  }

  lemma NotFree(fs: Fs, n: nat, c: nat, p: nat, name: string, child: Inode, q: nat, k: nat, x: nat)
    requires Room(fs, n, c, p, name, child) && Names(fs, q, k, x)
    ensures q != c && x != c
  {
    NamesUsed(fs, n, q, k, x);
  }

  lemma GrownRanked(fs: Fs, n: nat, c: nat, p: nat, name: string, child: Inode) returns (rank: seq<nat>)
    requires Room(fs, n, c, p, name, child)
    ensures Shaped(Grown(fs, c, p, name, child)) && Ranked(Grown(fs, c, p, name, child), rank)
  {
    hide Tree, Grown, Count;
    TreeShaped(fs, n);
    GrownEntries(fs, n, c, p, name, child);
    var g := Grown(fs, c, p, name, child);
    var old_rank := Ranks(fs, n);
    rank := old_rank[c := old_rank[p] + 1];
    forall q: nat, k: nat, x: nat | Names(g, q, k, x) && x < NR_INODE && g.inodes[x].kind == DIR
      ensures rank[q] < rank[x]
    {
      GrownNames(fs, n, c, p, name, child, q, k, x);
      if Names(fs, q, k, x) {
        NotFree(fs, n, c, p, name, child, q, k, x);
      }
    }
  }

  lemma GrownOnce(fs: Fs, n: nat, c: nat, p: nat, name: string, child: Inode, q: nat, k: nat, r: nat, j: nat, x: nat)
    requires Room(fs, n, c, p, name, child) && Shaped(Grown(fs, c, p, name, child))
    requires Names(Grown(fs, c, p, name, child), q, k, x) && Names(Grown(fs, c, p, name, child), r, j, x)
    ensures q == r && k == j
  {
    GrownNames(fs, n, c, p, name, child, q, k, x);
    GrownNames(fs, n, c, p, name, child, r, j, x);
    if Names(fs, q, k, x) {
      NamesUsed(fs, n, q, k, x);
    }
    if Names(fs, r, j, x) {
      NamesUsed(fs, n, r, j, x);
    }
  }

  /** A name that is stored in a directory of a tree is found there with its type. */
  lemma StoredFound(fs: Fs, n: nat, p: nat, name: string, kind: FileType, j: nat)
    requires Tree(fs, n) && p < n && fs.inodes[p].kind == DIR && NameOk(name, kind) && kind != UNUSED
    requires j < NR_DIRDATA && fs.inodes[p].entries[j].filename == name
    ensures FindIn(fs, p, name, kind).Some?
  {
    hide Tree, FindIn, IsLastLevel;
    TreeShaped(fs, n);
    var e := fs.inodes[p].entries[j];
    assert kind == DIR ==> name[|name| - 1] == SLASH;
    DirInUse(fs, n, p);
    EntryOk(fs, n, p, j, e.inodeNo);
    assert fs.inodes[e.inodeNo].kind == DIR ==> name[|name| - 1] == SLASH;
    assert Matches(fs, e, name, kind);
    FindAny(fs, p, name, kind, j);
  }

  lemma FindAny(fs: Fs, p: nat, name: string, kind: FileType, j: nat)
    requires p < |fs.inodes| && j < |fs.inodes[p].entries| && Matches(fs, fs.inodes[p].entries[j], name, kind)
    ensures FindIn(fs, p, name, kind).Some?
  {
  }

  /** Under a new name the names stay different. */
  lemma GrownDistinct(fs: Fs, n: nat, c: nat, p: nat, name: string, child: Inode)
    requires Room(fs, n, c, p, name, child) && Distinct(fs) && FindIn(fs, p, name, child.kind).None?
    ensures Distinct(Grown(fs, c, p, name, child))
  {
    hide Tree, Grown, FindIn, FreeSlot, NameOk;
    TreeShaped(fs, n);
    GrownEntries(fs, n, c, p, name, child);
    forall j | 0 <= j < NR_DIRDATA
      ensures fs.inodes[p].entries[j].filename != name
    {
      if fs.inodes[p].entries[j].filename == name {
        StoredFound(fs, n, p, name, child.kind, j);
      }
    }
  }

  /** Without holes the new entry is the next one. */
  lemma PackedSlot(fs: Fs, p: nat)
    requires Packed(fs) && p < NR_INODE && fs.inodes[p].kind == DIR
    ensures Count(fs.inodes[p].entries) == FreeSlot(fs.inodes[p].entries) == fs.inodes[p].size
  {
    hide Count, FreeSlot;
    var es, m := fs.inodes[p].entries, fs.inodes[p].size;
    CountPrefix(es, m);
    var k := FreeSlot(es);
    assert k < NR_DIRDATA ==> es[k].filename == "";
    assert m < NR_DIRDATA ==> es[m].filename == "";
  }

  lemma NameNotEmpty(name: string, kind: FileType)
    requires NameOk(name, kind)
    ensures name != ""
  {
  }

  lemma GrownPacked(fs: Fs, n: nat, c: nat, p: nat, name: string, child: Inode)
    requires Room(fs, n, c, p, name, child) && Packed(fs)
    ensures FreeSlot(fs.inodes[p].entries) == fs.inodes[p].size && Packed(Grown(fs, c, p, name, child))
  {
    hide Tree, Grown, Count, FreeSlot, NameOk;
    TreeShaped(fs, n);
    GrownEntries(fs, n, c, p, name, child);
    PackedSlot(fs, p);
    var g := Grown(fs, c, p, name, child);
    forall q, k | 0 <= q < NR_INODE && g.inodes[q].kind == DIR && 0 <= k < NR_DIRDATA
      ensures g.inodes[q].entries[k].filename != "" <==> k < g.inodes[q].size
    {
      if q == c {
        assert child.entries[0].filename != "" && child.entries[1].filename != "";
      } else if q == p {
        assert name != "" by { NameNotEmpty(name, child.kind); }
      }
    }
  }

  // ---------------------------------------------------------------- lookups after a creation

  lemma {:induction false} AllConcat(fs: Fs, a: seq<DirEntry>, b: seq<DirEntry>, name: string, kind: FileType)
    ensures All(fs, a + b, name, kind) == All(fs, a, name, kind) + All(fs, b, name, kind)
  {
    if a == [] {
      assert a + b == b;
    } else {
      assert (a + b)[0] == a[0] && (a + b)[1..] == a[1..] + b;
      AllConcat(fs, a[1..], b, name, kind);
    }
  }

  lemma {:induction false} AllSame(fs: Fs, g: Fs, es: seq<DirEntry>, name: string, kind: FileType)
    requires forall k :: 0 <= k < |es| ==> Matches(g, es[k], name, kind) == Matches(fs, es[k], name, kind)
    ensures All(g, es, name, kind) == All(fs, es, name, kind)
  {
    if es != [] {
      AllSame(fs, g, es[1..], name, kind);
    }
  }

  lemma {:induction false} AllNone(fs: Fs, es: seq<DirEntry>, name: string, kind: FileType)
    requires forall k :: 0 <= k < |es| ==> !Matches(fs, es[k], name, kind)
    ensures All(fs, es, name, kind) == []
  {
    if es != [] {
      AllNone(fs, es[1..], name, kind);
    }
  }

  /** What stands at position k adds itself to the matches or nothing. */
  lemma AllAround(fs: Fs, es: seq<DirEntry>, k: nat, name: string, kind: FileType)
    requires k < |es|
    ensures All(fs, es, name, kind) ==
      All(fs, es[..k], name, kind) + (if Matches(fs, es[k], name, kind) then [es[k].inodeNo] else []) + All(fs, es[k + 1..], name, kind)
  {
    assert es == es[..k] + es[k..];
    AllConcat(fs, es[..k], es[k..], name, kind);
    assert es[k..][0] == es[k] && es[k..][1..] == es[k + 1..];
  }

  /** Filling an empty entry inserts it among the matches, or changes nothing. */
  lemma AllFilled(fs: Fs, g: Fs, es: seq<DirEntry>, m: nat, e: DirEntry, name: string, kind: FileType)
    requires m < |es| && es[m].filename == ""
    requires forall k :: 0 <= k < |es| ==> Matches(g, es[k], name, kind) == Matches(fs, es[k], name, kind)
    ensures |All(fs, es[..m], name, kind)| <= |All(fs, es, name, kind)|
    ensures All(g, es[m := e], name, kind) ==
      if Matches(g, e, name, kind) then Insert(All(fs, es, name, kind), |All(fs, es[..m], name, kind)|, e.inodeNo)
      else All(fs, es, name, kind)
  {
    hide All;
    AllAround(fs, es, m, name, kind);
    AllAround(g, es[m := e], m, name, kind);
    assert es[m := e][..m] == es[..m] && es[m := e][m + 1..] == es[m + 1..];
    AllSame(fs, g, es[..m], name, kind);
    AllSame(fs, g, es[m + 1..], name, kind);
  }

  lemma {:induction false} FindSame(fs: Fs, g: Fs, es: seq<DirEntry>, name: string, kind: FileType)
    requires forall k :: 0 <= k < |es| ==> Matches(g, es[k], name, kind) == Matches(fs, es[k], name, kind)
    ensures Find(g, es, name, kind) == Find(fs, es, name, kind)
  {
    if es != [] {
      FindSame(fs, g, es[1..], name, kind);
    }
  }

  /** ".." of a directory is a directory in use. */
  lemma UpInside(fs: Fs, n: nat, q: nat)
    requires Tree(fs, n) && q < n && fs.inodes[q].kind == DIR
    ensures fs.inodes[q].entries[1].inodeNo < n <= NR_INODE && fs.inuse[fs.inodes[q].entries[1].inodeNo]
    ensures q > 0 ==> exists k :: Names(fs, fs.inodes[q].entries[1].inodeNo, k, q)
  {
    DirInUse(fs, n, q);
    hide Tree, DirOk;
    TreeShaped(fs, n);
    if q > 0 {
      var p: nat, k: nat :| Names(fs, p, k, q);
      EntryOk(fs, n, p, k, q);
      DirInUse(fs, n, p);
      assert fs.inodes[q].entries[1].inodeNo == p;
      assert Names(fs, fs.inodes[q].entries[1].inodeNo, k, q);
    }
  }

  /** The entries of a directory, dots included, name inodes in use. */
  lemma EntriesUsed(fs: Fs, n: nat, q: nat, k: nat)
    requires Tree(fs, n) && q < n && fs.inodes[q].kind == DIR && k < NR_DIRDATA && fs.inodes[q].entries[k].filename != ""
    ensures fs.inodes[q].entries[k].inodeNo < n && fs.inuse[fs.inodes[q].entries[k].inodeNo]
  {
    hide Tree, DirOk;
    TreeShaped(fs, n);
    DirInUse(fs, n, q);
    UpInside(fs, n, q);
    if k >= 2 {
      EntryOk(fs, n, q, k, fs.inodes[q].entries[k].inodeNo);
    }
  }

  /** An entry of a tree names no inode that is free, and inodes in use keep their type. */
  lemma MatchesKept(fs: Fs, n: nat, c: nat, p: nat, name: string, child: Inode, q: nat, look: string, kind: FileType)
    requires Room(fs, n, c, p, name, child)
    requires q < n && fs.inodes[q].kind == DIR
    ensures var g := Grown(fs, c, p, name, child); forall k :: 0 <= k < NR_DIRDATA ==>
      Matches(g, fs.inodes[q].entries[k], look, kind) == Matches(fs, fs.inodes[q].entries[k], look, kind)
  {
    GrownEntries(fs, n, c, p, name, child);
    var es := fs.inodes[q].entries;
    forall k | 0 <= k < NR_DIRDATA && es[k].filename != ""
      ensures es[k].inodeNo < n && es[k].inodeNo != c
    {
      EntriesUsed(fs, n, q, k);
    }
  }

  /** The matches in an old directory are what they were, with the new entry inserted in p. */
  lemma AllGrown(fs: Fs, n: nat, c: nat, p: nat, name: string, child: Inode, q: nat, look: string, kind: FileType)
    requires Room(fs, n, c, p, name, child)
    requires q < n && fs.inodes[q].kind == DIR
    ensures q < |Grown(fs, c, p, name, child).inodes| && Before(fs, p, name, child.kind) <= |All(fs, fs.inodes[p].entries, name, child.kind)|
    ensures All(Grown(fs, c, p, name, child), Grown(fs, c, p, name, child).inodes[q].entries, look, kind) ==
      if q == p && look == name && kind == child.kind then Insert(All(fs, fs.inodes[p].entries, name, kind), Before(fs, p, name, kind), c)
      else All(fs, fs.inodes[q].entries, look, kind)
  {
    hide Tree, All, Grown;
    TreeShaped(fs, n);
    GrownEntries(fs, n, c, p, name, child);
    MatchesKept(fs, n, c, p, name, child, q, look, kind);
    MatchesKept(fs, n, c, p, name, child, p, name, child.kind);
    DirInUse(fs, n, q);
    var g := Grown(fs, c, p, name, child);
    AllFilled(fs, g, fs.inodes[p].entries, FreeSlot(fs.inodes[p].entries), DirEntry(c, name), name, child.kind);
    if q == p {
      AllFilled(fs, g, fs.inodes[p].entries, FreeSlot(fs.inodes[p].entries), DirEntry(c, name), look, kind);
    } else {
      AllSame(fs, g, fs.inodes[q].entries, look, kind);
    }
  }

  /** What is found in an old directory: the new entry, if it stands in front of all others of its name and type. */
  lemma FindGrown(fs: Fs, n: nat, c: nat, p: nat, name: string, child: Inode, q: nat, look: string, kind: FileType)
    requires Room(fs, n, c, p, name, child)
    requires q < n && fs.inodes[q].kind == DIR
    ensures FindIn(Grown(fs, c, p, name, child), q, look, kind) ==
      if q == p && look == name && kind == child.kind && Before(fs, p, name, kind) == 0 then Some(c) else FindIn(fs, q, look, kind)
  {
    hide Tree, All, Grown, Find, Before;
    TreeShaped(fs, n);
    GrownEntries(fs, n, c, p, name, child);
    AllGrown(fs, n, c, p, name, child, q, look, kind);
    FindIsHead(Grown(fs, c, p, name, child), Grown(fs, c, p, name, child).inodes[q].entries, look, kind);
    FindIsHead(fs, fs.inodes[q].entries, look, kind);
  }

  /** The new directory holds its two dot entries and nothing else. */
  lemma AllInNew(fs: Fs, n: nat, c: nat, p: nat, name: string, child: Inode, look: string, kind: FileType)
    requires Room(fs, n, c, p, name, child) && child.kind == DIR
    ensures All(Grown(fs, c, p, name, child), child.entries, look, kind) ==
      if kind == DIR && look == "." then [c] else if kind == DIR && look == ".." then [p] else []
    ensures Shaped(Grown(fs, c, p, name, child)) && Grown(fs, c, p, name, child).inodes[c] == child
  {
    hide Tree, Grown, Before, All;
    TreeShaped(fs, n);
    DirInUse(fs, n, p);
    GrownEntries(fs, n, c, p, name, child);
    AllDots(Grown(fs, c, p, name, child), child, c, p, look, kind);
  }

  lemma AllDots(g: Fs, d: Inode, c: nat, p: nat, look: string, kind: FileType)
    requires EmptyDir(d, c, p) && c < |g.inodes| && p < |g.inodes| && g.inodes[c].kind == DIR && g.inodes[p].kind == DIR
    ensures All(g, d.entries, look, kind) == if kind == DIR && look == "." then [c] else if kind == DIR && look == ".." then [p] else []
  {
    hide Find;
    var es := d.entries;
    forall k | 0 <= k < |es[2..]|
      ensures !Matches(g, es[2..][k], look, kind)
    {
    }
    AllNone(g, es[2..], look, kind);
    assert es == [es[0]] + es[1..] && es[1..] == [es[1]] + es[2..];
  }

  /** The new directory hides whatever was reached through its name. */
  ghost predicate Hides(fs: Fs, p: nat, name: string, child: Inode)
    requires p < |fs.inodes|
  {
    child.kind == DIR && Before(fs, p, name, DIR) == 0
  }

  /**
   Walks after a creation in the directory that route leads to.  A new directory that comes first is where
   its name leads, and nothing is behind it; all other walks are as before.
   */
  lemma {:induction false} WalkGrown(fs: Fs, n: nat, c: nat, p: nat, name: string, child: Inode, route: seq<string>, dirs: seq<string>)
    requires Room(fs, n, c, p, name, child) && DirNames(dirs) && DirNames(route) && Walk(fs, route) == Some(p)
    ensures Walk(Grown(fs, c, p, name, child), dirs) ==
      if Hides(fs, p, name, child) && route + [name] == dirs then Some(c)
      else if Hides(fs, p, name, child) && route + [name] <= dirs then None
      else Walk(fs, dirs)
  {
    hide Tree, Find, Grown, Before;
    TreeShaped(fs, n);
    GrownEntries(fs, n, c, p, name, child);
    if dirs != [] {
      var front, d := dirs[..|dirs| - 1], dirs[|dirs| - 1];
      WalkGrown(fs, n, c, p, name, child, route, front);
      var g := Grown(fs, c, p, name, child);
      assert dirs == front + [d] && d != "." && d != "..";
      if Hides(fs, p, name, child) && route + [name] <= front {
        PrefixMore(route + [name], front, d);
        if front == route + [name] {
          AllInNew(fs, n, c, p, name, child, d, DIR);
          FindIsHead(g, child.entries, d, DIR);
        }
      } else if Walk(fs, front).Some? {
        WalkIn(fs, n, front);
        FindGrown(fs, n, c, p, name, child, Walk(fs, front).value, d, DIR);
        if Walk(fs, front) == Some(p) {
          WalkInjective(fs, n, front, route);
        }
        ExtendsRoute(route, name, front, d);
      } else {
        ExtendsRoute(route, name, front, d);
      }
    }
  }

  lemma PrefixMore(r: seq<string>, front: seq<string>, d: string)
    requires r <= front
    ensures r <= front + [d] && r != front + [d]
  {
    assert |r| < |front + [d]|;
  }

  lemma ExtendsRoute(route: seq<string>, name: string, front: seq<string>, d: string)
    ensures route + [name] <= front + [d] <==> route + [name] <= front || (route == front && name == d)
    ensures route + [name] == front + [d] <==> route == front && name == d
  {
    var r, f := route + [name], front + [d];
    assert r[|route|] == name && r[..|route|] == route && f[|front|] == d && f[..|front|] == front;
    if |r| <= |front| {
      assert f[..|r|] == front[..|r|];
    }
  }
}
