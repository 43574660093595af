/** rmFL: the removed path is gone, every other path stays, and filenum counts one entry too many. */
module FsRemoval {
  import opened Seqs
  import opened Paths
  import opened FsModel
  import opened FsTree
  import opened FsGrowth
  import opened FsPaths

  lemma AllWithout(fs: Fs, g: Fs, es: seq<DirEntry>, k: nat, look: string, kind: FileType)
    requires k < |es| && forall e :: Matches(g, e, look, kind) == Matches(fs, e, look, kind)
    ensures All(g, es[k := DirEntry(0, "")], look, kind) == All(fs, es[..k], look, kind) + All(fs, es[k + 1..], look, kind)
  {
    assert !Matches(g, DirEntry(0, ""), look, kind);
    hide All, Matches;
    var es2 := es[k := DirEntry(0, "")];
    AllAround(g, es2, k, look, kind);
    assert es2[..k] == es[..k] && es2[k + 1..] == es[k + 1..];
    AllSame(fs, g, es[..k], look, kind);
    AllSame(fs, g, es[k + 1..], look, kind);
  }

  /** Emptying an entry takes its inode from the matches if no other stands in front of it. */
  lemma AllEmptied(fs: Fs, g: Fs, es: seq<DirEntry>, k: nat, look: string, kind: FileType)
    requires k < |es|
    requires forall e :: Matches(g, e, look, kind) == Matches(fs, e, look, kind)
    requires Matches(fs, es[k], look, kind) ==> forall j :: 0 <= j < k ==> !Matches(fs, es[j], look, kind)
    ensures Matches(fs, es[k], look, kind) ==> All(fs, es, look, kind) != [] && All(fs, es, look, kind)[0] == es[k].inodeNo
    ensures All(g, es[k := DirEntry(0, "")], look, kind) ==
      if Matches(fs, es[k], look, kind) then All(fs, es, look, kind)[1..] else All(fs, es, look, kind)
  {
    hide All, Matches;
    AllWithout(fs, g, es, k, look, kind);
    AllAround(fs, es, k, look, kind);
    if Matches(fs, es[k], look, kind) {
      AllNone(fs, es[..k], look, kind);
    }
  }

  lemma CountEmptied(es: seq<DirEntry>, k: nat)
    requires k < |es| && es[k].filename != ""
    ensures Count(es[k := DirEntry(0, "")]) == Count(es) - 1
  {
    var front := es[..|es| - 1];
    if k == |es| - 1 {
      assert es[k := DirEntry(0, "")][..|es| - 1] == front;
    } else {
      assert es[k := DirEntry(0, "")][..|es| - 1] == front[k := DirEntry(0, "")];
      CountEmptied(front, k);
    }
  }

  /** Entry k of directory p is the first with its name, and names file c. */
  ghost predicate FileEntry(fs: Fs, n: nat, p: nat, k: nat, c: nat) {
    && Tree(fs, n) && Names(fs, p, k, c) && c < NR_INODE && fs.inodes[c].kind == FL
    && forall j :: 0 <= j < k ==> fs.inodes[p].entries[j].filename != fs.inodes[p].entries[k].filename
  }

  function Removed(fs: Fs, p: nat, k: nat, c: nat): Fs
    requires Shaped(fs) && p < NR_INODE && c < NR_INODE && k < NR_DIRDATA
  {
    var d := fs.inodes[p];
    Fs(fs.inuse[c := false], fs.inodes[p := d.(entries := d.entries[k := DirEntry(0, "")])])
  }

  lemma RemovedInodes(fs: Fs, p: nat, k: nat, c: nat)
    requires Shaped(fs) && p < NR_INODE && c < NR_INODE && k < NR_DIRDATA
    ensures var g := Removed(fs, p, k, c);
      && Shaped(g) && g.inodes[p] == fs.inodes[p].(entries := fs.inodes[p].entries[k := DirEntry(0, "")])
      && (forall i :: 0 <= i < NR_INODE && i != p ==> g.inodes[i] == fs.inodes[i])
      && forall i :: 0 <= i < NR_INODE ==> g.inuse[i] == (fs.inuse[i] && i != c)
  {
  }

  /** rmFL searches the directory by name alone; a name has one type, so it empties the entry that was found. */
  lemma UnnameRemoves(fs: Fs, n: nat, p: nat, k: nat, c: nat)
    requires FileEntry(fs, n, p, k, c)
    ensures EntryNamed(fs.inodes[p].entries, fs.inodes[c].filename) == k && fs.inodes[c].filename != ""
    ensures Unname(fs, p, c) == Removed(fs, p, k, c)
  {
    EntryOk(fs, n, p, k, c);
    hide Tree;
    var j := EntryNamed(fs.inodes[p].entries, fs.inodes[c].filename);
  }

  lemma RemovedNames(fs: Fs, n: nat, p: nat, k: nat, c: nat, q: nat, j: nat, x: nat)
    requires FileEntry(fs, n, p, k, c)
    ensures Shaped(Removed(fs, p, k, c))
    ensures Names(Removed(fs, p, k, c), q, j, x) <==> Names(fs, q, j, x) && !(q == p && j == k)
    ensures Names(fs, q, j, x) && !(q == p && j == k) ==> x != c
  {
  }

  lemma RemovedDirOk(fs: Fs, n: nat, p: nat, k: nat, c: nat, q: nat)
    requires FileEntry(fs, n, p, k, c) && q < n && fs.inodes[q].kind == DIR
    ensures Shaped(Removed(fs, p, k, c)) && DirOk(Removed(fs, p, k, c), n, q)
  {
    var g := Removed(fs, p, k, c);
    assert DirOk(fs, n, q);
    hide Tree, Count, Removed;
    TreeShaped(fs, n);
    RemovedInodes(fs, p, k, c);
    if q == p {
      CountEmptied(fs.inodes[p].entries, k);
    }
    hide ChildOk;
    forall j | 2 <= j < NR_DIRDATA && g.inodes[q].entries[j].filename != ""
      ensures ChildOk(g, n, q, g.inodes[q].entries[j])
    {
      assert g.inodes[q].entries[j] == fs.inodes[q].entries[j];
      RemovedNames(fs, n, p, k, c, q, j, fs.inodes[q].entries[j].inodeNo);
      assert Names(fs, q, j, fs.inodes[q].entries[j].inodeNo);
      RemovedChildOk(fs, n, p, k, c, q, fs.inodes[q].entries[j]);
    }
  }

  lemma RemovedChildOk(fs: Fs, n: nat, p: nat, k: nat, c: nat, q: nat, e: DirEntry)
    requires FileEntry(fs, n, p, k, c) && ChildOk(fs, n, q, e) && e.inodeNo != c
    ensures Shaped(Removed(fs, p, k, c)) && ChildOk(Removed(fs, p, k, c), n, q, e)
  {
    hide Tree, Removed, Count;
    TreeShaped(fs, n);
    RemovedInodes(fs, p, k, c);
  }

  lemma RemovedNamed(fs: Fs, n: nat, p: nat, k: nat, c: nat, x: nat)
    requires FileEntry(fs, n, p, k, c) && x != c && Named(fs, x)
    ensures Shaped(Removed(fs, p, k, c)) && Named(Removed(fs, p, k, c), x)
  {
    hide Tree, Removed;
    TreeShaped(fs, n);
    var q: nat, j: nat :| Names(fs, q, j, x);
    RemovedNames(fs, n, p, k, c, q, j, x);
    assert Names(Removed(fs, p, k, c), q, j, x);
  }

  lemma RemovedOnce(fs: Fs, n: nat, p: nat, k: nat, c: nat, q: nat, j: nat, r: nat, i: nat, x: nat)
    requires FileEntry(fs, n, p, k, c) && Shaped(Removed(fs, p, k, c))
    requires Names(Removed(fs, p, k, c), q, j, x) && Names(Removed(fs, p, k, c), r, i, x)
    ensures q == r && j == i
  {
    hide Tree, Removed;
    RemovedNames(fs, n, p, k, c, q, j, x);
    RemovedNames(fs, n, p, k, c, r, i, x);
    OneName(fs, n, q, j, r, i, x);
  }

  lemma RemovedRanked(fs: Fs, n: nat, p: nat, k: nat, c: nat) returns (rank: seq<nat>)
    requires FileEntry(fs, n, p, k, c)
    ensures Shaped(Removed(fs, p, k, c)) && Ranked(Removed(fs, p, k, c), rank)
  {
    hide Tree, Removed;
    TreeShaped(fs, n);
    RemovedInodes(fs, p, k, c);
    rank := Ranks(fs, n);
    var g := Removed(fs, p, k, c);
    forall q: nat, j: nat, x: nat | Names(g, q, j, x) && x < NR_INODE && g.inodes[x].kind == DIR
      ensures rank[q] < rank[x]
    {
      RemovedNames(fs, n, p, k, c, q, j, x);
    }
  }

  lemma RemovedTree(fs: Fs, n: nat, p: nat, k: nat, c: nat)
    requires FileEntry(fs, n, p, k, c)
    ensures Tree(Removed(fs, p, k, c), n)
  {
    hide DirOk, ChildOk, Named, Ranked;
    var g := Removed(fs, p, k, c);
    RemovedNames(fs, n, p, k, c, p, k, c);
    var rank := RemovedRanked(fs, n, p, k, c);
    forall q | 0 <= q < n && g.inodes[q].kind == DIR
      ensures DirOk(g, n, q)
    {
      RemovedDirOk(fs, n, p, k, c, q);
    }
    forall x | 0 < x < n && g.inuse[x]
      ensures Named(g, x)
    {
      RemovedNamed(fs, n, p, k, c, x);
    }
    forall q: nat, j: nat, r: nat, i: nat, x: nat | Names(g, q, j, x) && Names(g, r, i, x)
      ensures q == r && j == i
    {
      RemovedOnce(fs, n, p, k, c, q, j, r, i, x);
    }
  }

  lemma AllRemoved(fs: Fs, n: nat, p: nat, k: nat, c: nat, q: nat, look: string, kind: FileType)
    requires FileEntry(fs, n, p, k, c) && q < NR_INODE && fs.inodes[q].kind == DIR
    ensures Shaped(Removed(fs, p, k, c)) && All(fs, fs.inodes[p].entries, fs.inodes[c].filename, FL) != []
    ensures All(fs, fs.inodes[p].entries, fs.inodes[c].filename, FL)[0] == c
    ensures All(Removed(fs, p, k, c), Removed(fs, p, k, c).inodes[q].entries, look, kind) ==
      if q == p && look == fs.inodes[c].filename && kind == FL then All(fs, fs.inodes[p].entries, look, kind)[1..]
      else All(fs, fs.inodes[q].entries, look, kind)
  {
    EntryOk(fs, n, p, k, c);
    TreeShaped(fs, n);
    hide Tree, All, Removed;
    RemovedInodes(fs, p, k, c);
    var g := Removed(fs, p, k, c);
    assert forall e :: Matches(g, e, look, kind) == Matches(fs, e, look, kind);
    assert forall e :: Matches(g, e, fs.inodes[c].filename, FL) == Matches(fs, e, fs.inodes[c].filename, FL);
    AllEmptied(fs, g, fs.inodes[p].entries, k, fs.inodes[c].filename, FL);
    if q == p {
      AllEmptied(fs, g, fs.inodes[p].entries, k, look, kind);
    } else {
      AllSame(fs, g, fs.inodes[q].entries, look, kind);
    }
  }

  lemma {:induction false} WalkRemoved(fs: Fs, n: nat, p: nat, k: nat, c: nat, dirs: seq<string>)
    requires FileEntry(fs, n, p, k, c) && DirNames(dirs)
    ensures Walk(Removed(fs, p, k, c), dirs) == Walk(fs, dirs)
  {
    hide Tree, Find, All, Removed;
    TreeShaped(fs, n);
    RemovedInodes(fs, p, k, c);
    if dirs != [] {
      WalkRemoved(fs, n, p, k, c, dirs[..|dirs| - 1]);
      if Walk(fs, dirs[..|dirs| - 1]).Some? {
        WalkIn(fs, n, dirs[..|dirs| - 1]);
        var q, d := Walk(fs, dirs[..|dirs| - 1]).value, dirs[|dirs| - 1];
        AllRemoved(fs, n, p, k, c, q, d, DIR);
        FindIsHead(fs, fs.inodes[q].entries, d, DIR);
        FindIsHead(Removed(fs, p, k, c), Removed(fs, p, k, c).inodes[q].entries, d, DIR);
      }
    }
  }

  /** What rmFL(path) needs: the file, and an entry with its name in the directory the path leads to. */
  ghost predicate CanRemove(fs: Fs, path: string) {
    && |fs.inodes| > 0 && SLASH in path && Lookup(fs, path, FL).Some? && Lookup(fs, path, FL).value < |fs.inuse|
    && var p, c := Walk(fs, Parents(path)).value, Lookup(fs, path, FL).value;
      EntryNamed(fs.inodes[p].entries, fs.inodes[c].filename) < |fs.inodes[p].entries|
  }

  /** What rmFL(path) leaves. */
  ghost function WithoutFL(fs: Fs, path: string): Fs
    requires CanRemove(fs, path)
  {
    Unname(fs, Walk(fs, Parents(path)).value, Lookup(fs, path, FL).value)
  }

  /** A name with a type has that type only. */
  lemma KindOfName(name: string, kind: FileType, other: FileType)
    requires NameOk(name, kind) && NameOk(name, other) && kind != UNUSED && other != UNUSED
    ensures kind == other
  {
    assert kind == DIR || other == DIR ==> name[|name| - 1] == SLASH;
  }

  lemma {:induction false} FindFirst(fs: Fs, es: seq<DirEntry>, k: nat, name: string, kind: FileType)
    requires k < |es| && Matches(fs, es[k], name, kind) && forall j :: 0 <= j < k ==> es[j].filename != name
    ensures Find(fs, es, name, kind) == Some(es[k].inodeNo)
  {
    if k > 0 {
      FindFirst(fs, es[1..], k - 1, name, kind);
    }
  }

  /** A file found by its path has the first entry of its name in the directory its parents lead to. */
  lemma FoundEntry(fs: Fs, n: nat, path: string) returns (p: nat, k: nat, c: nat)
    requires Tree(fs, n) && Proper(path) && Lookup(fs, path, FL).Some?
    ensures Walk(fs, Parents(path)) == Some(p) && Lookup(fs, path, FL) == Some(c)
    ensures FileEntry(fs, n, p, k, c) && fs.inodes[c].filename == Base(path)
    ensures CanRemove(fs, path) && WithoutFL(fs, path) == Removed(fs, p, k, c)
  {
    hide Tree, Dirs, LastName, Find;
    TreeShaped(fs, n);
    ProperParts(path, path);
    WalkIn(fs, n, Parents(path));
    p, c := Walk(fs, Parents(path)).value, Lookup(fs, path, FL).value;
    k := FrontEntry(fs, n, p, Base(path), c);
    UnnameRemoves(fs, n, p, k, c);
  }

  lemma FrontEntry(fs: Fs, n: nat, p: nat, name: string, c: nat) returns (k: nat)
    requires Tree(fs, n) && p < n && fs.inodes[p].kind == DIR && name != "." && name != ".." && FindIn(fs, p, name, FL) == Some(c)
    ensures FileEntry(fs, n, p, k, c) && fs.inodes[c].filename == name
  {
    hide Tree, Find;
    TreeShaped(fs, n);
    DirInUse(fs, n, p);
    var es := fs.inodes[p].entries;
    var j := FindMeans(fs, n, p, name, FL);
    EntryOk(fs, n, p, j, c);
    k := EntryNamed(es, name);
    assert k <= j && es[k].filename == name;
    var x := es[k].inodeNo;
    EntryOk(fs, n, p, k, x);
    KindOfName(name, fs.inodes[x].kind, FL);
    FindFirst(fs, es, k, name, FL);
  }

  lemma RemovedDistinct(fs: Fs, n: nat, p: nat, k: nat, c: nat)
    requires FileEntry(fs, n, p, k, c) && Distinct(fs)
    ensures Distinct(Removed(fs, p, k, c))
  {
    hide Tree, Removed;
    TreeShaped(fs, n);
    RemovedInodes(fs, p, k, c);
  }

  /** All paths after a removal: the path removed stands for the next of its inodes, if it has one. */
  lemma CopiesRemoved(fs: Fs, n: nat, path: string, p: nat, k: nat, c: nat, q: string, kind: FileType)
    requires Proper(path) && Absolute(q) && |fs.inodes| > 0 && Walk(fs, Parents(path)) == Some(p)
    requires FileEntry(fs, n, p, k, c) && fs.inodes[c].filename == Base(path)
    ensures Shaped(Removed(fs, p, k, c)) && Copies(fs, path, FL) != []
    ensures Copies(Removed(fs, p, k, c), q, kind) == if q == path && kind == FL then Copies(fs, path, FL)[1..] else Copies(fs, q, kind)
  {
    hide Tree, Walk, All, Removed, Dirs, LastName;
    TreeShaped(fs, n);
    RemovedInodes(fs, p, k, c);
    ProperParts(q, path);
    ProperParts(path, q);
    WalkRemoved(fs, n, p, k, c, Parents(q));
    AllRemoved(fs, n, p, k, c, p, Base(path), FL);
    if Walk(fs, Parents(q)).Some? {
      WalkIn(fs, n, Parents(q));
      AllRemoved(fs, n, p, k, c, Walk(fs, Parents(q)).value, Base(q), kind);
      if Walk(fs, Parents(q)) == Some(p) {
        WalkInjective(fs, n, Parents(q), Parents(path));
      }
    }
  }

  /** rmFL of a file that exists: its path loses the inode found and no other path changes. */
  lemma RemoveStep(fs: Fs, n: nat, path: string)
    requires Tree(fs, n) && Proper(path) && Lookup(fs, path, FL).Some?
    ensures CanRemove(fs, path) && Tree(WithoutFL(fs, path), n) && (Distinct(fs) ==> Distinct(WithoutFL(fs, path)))
    ensures |fs.inodes| > 0 && |WithoutFL(fs, path).inodes| > 0 && Copies(fs, path, FL) != []
    ensures forall q, kind :: Absolute(q) ==>
      Copies(WithoutFL(fs, path), q, kind) == if q == path && kind == FL then Copies(fs, path, FL)[1..] else Copies(fs, q, kind)
  {
    hide Tree, Distinct, Lookup, Copies;
    var p, k, c := FoundEntry(fs, n, path);
    RemovedTree(fs, n, p, k, c);
    if Distinct(fs) {
      RemovedDistinct(fs, n, p, k, c);
    }
    TreeShaped(fs, n);
    TreeShaped(WithoutFL(fs, path), n);
    CopiesRemoved(fs, n, path, p, k, c, path, FL);
    forall q, kind | Absolute(q)
      ensures Copies(WithoutFL(fs, path), q, kind) == if q == path && kind == FL then Copies(fs, path, FL)[1..] else Copies(fs, q, kind)
    {
      CopiesRemoved(fs, n, path, p, k, c, q, kind);
    }
  }

  lemma RemovedElsewhere(fs: Fs, n: nat, path: string, q: string, kind: FileType)
    requires Tree(fs, n) && Proper(path) && |fs.inodes| > 0 && SLASH in path && Lookup(fs, path, FL).Some?
    requires Absolute(q) && !(q == path && kind == FL)
    ensures CanRemove(fs, path) && |WithoutFL(fs, path).inodes| > 0 && Lookup(WithoutFL(fs, path), q, kind) == Lookup(fs, q, kind)
  {
    hide Tree, Lookup, Copies, WithoutFL, Dirs, LastName, CanRemove;
    RemoveStep(fs, n, path);
    LookupIsHead(fs, q, kind);
    LookupIsHead(WithoutFL(fs, path), q, kind);
  }

  lemma {:induction false} AllOnce(fs: Fs, es: seq<DirEntry>, name: string, kind: FileType)
    requires forall j, k :: 0 <= j < k < |es| ==> es[j].filename != es[k].filename || es[j].filename == ""
    ensures |All(fs, es, name, kind)| <= 1
  {
    if es != [] {
      AllOnce(fs, es[1..], name, kind);
      if Matches(fs, es[0], name, kind) {
        AllNone(fs, es[1..], name, kind);
      }
    }
  }

  /** Where names differ a path stands for one inode at most. */
  lemma DistinctOnce(fs: Fs, n: nat, q: string, kind: FileType)
    requires Tree(fs, n) && Distinct(fs) && Absolute(q)
    ensures |fs.inodes| > 0 && |Copies(fs, q, kind)| <= 1
  {
    hide Tree, Walk, Dirs, LastName;
    TreeShaped(fs, n);
    ProperParts(q, q);
    if Walk(fs, Parents(q)).Some? {
      WalkIn(fs, n, Parents(q));
      AllOnce(fs, fs.inodes[Walk(fs, Parents(q)).value].entries, Base(q), kind);
    }
  }

  /** filenum stays as it was in every directory, while the one the file was in has an entry less. */
  lemma RemovedCounts(fs: Fs, n: nat, path: string, q: nat)
    requires Tree(fs, n) && Proper(path) && Lookup(fs, path, FL).Some?
    requires q < NR_INODE
    ensures CanRemove(fs, path) && |WithoutFL(fs, path).inodes| == NR_INODE
    ensures var d := WithoutFL(fs, path).inodes[q];
      && d.kind == fs.inodes[q].kind && d.size == fs.inodes[q].size
      && Count(d.entries) == Count(fs.inodes[q].entries) - (if Walk(fs, Parents(path)) == Some(q) then 1 else 0)
    ensures Walk(fs, Parents(path)) == Some(q) ==> fs.inodes[q].kind == DIR
  {
    var p, k, c := FoundEntry(fs, n, path);
    hide Tree, Walk, Lookup;
    CountEmptied(fs.inodes[p].entries, k);
  }
}
