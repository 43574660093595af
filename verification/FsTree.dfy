/** The directory graph built by creations is a tree, and names of paths are unique in it. */
module FsTree {
  import opened Seqs
  import opened Paths
  import opened FsModel

  /** A component as it is stored: a directory ends with its only slash, a file has none. */
  predicate NameOk(name: string, kind: FileType) {
    && 0 < |name| < MAX_FILENAME_LEN
    && (kind == DIR ==> IsDirName(name))
    && (kind == FL ==> SLASH !in name && name != "." && name != "..")
  }

  /** Entry k of directory p names inode c, dot entries aside. */
  ghost predicate Names(fs: Fs, p: nat, k: nat, c: nat)
    requires Shaped(fs)
  {
    && p < NR_INODE && fs.inuse[p] && fs.inodes[p].kind == DIR
    && 2 <= k < NR_DIRDATA && fs.inodes[p].entries[k].filename != ""
    && fs.inodes[p].entries[k].inodeNo == c
  }

  ghost predicate Named(fs: Fs, c: nat)
    requires Shaped(fs)
  {
    exists p, k :: Names(fs, p, k, c)
  }

  /** An entry names an inode in use by the name stored there, and ".." of a directory leads back. */
  ghost predicate ChildOk(fs: Fs, n: nat, p: nat, e: DirEntry)
    requires Shaped(fs)
  {
    && 0 < e.inodeNo < n <= NR_INODE && fs.inuse[e.inodeNo]
    && NameOk(e.filename, fs.inodes[e.inodeNo].kind)
    && fs.inodes[e.inodeNo].filename == e.filename
    && (fs.inodes[e.inodeNo].kind == DIR ==> fs.inodes[e.inodeNo].entries[1].inodeNo == p)
  }

  ghost predicate DirOk(fs: Fs, n: nat, p: nat)
    requires Shaped(fs) && p < NR_INODE
  {
    var d := fs.inodes[p];
    && fs.inuse[p] && Count(d.entries) <= d.size
    && d.entries[0] == DirEntry(p, ".") && d.entries[1].filename == ".."
    && forall k :: 2 <= k < NR_DIRDATA && d.entries[k].filename != "" ==> ChildOk(fs, n, p, d.entries[k])
  }

  /** Every directory ranks behind the one that names it: there is no cycle. */
  ghost predicate Ranked(fs: Fs, rank: seq<nat>)
    requires Shaped(fs)
  {
    |rank| == NR_INODE && forall p: nat, k: nat, c: nat :: Names(fs, p, k, c) && c < NR_INODE && fs.inodes[c].kind == DIR ==> rank[p] < rank[c]
  }

  /**
   The inodes in use form a tree with root 0, in which each is named by exactly one entry.  Inodes from
   n on have never been used; one below n that is not in use was a file.
   */
  ghost predicate Tree(fs: Fs, n: nat) {
    && Shaped(fs) && 0 < n <= NR_INODE
    && (forall i :: n <= i < NR_INODE ==> !fs.inuse[i] && Blank(fs.inodes[i]))
    && (forall i :: 0 <= i < n ==> fs.inodes[i].kind != UNUSED)
    && fs.inodes[0].kind == DIR && fs.inodes[0].entries[1].inodeNo == 0
    && (forall p :: 0 <= p < n && fs.inodes[p].kind == DIR ==> DirOk(fs, n, p))
    && (forall c :: 0 < c < n && fs.inuse[c] ==> Named(fs, c))
    && (exists rank :: Ranked(fs, rank))
    && forall p, k, q, j, c :: Names(fs, p, k, c) && Names(fs, q, j, c) ==> p == q && k == j
  }

  /** No directory has a name twice. */
  ghost predicate Distinct(fs: Fs) {
    Shaped(fs) && forall p, j, k :: 0 <= p < NR_INODE && fs.inodes[p].kind == DIR && 0 <= j < k < NR_DIRDATA ==>
      fs.inodes[p].entries[j].filename != fs.inodes[p].entries[k].filename || fs.inodes[p].entries[j].filename == ""
  }

  /** The entries in use are the first filenum ones. */
  ghost predicate Packed(fs: Fs) {
    && Shaped(fs)
    && (forall p :: 0 <= p < NR_INODE && fs.inodes[p].kind == DIR ==> fs.inodes[p].size <= NR_DIRDATA)
    && forall p, k :: 0 <= p < NR_INODE && fs.inodes[p].kind == DIR && 0 <= k < NR_DIRDATA ==>
      (fs.inodes[p].entries[k].filename != "" <==> k < fs.inodes[p].size)
  }

  lemma TreeShaped(fs: Fs, n: nat)
    requires Tree(fs, n)
    ensures Shaped(fs) && 0 < n <= NR_INODE && fs.inodes[0].kind == DIR
  {
  }

  /** A block can become a directory without old bytes showing through: no name would be there behind the dots. */
  predicate CleanBlock(i: Inode) {
    |i.data| == MAX_FILE_SZ && forall k :: 2 <= k < NR_DIRDATA ==> NameByte(i.data, k) == NUL_BYTE
  }

  /** The first byte of the name in record k. */
  function NameByte(data: seq<Byte>, k: nat): Byte
    requires |data| == MAX_FILE_SZ && k < NR_DIRDATA
  {
    data[RECORD * k + 4]
  }

  /** A directory that holds its dots and nothing else. */
  ghost predicate EmptyDir(d: Inode, c: nat, p: nat) {
    && d.size == 2 && |d.entries| == NR_DIRDATA
    && d.entries[0] == DirEntry(c, ".") && d.entries[1] == DirEntry(p, "..")
    && forall k :: 2 <= k < NR_DIRDATA ==> d.entries[k].filename == ""
  }

  lemma OverlayName(data: seq<Byte>, k: nat)
    requires |data| == MAX_FILE_SZ && k < NR_DIRDATA
    ensures Overlay(data)[k].filename == "" <==> NameByte(data, k) == NUL_BYTE
  {
    assert data[RECORD * k + 4..][0] == data[RECORD * k + 4];
  }

  /** A new directory is empty exactly when its inode's old block has a zero byte where each name would start. */
  lemma EmptyExactlyClean(i: Inode, c: nat, p: nat, name: string)
    requires |i.data| == MAX_FILE_SZ
    ensures EmptyDir(AsDir(i, c, p, name), c, p) <==> CleanBlock(i)
  {
    hide Overlay, NameByte;
    var d := AsDir(i, c, p, name);
    forall k | 2 <= k < NR_DIRDATA
      ensures d.entries[k].filename == "" <==> NameByte(i.data, k) == NUL_BYTE
    {
      OverlayName(i.data, k);
    }
  }

  lemma BlankClean(i: Inode)
    requires Blank(i)
    ensures CleanBlock(i)
  {
  }

  lemma FormattedTree(fs: Fs)
    requires Formatted(fs)
    ensures Tree(fs, 1) && Distinct(fs) && Packed(fs)
  {
    RootEmpty(fs);
    hide Overlay;
    CountPrefix(fs.inodes[0].entries, 2);
    assert Ranked(fs, seq(NR_INODE, _ => 0));
  }

  lemma RootEmpty(fs: Fs)
    requires Formatted(fs)
    ensures EmptyDir(fs.inodes[0], 0, 0)
  {
    var b: Inode :| Blank(b) && fs.inodes[0] == AsDir(b, 0, 0, "/");
    BlankClean(b);
    EmptyExactlyClean(b, 0, 0, "/");
  }

  lemma {:induction false} CountPrefix(es: seq<DirEntry>, m: nat)
    requires m <= |es| && forall k :: 0 <= k < |es| ==> (es[k].filename != "" <==> k < m)
    ensures Count(es) == m
  {
    if es != [] {
      var front := es[..|es| - 1];
      CountPrefix(front, if m == |es| then m - 1 else m);
    }
  }

  // ---------------------------------------------------------------- finding in a tree

  lemma EntryOk(fs: Fs, n: nat, p: nat, k: nat, c: nat)
    requires Tree(fs, n) && Names(fs, p, k, c)
    ensures p < n && ChildOk(fs, n, p, fs.inodes[p].entries[k]) && c < n && fs.inodes[c].kind != UNUSED
  {
    assert DirOk(fs, n, p);
  }

  lemma InUseNamed(fs: Fs, n: nat, c: nat)
    requires Tree(fs, n) && 0 < c < n && fs.inuse[c]
    ensures Named(fs, c)
  {
  }

  lemma DirInUse(fs: Fs, n: nat, p: nat)
    requires Tree(fs, n) && p < n && fs.inodes[p].kind == DIR
    ensures fs.inuse[p] && fs.inodes[p].entries[0] == DirEntry(p, ".") && fs.inodes[p].entries[1].filename == ".."
    ensures p == 0 ==> fs.inodes[p].entries[1].inodeNo == 0
    ensures p > 0 ==> Named(fs, p)
  {
    assert DirOk(fs, n, p);
  }

  /** When names differ a name and a type determine the entry. */
  lemma FindHits(fs: Fs, n: nat, p: nat, k: nat)
    requires Tree(fs, n) && Distinct(fs) && p < n && fs.inodes[p].kind == DIR
    requires 2 <= k < NR_DIRDATA && fs.inodes[p].entries[k].filename != ""
    ensures var e := fs.inodes[p].entries[k];
      e.inodeNo < NR_INODE && FindIn(fs, p, e.filename, fs.inodes[e.inodeNo].kind) == Some(e.inodeNo)
  {
    hide Tree, Find, Distinct, NameOk;
    TreeShaped(fs, n);
    EntryIsChild(fs, n, p, k);
    var d := fs.inodes[p];
    var e := d.entries[k];
    assert Matches(fs, e, e.filename, fs.inodes[e.inodeNo].kind);
    var r := FindIn(fs, p, e.filename, fs.inodes[e.inodeNo].kind);
    var j :| 0 <= j < NR_DIRDATA && Matches(fs, d.entries[j], e.filename, fs.inodes[e.inodeNo].kind) && d.entries[j].inodeNo == r.value;
    DistinctEntries(fs, p, j, k);
  }

  lemma EntryIsChild(fs: Fs, n: nat, p: nat, k: nat)
    requires Tree(fs, n) && p < n && fs.inodes[p].kind == DIR
    requires 2 <= k < NR_DIRDATA && fs.inodes[p].entries[k].filename != ""
    ensures fs.inodes[p].entries[k].inodeNo < NR_INODE && ChildOk(fs, n, p, fs.inodes[p].entries[k])
  {
    assert DirOk(fs, n, p);
  }

  lemma DistinctEntries(fs: Fs, p: nat, j: nat, k: nat)
    requires Distinct(fs) && p < NR_INODE && fs.inodes[p].kind == DIR && j < NR_DIRDATA && k < NR_DIRDATA
    requires fs.inodes[p].entries[j].filename == fs.inodes[p].entries[k].filename != ""
    ensures j == k
  {
  }

  /** What a successful search for a proper name means. */
  lemma FindMeans(fs: Fs, n: nat, p: nat, name: string, kind: FileType) returns (k: nat)
    requires Tree(fs, n) && p < n && fs.inodes[p].kind == DIR
    requires name != "." && name != ".." && FindIn(fs, p, name, kind).Some?
    ensures 2 <= k < NR_DIRDATA && fs.inodes[p].entries[k].filename == name
    ensures Names(fs, p, k, FindIn(fs, p, name, kind).value)
    ensures 0 < FindIn(fs, p, name, kind).value < n && fs.inuse[FindIn(fs, p, name, kind).value]
    ensures fs.inodes[FindIn(fs, p, name, kind).value].filename == name
  {
    hide Tree;
    TreeShaped(fs, n);
    var d := fs.inodes[p];
    k :| 0 <= k < NR_DIRDATA && Matches(fs, d.entries[k], name, kind) && d.entries[k].inodeNo == FindIn(fs, p, name, kind).value;
    DirInUse(fs, n, p);
    EntryOk(fs, n, p, k, d.entries[k].inodeNo);
  }

  ghost predicate DirNames(dirs: seq<string>) {
    forall i :: 0 <= i < |dirs| ==> IsDirName(dirs[i])
  }

  /** A walk ends in a directory in use, above everything it went through. */
  lemma {:induction false} WalkIn(fs: Fs, n: nat, dirs: seq<string>)
    requires Tree(fs, n) && DirNames(dirs) && Walk(fs, dirs).Some?
    ensures Walk(fs, dirs).value < n && fs.inodes[Walk(fs, dirs).value].kind == DIR
    ensures dirs != [] ==> Walk(fs, dirs).value > 0
  {
    if dirs != [] {
      var front, d := dirs[..|dirs| - 1], dirs[|dirs| - 1];
      WalkIn(fs, n, front);
      var k := FindMeans(fs, n, Walk(fs, front).value, d, DIR);
    }
  }

  /** The entry a walk went through last. */
  lemma LastStep(fs: Fs, n: nat, dirs: seq<string>) returns (p: nat, k: nat)
    requires Tree(fs, n) && DirNames(dirs) && Walk(fs, dirs).Some? && dirs != []
    ensures Shaped(fs) && Names(fs, p, k, Walk(fs, dirs).value)
    ensures Walk(fs, dirs[..|dirs| - 1]) == Some(p) && fs.inodes[p].entries[k].filename == dirs[|dirs| - 1]
  {
    WalkIn(fs, n, dirs[..|dirs| - 1]);
    p := Walk(fs, dirs[..|dirs| - 1]).value;
    k := FindMeans(fs, n, p, dirs[|dirs| - 1], DIR);
  }

  lemma OneName(fs: Fs, n: nat, p: nat, k: nat, q: nat, j: nat, c: nat)
    requires Tree(fs, n) && Names(fs, p, k, c) && Names(fs, q, j, c)
    ensures p == q && k == j
  {
  }

  /** A directory is reached in one way only. */
  lemma {:induction false} WalkInjective(fs: Fs, n: nat, ds: seq<string>, es: seq<string>)
    requires Tree(fs, n) && DirNames(ds) && DirNames(es)
    requires Walk(fs, ds).Some? && Walk(fs, ds) == Walk(fs, es)
    ensures ds == es
    decreases |ds|
  {
    hide Tree, Names, Shaped;
    WalkIn(fs, n, ds);
    WalkIn(fs, n, es);
    if ds != [] && es != [] {
      var p, k := LastStep(fs, n, ds);
      var q, j := LastStep(fs, n, es);
      OneName(fs, n, p, k, q, j, Walk(fs, ds).value);
      WalkInjective(fs, n, ds[..|ds| - 1], es[..|es| - 1]);
      assert ds == ds[..|ds| - 1] + [ds[|ds| - 1]] && es == es[..|es| - 1] + [es[|es| - 1]];
    }
  }

  /** The last component of an absolute path. */
  function Base(path: string): string
    requires SLASH in path
  {
    LastName(BelowTop(path))
  }

  function Parents(path: string): seq<string>
    requires SLASH in path
  {
    Dirs(BelowTop(path))
  }

  /** A path as users write it: it starts with the slash of the root, and does not end in "." or "..". */
  ghost predicate Proper(path: string) {
    |path| >= 2 && path[0] == SLASH && Base(path) != "." && Base(path) != ".."
  }

  lemma ProperParts(path: string, other: string)
    requires SLASH in path && path[0] == SLASH && SLASH in other && other[0] == SLASH
    ensures DirNames(Parents(path)) && IsLastLevel(Base(path))
    ensures Parents(path) == Parents(other) && Base(path) == Base(other) ==> path == other
  {
    SplitJoin(BelowTop(path));
    SplitJoin(BelowTop(other));
    assert TopDir(path) == TopDir(other) == [SLASH];
  }

  /** Two different paths never name the same inode. */
  lemma LookupInjective(fs: Fs, n: nat, p: string, pk: FileType, q: string, qk: FileType)
    requires Tree(fs, n) && Proper(p) && Proper(q)
    requires Lookup(fs, p, pk).Some? && Lookup(fs, p, pk) == Lookup(fs, q, qk)
    ensures p == q && pk == qk
  {
    ProperParts(p, q);
    ProperParts(q, p);
    WalkIn(fs, n, Parents(p));
    WalkIn(fs, n, Parents(q));
    var k := FindMeans(fs, n, Walk(fs, Parents(p)).value, Base(p), pk);
    var j := FindMeans(fs, n, Walk(fs, Parents(q)).value, Base(q), qk);
    WalkInjective(fs, n, Parents(p), Parents(q));
  }

  // ---------------------------------------------------------------- from inodes to paths

  lemma FirstSlashAtEnd(d: string, rest: string)
    requires IsDirName(d)
    ensures SLASH in d + rest && TopDir(d + rest) == d && BelowTop(d + rest) == rest
  {
    var s := d + rest;
    assert s[|d| - 1] == SLASH;
    var k := FirstSlash(s);
    assert forall i :: 0 <= i < |d| - 1 ==> s[i] == d[i];
    assert s[..|d|] == d && s[|d|..] == rest;
  }

  lemma MoreLevels(d: string, rest: string)
    requires IsDirName(d) && rest != []
    ensures !IsLastLevel(d + rest)
  {
    assert (d + rest)[|d| - 1] == SLASH;
  }

  /** Components put together are split again where they were joined. */
  lemma {:induction false} JoinSplit(dirs: seq<string>, name: string)
    requires DirNames(dirs) && IsLastLevel(name) && name != []
    ensures Dirs(Join(dirs, name)) == dirs && LastName(Join(dirs, name)) == name && Join(dirs, name) != []
  {
    if dirs != [] {
      var rest := Join(dirs[1..], name);
      JoinSplit(dirs[1..], name);
      FirstSlashAtEnd(dirs[0], rest);
      MoreLevels(dirs[0], rest);
      hide IsLastLevel, IsDirName, TopDir, BelowTop;
      assert dirs == [dirs[0]] + dirs[1..];
    }
  }

  /** Every inode in use but the root is found under a path. */
  lemma Reachable(fs: Fs, n: nat, c: nat) returns (path: string)
    requires Tree(fs, n) && Distinct(fs) && 0 < c < n && fs.inuse[c]
    ensures Proper(path) && Lookup(fs, path, fs.inodes[c].kind) == Some(c)
  {
    TreeShaped(fs, n);
    var rank := Ranks(fs, n);
    var dirs, name := Route(fs, n, c, rank);
    path := [SLASH] + Join(dirs, name);
    JoinSplit(dirs, name);
    FirstSlashAtEnd([SLASH], Join(dirs, name));
  }

  lemma NameShape(name: string, kind: FileType)
    requires NameOk(name, kind) && kind != UNUSED
    ensures IsLastLevel(name) && name != "." && name != ".." && (kind == DIR ==> IsDirName(name))
  {
  }

  lemma Ranks(fs: Fs, n: nat) returns (rank: seq<nat>)
    requires Tree(fs, n)
    ensures Shaped(fs) && Ranked(fs, rank)
  {
    rank :| Ranked(fs, rank);
  }

  lemma {:induction false} Route(fs: Fs, n: nat, c: nat, rank: seq<nat>) returns (dirs: seq<string>, name: string)
    requires Tree(fs, n) && Distinct(fs) && 0 < c < n && fs.inuse[c] && Ranked(fs, rank)
    ensures DirNames(dirs) && NameOk(name, fs.inodes[c].kind) && IsLastLevel(name) && name != "." && name != ".."
    ensures Walk(fs, dirs).Some?
    ensures FindIn(fs, Walk(fs, dirs).value, name, fs.inodes[c].kind) == Some(c)
    decreases if fs.inodes[c].kind == DIR then 0 else 1, rank[c]
  {
    hide Tree, Distinct, IsLastLevel;
    TreeShaped(fs, n);
    InUseNamed(fs, n, c);
    var p: nat, k: nat :| Names(fs, p, k, c);
    EntryOk(fs, n, p, k, c);
    name := fs.inodes[p].entries[k].filename;
    NameShape(name, fs.inodes[c].kind);
    if p > 0 {
      DirInUse(fs, n, p);
    }
    FindHits(fs, n, p, k);
    if p == 0 {
      dirs := [];
    } else {
      var ds, d := Route(fs, n, p, rank);
      dirs := ds + [d];
      assert dirs[..|dirs| - 1] == ds;
    }
  }
}
