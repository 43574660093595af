/** The inode table as a value: lookups, creation and removal. */
module FsModel {
  import opened Seqs
  import opened Paths

  const NR_INODE: nat := 32
  const MAX_FILE_SZ: nat := 32 * 1024
  const NR_DIRDATA: nat := 1024
  const MAX_FILENAME_LEN: nat := 28

  type Byte = b: int | 0 <= b < 256

  datatype FileType = UNUSED | FL | DIR

  datatype DirEntry = DirEntry(inodeNo: nat, filename: string)

  /** size is filesz of a file and filenum of a directory, one word in memory. */
  datatype Inode = Inode(kind: FileType, size: nat, filename: string, entries: seq<DirEntry>, data: seq<Byte>)

  datatype Fs = Fs(inuse: seq<bool>, inodes: seq<Inode>)

  ghost predicate Shaped(fs: Fs) {
    && |fs.inuse| == NR_INODE && |fs.inodes| == NR_INODE
    && forall i :: 0 <= i < NR_INODE ==> |fs.inodes[i].entries| == NR_DIRDATA && |fs.inodes[i].data| == MAX_FILE_SZ
  }

  // ---------------------------------------------------------------- lookups

  /** A non-empty entry with this name whose inode has this type. */
  predicate Matches(fs: Fs, e: DirEntry, name: string, kind: FileType) {
    e.filename != "" && e.filename == name && e.inodeNo < |fs.inodes| && fs.inodes[e.inodeNo].kind == kind
  }

  /** Inode of the first matching entry. */
  function Find(fs: Fs, es: seq<DirEntry>, name: string, kind: FileType): (r: Option<nat>)
    ensures r.None? ==> forall k :: 0 <= k < |es| ==> !Matches(fs, es[k], name, kind)
    ensures r.Some? ==> exists k :: 0 <= k < |es| && Matches(fs, es[k], name, kind) && es[k].inodeNo == r.value
  {
    if es == [] then None
    else if Matches(fs, es[0], name, kind) then
      assert es[0].inodeNo == es[0].inodeNo;
      Some(es[0].inodeNo)
    else
      var r := Find(fs, es[1..], name, kind);
      assert r.Some? ==> exists k :: 0 <= k < |es| && Matches(fs, es[k], name, kind) && es[k].inodeNo == r.value by {
        if r.Some? {
          var k :| 0 <= k < |es[1..]| && Matches(fs, es[1..][k], name, kind) && es[1..][k].inodeNo == r.value;
          assert es[k + 1] == es[1..][k];
        }
      }
      r
  }

  /** Inodes of all matching entries, in the order of the table. */
  function All(fs: Fs, es: seq<DirEntry>, name: string, kind: FileType): (xs: seq<nat>) {
    if es == [] then []
    else (if Matches(fs, es[0], name, kind) then [es[0].inodeNo] else []) + All(fs, es[1..], name, kind)
  }

  function Head(xs: seq<nat>): Option<nat> {
    if xs == [] then None else Some(xs[0])
  }

  lemma {:induction false} FindIsHead(fs: Fs, es: seq<DirEntry>, name: string, kind: FileType)
    ensures Find(fs, es, name, kind) == Head(All(fs, es, name, kind))
  {
    if es != [] {
      FindIsHead(fs, es[1..], name, kind);
    }
  }

  function FindIn(fs: Fs, p: nat, name: string, kind: FileType): (r: Option<nat>)
    requires p < |fs.inodes|
    ensures r.Some? ==> r.value < |fs.inodes| && fs.inodes[r.value].kind == kind
  {
    Find(fs, fs.inodes[p].entries, name, kind)
  }

  /** The directory reached from the root through the given names. */
  function Walk(fs: Fs, dirs: seq<string>): (r: Option<nat>)
    requires |fs.inodes| > 0
    ensures r.Some? ==> r.value < |fs.inodes|
  {
    if dirs == [] then Some(0)
    else
      match Walk(fs, dirs[..|dirs| - 1])
      case None => None
      case Some(p) => FindIn(fs, p, dirs[|dirs| - 1], DIR)
  }

  function Lookup(fs: Fs, path: string, kind: FileType): (r: Option<nat>)
    requires |fs.inodes| > 0 && SLASH in path
    ensures r.Some? ==> r.value < |fs.inodes| && fs.inodes[r.value].kind == kind
  {
    match Walk(fs, Dirs(BelowTop(path)))
    case None => None
    case Some(p) => FindIn(fs, p, LastName(BelowTop(path)), kind)
  }

  // ---------------------------------------------------------------- scans

  /** Number of non-empty entries. */
  function Count(es: seq<DirEntry>): (n: nat)
    ensures n <= |es|
  {
    if es == [] then 0 else Count(es[..|es| - 1]) + if es[|es| - 1].filename != "" then 1 else 0
  }

  /** filenum counts at least the entries in use. */
  ghost predicate Counted(fs: Fs, p: nat) {
    p < |fs.inodes| && Count(fs.inodes[p].entries) <= fs.inodes[p].size
  }

  // ---------------------------------------------------------------- creation and removal

  /** First element equal to x, or the length of the sequence. */
  function FirstOf<T(==)>(xs: seq<T>, x: T): (k: nat)
    ensures k <= |xs| && (k < |xs| ==> xs[k] == x) && forall i :: 0 <= i < k ==> xs[i] != x
  {
    if xs == [] || xs[0] == x then 0 else FirstOf(xs[1..], x) + 1
  }

  /** First empty entry, or the length of the table. */
  function FreeSlot(es: seq<DirEntry>): (k: nat)
    ensures k <= |es| && (k < |es| ==> es[k].filename == "") && forall i :: 0 <= i < k ==> es[i].filename != ""
  {
    if es == [] || es[0].filename == "" then 0 else FreeSlot(es[1..]) + 1
  }

  /** Directory p gets an entry for inode c. */
  function AddEntry(d: Inode, c: nat, name: string): Inode
    requires FreeSlot(d.entries) < |d.entries|
  {
    d.(entries := d.entries[FreeSlot(d.entries) := DirEntry(c, name)], size := d.size + 1)
  }

  const NUL_BYTE: Byte := 0

  /** Length of an entry in the block: four bytes of inode number, then the name. */
  const RECORD: nat := 32

  /** The characters in front of the first zero byte. */
  function Text(bytes: seq<Byte>): string {
    if bytes == [] || bytes[0] == NUL_BYTE then "" else [bytes[0] as char] + Text(bytes[1..])
  }

  /** A block read as directory entries, as happens when an inode becomes a directory. */
  function Overlay(data: seq<Byte>): (es: seq<DirEntry>)
    requires |data| == MAX_FILE_SZ
    ensures |es| == NR_DIRDATA
  {
    seq(NR_DIRDATA, k requires 0 <= k < NR_DIRDATA => Record(data, k))
  }

  function Record(data: seq<Byte>, k: nat): DirEntry
    requires |data| == MAX_FILE_SZ && k < NR_DIRDATA
  {
    var at := RECORD * k;
    var b0: int, b1: int, b2: int, b3: int := data[at], data[at + 1], data[at + 2], data[at + 3];
    DirEntry(b0 + 0x100 * b1 + 0x1_0000 * b2 + 0x100_0000 * b3, Text(data[at + 4..]))
  }

  function AsDir(i: Inode, c: nat, p: nat, name: string): Inode
    requires |i.data| == MAX_FILE_SZ
  {
    i.(kind := DIR, filename := name, size := 2, entries := Overlay(i.data)[0 := DirEntry(c, ".")][1 := DirEntry(p, "..")])
  }

  function AsFile(i: Inode, name: string, content: Option<seq<Byte>>): Inode
    requires content.Some? ==> |content.value| < |i.data|
  {
    var j := i.(kind := FL, filename := name);
    match content
    case None => j
    case Some(d) => j.(size := |d|, data := d + [NUL_BYTE] + i.data[|d| + 1..])
  }

  function WithSlash(name: string): string {
    if name != "" && name[|name| - 1] == SLASH then name else name + [SLASH]
  }

  datatype Outcome = Made(fs: Fs) | Refused | Halted

  function FreeInode(fs: Fs): nat {
    FirstOf(fs.inuse, false)
  }

  /** Inode c becomes child, named in directory p. */
  function Adopt(fs: Fs, p: nat, c: nat, name: string, child: Inode): Fs
    requires p < |fs.inodes| && c < |fs.inodes| && c < |fs.inuse|
    requires FreeSlot(fs.inodes[p].entries) < |fs.inodes[p].entries|
  {
    Fs(fs.inuse[c := true], fs.inodes[p := AddEntry(fs.inodes[p], c, name)][c := child])
  }

  /** Refused when no inode or no parent is found (a message is printed); Halted when the parent is full. */
  function MakeDir(fs: Fs, path: string): Outcome
    requires Shaped(fs) && SLASH in path
  {
    var c, p, name := FreeInode(fs), Walk(fs, Dirs(BelowTop(path))), WithSlash(LastLevelName(path));
    if c == NR_INODE || p.None? then Refused
    else if FreeSlot(fs.inodes[p.value].entries) == NR_DIRDATA then Halted
    else Made(Adopt(fs, p.value, c, name, AsDir(fs.inodes[c], c, p.value, name)))
  }

  function MakeFL(fs: Fs, path: string, content: Option<seq<Byte>>): Outcome
    requires Shaped(fs) && SLASH in path && (content.Some? ==> |content.value| < MAX_FILE_SZ)
  {
    var c, p, name := FreeInode(fs), Walk(fs, Dirs(BelowTop(path))), LastLevelName(path);
    if c == NR_INODE || p.None? then Halted
    else if FreeSlot(fs.inodes[p.value].entries) == NR_DIRDATA then Halted
    else Made(Adopt(fs, p.value, c, name, AsFile(fs.inodes[c], name, content)))
  }

  /** First entry with this name, of whatever type. */
  function EntryNamed(es: seq<DirEntry>, name: string): (k: nat)
    ensures k <= |es| && (k < |es| ==> es[k].filename == name) && forall i :: 0 <= i < k ==> es[i].filename != name
  {
    if es == [] || es[0].filename == name then 0 else EntryNamed(es[1..], name) + 1
  }

  /** rmFL: the entry is emptied and the inode marked available; filenum and the inode stay as they were. */
  function Unname(fs: Fs, p: nat, c: nat): Fs
    requires p < |fs.inodes| && c < |fs.inodes| && c < |fs.inuse|
    requires EntryNamed(fs.inodes[p].entries, fs.inodes[c].filename) < |fs.inodes[p].entries|
  {
    var d := fs.inodes[p];
    var k := EntryNamed(d.entries, fs.inodes[c].filename);
    Fs(fs.inuse[c := false], fs.inodes[p := d.(entries := d.entries[k := DirEntry(0, "")])])
  }

  // ---------------------------------------------------------------- a new file system

  ghost predicate Blank(i: Inode) {
    && i.kind == UNUSED && i.size == 0 && i.filename == ""
    && |i.entries| == NR_DIRDATA && |i.data| == MAX_FILE_SZ
    && (forall k :: 0 <= k < NR_DIRDATA ==> i.entries[k] == DirEntry(0, ""))
    && forall k :: 0 <= k < MAX_FILE_SZ ==> i.data[k] == 0
  }

  /** makeRootDir on zeroed storage. */
  ghost predicate Formatted(fs: Fs) {
    && Shaped(fs)
    && (forall i :: 0 < i < NR_INODE ==> Blank(fs.inodes[i]) && !fs.inuse[i])
    && fs.inuse[0] && exists b: Inode :: Blank(b) && fs.inodes[0] == AsDir(b, 0, 0, "/")
  }
}
