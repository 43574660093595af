/** File contents under write, read and seek. */
module FileData {
  import opened Seqs
  import opened Paths
  import opened FsModel
  import opened FsTree
  import opened FsPaths
  import opened FsGrowth
  import opened Descriptors

  ghost predicate Sound(i: Inode) {
    |i.data| == MAX_FILE_SZ && i.size <= MAX_FILE_SZ
  }

  function Content(i: Inode): seq<Byte>
    requires i.size <= |i.data|
  {
    i.data[..i.size]
  }

  function Max(a: nat, b: nat): nat {
    if a > b then a else b
  }

  /** writeF of buf at off. */
  function Written(i: Inode, buf: seq<Byte>, off: nat): Inode
    requires off + |buf| <= |i.data|
  {
    i.(data := i.data[..off] + buf + i.data[off + |buf|..], size := Max(i.size, off + |buf|))
  }

  /** How writeF ends; Strays where its first byte would land in front of the block. */
  datatype Writing = Wrote | TooLong | Strays

  /** writeF at any offset: of nothing at a negative offset it stores that offset as an unsigned size. */
  function WrittenAt(i: Inode, buf: seq<Byte>, off: int): Inode
    requires off + |buf| <= |i.data| && (off < 0 ==> buf == [])
  {
    if off >= 0 then Written(i, buf, off) else i.(size := Max(i.size, off % 0x1_0000_0000))
  }

  /** How many bytes readF delivers; it compares unsigned, so none from a negative offset. */
  function ReadCount(i: Inode, len: nat, off: int): nat {
    if off < 0 || off >= i.size then 0 else if off + len > i.size then i.size - off else len
  }

  function ReadBytes(i: Inode, len: nat, off: int): seq<Byte>
    requires i.size <= |i.data|
  {
    if off < 0 || off >= i.size then [] else i.data[off..off + ReadCount(i, len, off)]
  }

  /** The buffer replaces what is under it and the file grows to hold it. */
  function Overwrite(content: seq<Byte>, buf: seq<Byte>, pos: nat): seq<Byte>
    requires pos <= |content|
  {
    content[..pos] + buf + if pos + |buf| < |content| then content[pos + |buf|..] else []
  }

  lemma WrittenContent(i: Inode, buf: seq<Byte>, off: nat)
    requires Sound(i) && off <= i.size && off + |buf| < MAX_FILE_SZ
    ensures Sound(Written(i, buf, off)) && Content(Written(i, buf, off)) == Overwrite(Content(i), buf, off)
  {
    var j := Written(i, buf, off);
    var c := Overwrite(Content(i), buf, off);
    assert |Content(j)| == |c|;
    assert forall k :: 0 <= k < |c| ==> Content(j)[k] == c[k];
  }

  // ---------------------------------------------------------------- an open file is a byte sequence and a position

  datatype Whence = SET | CUR | END

  datatype FileOp = WriteOp(buf: seq<Byte>) | ReadOp(len: nat) | SeekOp(offset: int, whence: Whence)

  datatype File = File(content: seq<Byte>, pos: int)

  /** The simple file: what an operation does to it, and what it delivers.  Writes start in the file or at its end. */
  function FileStep(f: File, op: FileOp): (File, seq<Byte>)
    requires op.WriteOp? ==> 0 <= f.pos <= |f.content|
  {
    match op
    case WriteOp(buf) => (File(Overwrite(f.content, buf, f.pos), f.pos + |buf|), [])
    case ReadOp(len) =>
      var stop := if f.pos + len > |f.content| then |f.content| else f.pos + len;
      (File(f.content, stop), if 0 <= f.pos < |f.content| then f.content[f.pos..stop] else [])
    case SeekOp(offset, whence) =>
      var base := match whence case SET => 0 case CUR => f.pos case END => |f.content|;
      (File(f.content, base + offset), [])
  }

  /** The kernel's file: an inode and the offset of an open-file entry. */
  datatype Handle = Handle(inode: Inode, offset: int)

  /** Writes must start in the block and stay below the limit: the kernel halts otherwise. */
  predicate Within(h: Handle, op: FileOp) {
    op.WriteOp? ==> 0 <= h.offset && h.offset + |op.buf| < MAX_FILE_SZ
  }

  ghost function HandleStep(h: Handle, op: FileOp): (Handle, seq<Byte>)
    requires Sound(h.inode) && Within(h, op)
  {
    match op
    case WriteOp(buf) => (Handle(Written(h.inode, buf, h.offset), h.offset + |buf|), [])
    case ReadOp(len) =>
      (h.(offset := if h.offset + len > h.inode.size then h.inode.size else h.offset + len), ReadBytes(h.inode, len, h.offset))
    case SeekOp(offset, whence) =>
      (h.(offset := match whence case SET => offset case CUR => h.offset + offset case END => offset + h.inode.size), [])
  }

  function Abstract(h: Handle): File
    requires h.inode.size <= |h.inode.data|
  {
    File(Content(h.inode), h.offset)
  }

  lemma ReadsContent(i: Inode, len: nat, off: nat)
    requires Sound(i) && off <= i.size
    ensures ReadBytes(i, len, off) == Content(i)[off..off + ReadCount(i, len, off)]
  {
  }

  lemma StepRefines(h: Handle, op: FileOp)
    requires Sound(h.inode) && Within(h, op) && (op.WriteOp? ==> h.offset <= h.inode.size)
    ensures var r := HandleStep(h, op); var a := FileStep(Abstract(h), op);
      Sound(r.0.inode) && Abstract(r.0) == a.0 && r.1 == a.1
  {
    match op
    case WriteOp(buf) => WrittenContent(h.inode, buf, h.offset);
    case ReadOp(len) => if 0 <= h.offset <= h.inode.size { ReadsContent(h.inode, len, h.offset); }
    case SeekOp(offset, whence) =>
  }

  /** The write starts in the file or at its end and stays below the limit. */
  predicate Fits(f: File, op: FileOp) {
    op.WriteOp? ==> 0 <= f.pos <= |f.content| && f.pos + |op.buf| < MAX_FILE_SZ
  }

  /** A sequence of operations whose writes all fit; reads and seeks may go anywhere. */
  ghost predicate InFile(f: File, ops: seq<FileOp>)
    decreases |ops|
  {
    ops != [] ==> Fits(f, ops[0]) && InFile(FileStep(f, ops[0]).0, ops[1..])
  }

  function FileRun(f: File, ops: seq<FileOp>): (File, seq<Byte>)
    requires InFile(f, ops)
    decreases |ops|
  {
    if ops == [] then (f, [])
    else
      var s := FileStep(f, ops[0]);
      var rest := FileRun(s.0, ops[1..]);
      (rest.0, s.1 + rest.1)
  }

  ghost function HandleRun(h: Handle, ops: seq<FileOp>): (Handle, seq<Byte>)
    requires Sound(h.inode) && InFile(Abstract(h), ops)
    decreases |ops|
  {
    if ops == [] then (h, [])
    else
      StepRefines(h, ops[0]);
      assert InFile(FileStep(Abstract(h), ops[0]).0, ops[1..]);
      var s := HandleStep(h, ops[0]);
      var rest := HandleRun(s.0, ops[1..]);
      (rest.0, s.1 + rest.1)
  }

  /** Everything read, the final contents and the final position are those of the simple file. */
  lemma {:induction false} RunRefinesFile(h: Handle, ops: seq<FileOp>)
    requires Sound(h.inode) && InFile(Abstract(h), ops)
    ensures Sound(HandleRun(h, ops).0.inode)
    ensures Abstract(HandleRun(h, ops).0) == FileRun(Abstract(h), ops).0 && HandleRun(h, ops).1 == FileRun(Abstract(h), ops).1
    decreases |ops|
  {
    if ops != [] {
      StepRefines(h, ops[0]);
      assert InFile(FileStep(Abstract(h), ops[0]).0, ops[1..]);
      RunRefinesFile(HandleStep(h, ops[0]).0, ops[1..]);
    }
  }

  /** After a seek behind the end a read delivers nothing, and a write after it appends: no gap is left. */
  lemma ReadThenAppend(h: Handle, len: nat, buf: seq<Byte>)
    requires Sound(h.inode) && h.offset > h.inode.size && h.inode.size + |buf| < MAX_FILE_SZ
    ensures var r := HandleStep(h, ReadOp(len)); var w := HandleStep(r.0, WriteOp(buf));
      && r.1 == [] && Sound(w.0.inode) && w.0.offset == w.0.inode.size
      && Content(w.0.inode) == Content(h.inode) + buf
  {
    WrittenContent(h.inode, buf, h.inode.size);
    assert Overwrite(Content(h.inode), buf, h.inode.size) == Content(h.inode) + buf;
  }

  /** A write of nothing at a negative offset takes that offset for an unsigned size: the file is far too long then. */
  lemma EmptyWriteSpoils(i: Inode, off: int)
    requires Sound(i) && -0x8000_0000 <= off < 0
    ensures WrittenAt(i, [], off).size >= 0x8000_0000 && !Sound(WrittenAt(i, [], off)) && WrittenAt(i, [], off).data == i.data
    ensures ReadCount(WrittenAt(i, [], off), 1, MAX_FILE_SZ) == 1
  {
    assert off % 0x1_0000_0000 == off + 0x1_0000_0000;
  }

  /** Without the read the write leaves a gap, which shows whatever the block held there. */
  lemma WriteLeavesGap(h: Handle, buf: seq<Byte>)
    requires Sound(h.inode) && h.offset > h.inode.size && h.offset + |buf| < MAX_FILE_SZ
    ensures var w := HandleStep(h, WriteOp(buf));
      && Sound(w.0.inode)
      && Content(w.0.inode) == Content(h.inode) + h.inode.data[h.inode.size..h.offset] + buf
  {
    var i, off := h.inode, h.offset;
    assert Written(i, buf, off).data[..off + |buf|] == i.data[..off] + buf;
    assert i.data[..off] == i.data[..i.size] + i.data[i.size..off];
  }

  // ---------------------------------------------------------------- shared descriptors

  datatype WriteEvent = WriteEvent(p: nat, fd: nat, buf: seq<Byte>)

  datatype Files = Files(desc: Desc, inodes: seq<Inode>)

  ghost predicate CanWrite(s: Files, w: WriteEvent) {
    && HasOpen(s.desc, w.p, w.fd)
    && var t := s.desc.table[s.desc.fps[w.p][w.fd]];
      0 <= t.inodeIndex < |s.inodes| && Sound(s.inodes[t.inodeIndex]) && 0 <= t.offset && t.offset + |w.buf| < MAX_FILE_SZ
  }

  /** write(fd, buf) by process p. */
  function WriteStep(s: Files, w: WriteEvent): Files
    requires CanWrite(s, w)
  {
    var e := s.desc.fps[w.p][w.fd];
    var t := s.desc.table[e];
    Files(Moved(s.desc, e, t.offset + |w.buf|), s.inodes[t.inodeIndex := Written(s.inodes[t.inodeIndex], w.buf, t.offset)])
  }

  /** A write, or an event that only concerns descriptors: open, close, fork, exit, read, lseek. */
  datatype Act = Write(w: WriteEvent) | Table(e: FileEvent)

  ghost predicate Acts(s: Files, act: Act, t: Files) {
    match act
    case Write(w) => CanWrite(s, w) && t == WriteStep(s, w)
    case Table(ev) => Shape(s.desc) && Allowed(s.desc, ev) && t == Files(Apply(s.desc, ev), s.inodes)
  }

  ghost predicate ActRun(tr: seq<Files>, acts: seq<Act>) {
    && |tr| == |acts| + 1
    && forall i :: 0 <= i < |acts| ==> Acts(tr[i], acts[i], tr[i + 1])
  }

  /** The write goes through entry e. */
  ghost predicate Through(d: Desc, w: WriteEvent, e: nat) {
    HasOpen(d, w.p, w.fd) && d.fps[w.p][w.fd] == e
  }

  /** What the first n events put through entry e, in order. */
  ghost function Output(tr: seq<Files>, acts: seq<Act>, e: nat, n: nat): seq<Byte>
    requires n <= |acts| <= |tr|
  {
    if n == 0 then []
    else Output(tr, acts, e, n - 1) + if acts[n - 1].Write? && Through(tr[n - 1].desc, acts[n - 1].w, e) then acts[n - 1].w.buf else []
  }

  /** Entry e is at the end of file c. */
  ghost predicate AtEnd(s: Files, e: nat, c: nat) {
    && e < |s.desc.table| && c < |s.inodes| && Sound(s.inodes[c])
    && s.desc.table[e].inodeIndex == c && s.desc.table[e].offset == s.inodes[c].size
  }

  ghost predicate WritesElsewhere(s: Files, w: WriteEvent, c: nat) {
    HasOpen(s.desc, w.p, w.fd) && s.desc.table[s.desc.fps[w.p][w.fd]].inodeIndex != c
  }

  /**
   File c is only written through entry e, e is not moved by a read or lseek and does not lose its last
   descriptor.  Anything may be opened, forked and exited.
   */
  ghost predicate Leaves(s: Files, act: Act, e: nat, c: nat) {
    match act
    case Write(w) => Through(s.desc, w, e) || WritesElsewhere(s, w, c)
    case Table(ev) =>
      match ev
      case CloseEvent(p, fd) => HoldsEntry(s.desc, p, fd, e) ==> s.desc.table[e].linkNum != 1
      case MoveEvent(p, fd, offset) => !HoldsEntry(s.desc, p, fd, e)
      case _ => true
  }

  ghost predicate HoldsEntry(d: Desc, p: nat, fd: nat, e: nat) {
    HasOpen(d, p, fd) && d.fps[p][fd] == e && e < |d.table|
  }

  lemma ActAppends(s: Files, act: Act, t: Files, e: nat, c: nat)
    requires Acts(s, act, t) && AtEnd(s, e, c) && Leaves(s, act, e, c)
    ensures AtEnd(t, e, c)
    ensures Content(t.inodes[c]) == Content(s.inodes[c]) + if act.Write? && Through(s.desc, act.w, e) then act.w.buf else []
  {
    match act
    case Write(w) =>
      if Through(s.desc, w, e) {
        WrittenContent(s.inodes[c], w.buf, s.inodes[c].size);
        assert Overwrite(Content(s.inodes[c]), w.buf, s.inodes[c].size) == Content(s.inodes[c]) + w.buf;
      }
    case Table(ev) => EntryStays(s.desc, ev, e);
  }

  lemma EntryStays(d: Desc, ev: FileEvent, e: nat)
    requires Shape(d) && Allowed(d, ev) && e < |d.table| && d.table[e].inodeIndex != -1
    requires ev.CloseEvent? && HoldsEntry(d, ev.p, ev.fd, e) ==> d.table[e].linkNum != 1
    requires ev.MoveEvent? ==> !HoldsEntry(d, ev.p, ev.fd, e)
    ensures |Apply(d, ev).table| == |d.table|
    ensures Apply(d, ev).table[e].inodeIndex == d.table[e].inodeIndex && Apply(d, ev).table[e].offset == d.table[e].offset
  {
  }

  /**
   Processes that share an entry, parent and children say, append: in any interleaving of their writes
   with opens, closes, forks and exits by anybody, nothing is overwritten.
   */
  lemma {:induction false} SharedAppend(tr: seq<Files>, acts: seq<Act>, e: nat, c: nat, n: nat)
    requires ActRun(tr, acts) && n <= |acts| && AtEnd(tr[0], e, c)
    requires forall i :: 0 <= i < n ==> Leaves(tr[i], acts[i], e, c)
    ensures AtEnd(tr[n], e, c)
    ensures Content(tr[n].inodes[c]) == Content(tr[0].inodes[c]) + Output(tr, acts, e, n)
  {
    hide Acts, AtEnd, Leaves, Content, Through;
    if n == 0 {
      assert Output(tr, acts, e, 0) == [];
    } else {
      SharedAppend(tr, acts, e, c, n - 1);
      assert Acts(tr[n - 1], acts[n - 1], tr[n]);
      AtEndParts(tr[0], e, c);
      AtEndParts(tr[n - 1], e, c);
      ActAppends(tr[n - 1], acts[n - 1], tr[n], e, c);
    }
    AtEndParts(tr[0], e, c);
    AtEndParts(tr[n], e, c);
  }

  lemma AtEndParts(s: Files, e: nat, c: nat)
    requires AtEnd(s, e, c)
    ensures c < |s.inodes| && s.inodes[c].size <= |s.inodes[c].data|
  {
  }

  /** Right after a fork parent and child name the same entries. */
  lemma ForkShares(d: Desc, p: nat, child: nat, w: WriteEvent, e: nat)
    requires Shape(d) && p < |d.fps| && child < |d.fps| && p != child && w.p == p && Through(d, w, e)
    ensures Through(ForkStep(d, p, child), w, e) && Through(ForkStep(d, p, child), w.(p := child), e)
  {
  }

  /** fork, then a write by the child and one by the parent through the descriptor both have. */
  lemma ForkAppends(tr: seq<Files>, acts: seq<Act>, p: nat, child: nat, fd: nat, a: seq<Byte>, b: seq<Byte>, e: nat, c: nat)
    requires ActRun(tr, acts) && p != child && AtEnd(tr[0], e, c) && Through(tr[0].desc, WriteEvent(p, fd, b), e)
    requires acts == [Table(ForkEvent(p, child)), Write(WriteEvent(child, fd, a)), Write(WriteEvent(p, fd, b))]
    ensures AtEnd(tr[3], e, c) && Content(tr[3].inodes[c]) == Content(tr[0].inodes[c]) + a + b
  {
    assert Acts(tr[0], acts[0], tr[1]) && Acts(tr[1], acts[1], tr[2]) && Acts(tr[2], acts[2], tr[3]);
    ForkShares(tr[0].desc, p, child, WriteEvent(p, fd, b), e);
    assert Through(tr[1].desc, WriteEvent(child, fd, a), e) && Through(tr[2].desc, WriteEvent(p, fd, b), e);
    hide Acts, AtEnd, Content, Through;
    forall i | 0 <= i < 3
      ensures Leaves(tr[i], acts[i], e, c)
    {
      assert i == 0 || i == 1 || i == 2;
    }
    SharedAppend(tr, acts, e, c, 3);
    assert Output(tr, acts, e, 1) == [];
    assert Output(tr, acts, e, 2) == a;
    assert Output(tr, acts, e, 3) == a + b;
  }

  // ---------------------------------------------------------------- contents by path

  ghost function FileAt(fs: Fs, path: string): Option<seq<Byte>>
    requires |fs.inodes| > 0 && SLASH in path
  {
    match Lookup(fs, path, FL)
    case None => None
    case Some(c) => if Sound(fs.inodes[c]) then Some(Content(fs.inodes[c])) else None
  }

  lemma {:induction false} WalkKept(fs: Fs, g: Fs, dirs: seq<string>)
    requires |g.inodes| == |fs.inodes| > 0
    requires forall i :: 0 <= i < |fs.inodes| ==> g.inodes[i].kind == fs.inodes[i].kind && g.inodes[i].entries == fs.inodes[i].entries
    ensures Walk(g, dirs) == Walk(fs, dirs)
  {
    if dirs != [] {
      WalkKept(fs, g, dirs[..|dirs| - 1]);
      match Walk(fs, dirs[..|dirs| - 1])
      case None =>
      case Some(p) => FindSame(fs, g, fs.inodes[p].entries, dirs[|dirs| - 1], DIR);
    }
  }

  lemma LookupKept(fs: Fs, g: Fs, q: string, kind: FileType)
    requires |g.inodes| == |fs.inodes| > 0 && SLASH in q
    requires forall i :: 0 <= i < |fs.inodes| ==> g.inodes[i].kind == fs.inodes[i].kind && g.inodes[i].entries == fs.inodes[i].entries
    ensures Lookup(g, q, kind) == Lookup(fs, q, kind)
  {
    WalkKept(fs, g, Parents(q));
    match Walk(fs, Parents(q))
    case None =>
    case Some(p) => FindSame(fs, g, fs.inodes[p].entries, Base(q), kind);
  }

  /** Writing to a file changes what is at its path and at no other, and no lookup. */
  lemma WriteOnePath(fs: Fs, n: nat, path: string, buf: seq<Byte>, off: nat, q: string)
    requires Tree(fs, n) && Proper(path) && Proper(q) && Lookup(fs, path, FL).Some?
    requires var i := fs.inodes[Lookup(fs, path, FL).value]; Sound(i) && off <= i.size && off + |buf| < MAX_FILE_SZ
    ensures var c := Lookup(fs, path, FL).value;
      var g := fs.(inodes := fs.inodes[c := Written(fs.inodes[c], buf, off)]);
      && (forall kind :: Lookup(g, q, kind) == Lookup(fs, q, kind))
      && FileAt(g, q) == if q == path then Some(Overwrite(Content(fs.inodes[c]), buf, off)) else FileAt(fs, q)
  {
    var c := Lookup(fs, path, FL).value;
    var g := fs.(inodes := fs.inodes[c := Written(fs.inodes[c], buf, off)]);
    forall kind
      ensures Lookup(g, q, kind) == Lookup(fs, q, kind)
    {
      LookupKept(fs, g, q, kind);
    }
    WrittenContent(fs.inodes[c], buf, off);
    if Lookup(fs, q, FL) == Some(c) {
      LookupInjective(fs, n, q, FL, path, FL);
    }
  }
}
