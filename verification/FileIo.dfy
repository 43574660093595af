/** Reads, writes and seeks through descriptors: an open-file entry is one file with one position, whoever uses it. */
module FileIo {
  import opened Seqs
  import opened SchedModel
  import opened FsModel
  import D = Descriptors
  import opened FileData

  // ---------------------------------------------------------------- what a simple file promises

  lemma OverwriteParts(c: seq<Byte>, buf: seq<Byte>, pos: nat)
    requires pos <= |c|
    ensures var d := Overwrite(c, buf, pos);
      && |d| == (if pos + |buf| < |c| then |c| else pos + |buf|)
      && forall i :: 0 <= i < |d| ==> d[i] == if pos <= i < pos + |buf| then buf[i - pos] else c[i]
  {
  }

  lemma OverwriteJoin(c: seq<Byte>, a: seq<Byte>, b: seq<Byte>, pos: nat)
    requires pos <= |c|
    ensures pos + |a| <= |Overwrite(c, a, pos)| && Overwrite(Overwrite(c, a, pos), b, pos + |a|) == Overwrite(c, a + b, pos)
  {
    hide Overwrite;
    OverwriteParts(c, a, pos);
    OverwriteParts(Overwrite(c, a, pos), b, pos + |a|);
    OverwriteParts(c, a + b, pos);
  }

  /** Two writes in a row are one write of both buffers. */
  lemma WritesJoin(f: File, a: seq<Byte>, b: seq<Byte>)
    requires InFile(f, [WriteOp(a), WriteOp(b)])
    ensures 0 <= f.pos <= |f.content| && FileRun(f, [WriteOp(a), WriteOp(b)]).0 == FileStep(f, WriteOp(a + b)).0
  {
    hide Overwrite, FileRun;
    FitsBoth(f, WriteOp(a), WriteOp(b));
    TwoSteps(f, WriteOp(a), WriteOp(b));
    OverwriteJoin(f.content, a, b, f.pos);
  }

  lemma FitsBoth(f: File, a: FileOp, b: FileOp)
    requires InFile(f, [a, b])
    ensures Fits(f, a) && Fits(FileStep(f, a).0, b)
  {
    hide FileStep, Fits;
    assert [a, b][1..] == [b];
  }

  lemma SliceJoin(c: seq<Byte>, p: nat, q: nat, r: nat)
    requires p <= q <= r <= |c|
    ensures c[p..q] + c[q..r] == c[p..r]
  {
  }

  /** Two reads in a row deliver what one read of both lengths does. */
  lemma ReadsJoin(f: File, m: nat, n: nat)
    requires 0 <= f.pos <= |f.content|
    ensures InFile(f, [ReadOp(m), ReadOp(n)]) && FileRun(f, [ReadOp(m), ReadOp(n)]) == FileStep(f, ReadOp(m + n))
  {
    hide FileRun, InFile, FileStep;
    TwoSteps(f, ReadOp(m), ReadOp(n));
    var c, p: nat, size := f.content, f.pos, |f.content|;
    var q, r := if p + m > size then size else p + m, if p + m + n > size then size else p + m + n;
    ReadStepIs(c, p, m);
    ReadStepIs(c, q, n);
    ReadStepIs(c, p, m + n);
    SliceJoin(c, p, q, r);
  }

  lemma ReadStepIs(c: seq<Byte>, pos: nat, n: nat)
    requires pos <= |c|
    ensures var stop := if pos + n > |c| then |c| else pos + n;
      FileStep(File(c, pos), ReadOp(n)) == (File(c, stop), c[pos..stop])
  {
    if pos == |c| {
      assert c[pos..|c|] == [];
    }
  }

  lemma SliceIs(c: seq<Byte>, lo: nat, hi: nat, d: seq<Byte>, off: nat)
    requires lo <= hi <= |c| && off + (hi - lo) <= |d| && forall i :: lo <= i < hi ==> c[i] == d[off + (i - lo)]
    ensures c[lo..hi] == d[off..off + (hi - lo)]
  {
  }

  /** An overwritten sequence in its three parts. */
  lemma OverwriteSlices(c: seq<Byte>, buf: seq<Byte>, pos: nat)
    requires pos <= |c|
    ensures var d := Overwrite(c, buf, pos); var end := if pos + |buf| < |c| then pos + |buf| else |c|;
      && pos + |buf| <= |d| && |c| <= |d| && |d| <= |c| + |buf|
      && d[pos..pos + |buf|] == buf && d[..pos] == c[..pos] && d[pos + |buf|..] == c[end..]
  {
    hide Overwrite;
    OverwriteParts(c, buf, pos);
    var d := Overwrite(c, buf, pos);
    SliceIs(d, pos, pos + |buf|, buf, 0);
    SliceIs(d, 0, pos, c, 0);
    if pos + |buf| < |c| {
      SliceIs(d, pos + |buf|, |c|, c, pos + |buf|);
    }
  }

  /** What was written is read back from where it was written, and the rest of the file is as before. */
  lemma ReadBack(f: File, buf: seq<Byte>)
    requires Fits(f, WriteOp(buf))
    ensures 0 <= f.pos <= |f.content| && var g := FileStep(f, WriteOp(buf)).0;
      && FileStep(FileStep(g, SeekOp(f.pos, SET)).0, ReadOp(|buf|)).1 == buf
      && FileStep(FileStep(g, SeekOp(-|buf|, CUR)).0, ReadOp(|buf|)).1 == buf
      && FileStep(FileStep(g, SeekOp(0, SET)).0, ReadOp(f.pos)).1 == f.content[..f.pos]
      && FileStep(g, ReadOp(|f.content|)).1 == f.content[if f.pos + |buf| < |f.content| then f.pos + |buf| else |f.content|..]
  {
    hide Overwrite, FileStep;
    WriteStepIs(f, buf);
    var p: nat := f.pos;
    var g := File(Overwrite(f.content, buf, p), p + |buf|);
    OverwriteSlices(f.content, buf, p);
    Seeks(g, p, 0);
    Seeks(g, 0, 0);
    Backwards(g, |buf|);
    ReadInside(g.content, p, |buf|);
    ReadInside(g.content, 0, p);
    ReadRest(g.content, p + |buf|, |f.content|);
  }

  lemma ReadInside(c: seq<Byte>, pos: nat, n: nat)
    requires pos + n <= |c|
    ensures FileStep(File(c, pos), ReadOp(n)).1 == c[pos..pos + n]
  {
  }

  lemma ReadRest(c: seq<Byte>, pos: nat, n: nat)
    requires pos <= |c| <= pos + n
    ensures FileStep(File(c, pos), ReadOp(n)).1 == c[pos..]
  {
  }

  lemma WriteStepIs(f: File, buf: seq<Byte>)
    requires Fits(f, WriteOp(buf))
    ensures 0 <= f.pos <= |f.content| && FileStep(f, WriteOp(buf)).0 == File(Overwrite(f.content, buf, f.pos), f.pos + |buf|)
  {
    hide Overwrite;
  }

  lemma Backwards(f: File, n: int)
    ensures FileStep(f, SeekOp(-n, CUR)).0 == f.(pos := f.pos - n)
  {
  }

  /** Seeks from the start, the position and the end of the file. */
  lemma Seeks(f: File, x: int, y: int)
    ensures FileStep(f, SeekOp(x, SET)).0 == f.(pos := x)
    ensures FileStep(FileStep(f, SeekOp(x, SET)).0, SeekOp(y, CUR)).0 == f.(pos := x + y)
    ensures FileStep(f, SeekOp(x, END)).0 == f.(pos := |f.content| + x)
  {
  }

  lemma OneStep(f: File, op: FileOp)
    requires Fits(f, op)
    ensures InFile(f, [op]) && FileRun(f, [op]) == FileStep(f, op)
  {
    var s := FileStep(f, op);
    assert [op][1..] == [] && FileRun(s.0, []) == (s.0, []) && s.1 + [] == s.1;
  }

  lemma TwoSteps(f: File, a: FileOp, b: FileOp)
    requires Fits(f, a) && Fits(FileStep(f, a).0, b)
    ensures InFile(f, [a, b]) && FileRun(f, [a, b]).0 == FileStep(FileStep(f, a).0, b).0
    ensures FileRun(f, [a, b]).1 == FileStep(f, a).1 + FileStep(FileStep(f, a).0, b).1
  {
    OneStep(FileStep(f, a).0, b);
    assert [a, b][1..] == [b];
  }

  // ---------------------------------------------------------------- runs of an open file

  lemma {:induction false} InFileMore(f: File, ops: seq<FileOp>, op: FileOp)
    requires InFile(f, ops)
    ensures InFile(f, ops + [op]) <==> Fits(FileRun(f, ops).0, op)
    ensures InFile(f, ops + [op]) ==>
      FileRun(f, ops + [op]) == (FileStep(FileRun(f, ops).0, op).0, FileRun(f, ops).1 + FileStep(FileRun(f, ops).0, op).1)
    decreases |ops|
  {
    hide FileStep;
    if ops == [] {
      assert ops + [op] == [op] && [op][1..] == [];
      if Fits(f, op) {
        OneStep(f, op);
        assert [] + FileStep(f, op).1 == FileStep(f, op).1;
      }
    } else {
      var g := FileStep(f, ops[0]).0;
      assert (ops + [op])[1..] == ops[1..] + [op] && (ops + [op])[0] == ops[0];
      InFileMore(g, ops[1..], op);
      if InFile(f, ops + [op]) {
        var s, rest, out := FileStep(f, ops[0]).1, FileRun(g, ops[1..]).1, FileStep(FileRun(f, ops).0, op).1;
        assert s + (rest + out) == s + rest + out;
      }
    }
  }

  // ---------------------------------------------------------------- through the tables

  /** The open file behind descriptor fd of process p can take the operation. */
  ghost predicate CanOp(s: Files, p: nat, fd: nat, op: FileOp) {
    && D.HasOpen(s.desc, p, fd)
    && var t := s.desc.table[s.desc.fps[p][fd]];
      0 <= t.inodeIndex < |s.inodes| && Sound(s.inodes[t.inodeIndex]) && Within(Handle(s.inodes[t.inodeIndex], t.offset), op)
  }

  /** write, read and lseek on the tables: an inode or an offset changes. */
  ghost function OpStep(s: Files, p: nat, fd: nat, op: FileOp): (Files, seq<Byte>)
    requires CanOp(s, p, fd, op)
  {
    var e := s.desc.fps[p][fd];
    var r := HandleStep(Handle(s.inodes[s.desc.table[e].inodeIndex], s.desc.table[e].offset), op);
    if op.WriteOp? then (WriteStep(s, WriteEvent(p, fd, op.buf)), [])
    else (Files(D.Moved(s.desc, e, r.0.offset), s.inodes), r.1)
  }

  /** Entry e is open on inode c. */
  ghost predicate OpenOn(s: Files, e: nat, c: nat) {
    e < |s.desc.table| && c < |s.inodes| && s.desc.table[e].inodeIndex == c && Sound(s.inodes[c])
  }

  ghost function FileOf(s: Files, e: nat, c: nat): File
    requires OpenOn(s, e, c)
  {
    File(Content(s.inodes[c]), s.desc.table[e].offset)
  }

  ghost predicate Names(s: Files, p: nat, fd: nat, e: nat) {
    D.HasOpen(s.desc, p, fd) && s.desc.fps[p][fd] == e
  }

  /** An operation through any descriptor of an entry is that operation on its file. */
  lemma OpRefines(s: Files, p: nat, fd: nat, op: FileOp, e: nat, c: nat)
    requires CanOp(s, p, fd, op) && Names(s, p, fd, e) && OpenOn(s, e, c) && Fits(FileOf(s, e, c), op)
    ensures var r := OpStep(s, p, fd, op);
      OpenOn(r.0, e, c) && FileOf(r.0, e, c) == FileStep(FileOf(s, e, c), op).0 && r.1 == FileStep(FileOf(s, e, c), op).1
  {
    StepRefines(Handle(s.inodes[c], s.desc.table[e].offset), op);
  }

  datatype IoCall = Io(p: nat, fd: nat, op: FileOp) | Table(ev: D.FileEvent)

  /** One call by any process; opens, closes, forks and exits deliver nothing. */
  ghost predicate Calls(s: Files, call: IoCall, t: Files, out: seq<Byte>) {
    match call
    case Io(p, fd, op) => CanOp(s, p, fd, op) && (t, out) == OpStep(s, p, fd, op)
    case Table(ev) =>
      D.Shape(s.desc) && D.Allowed(s.desc, ev) && !ev.MoveEvent? && t == Files(D.Apply(s.desc, ev), s.inodes) && out == []
  }

  ghost predicate IoRun(tr: seq<Files>, calls: seq<IoCall>, outs: seq<seq<Byte>>) {
    && |tr| == |calls| + 1 && |outs| == |calls|
    && forall i :: 0 <= i < |calls| ==> Calls(tr[i], calls[i], tr[i + 1], outs[i])
  }

  ghost predicate Through(s: Files, call: IoCall, e: nat) {
    call.Io? && Names(s, call.p, call.fd, e)
  }

  /** The entry does not lose its last link, and nobody writes its inode through another entry. */
  ghost predicate Leaves(s: Files, call: IoCall, e: nat, c: nat) {
    match call
    case Io(p, fd, op) =>
      Names(s, p, fd, e) || (op.WriteOp? ==> D.HasOpen(s.desc, p, fd) && s.desc.table[s.desc.fps[p][fd]].inodeIndex != c)
    case Table(ev) => ev.CloseEvent? && HoldsEntry(s.desc, ev.p, ev.fd, e) ==> s.desc.table[e].linkNum != 1
  }

  /** The operations through entry e among the first n calls, and what they delivered. */
  ghost function OpsOf(tr: seq<Files>, calls: seq<IoCall>, e: nat, n: nat): seq<FileOp>
    requires n <= |calls| <= |tr|
  {
    if n == 0 then []
    else OpsOf(tr, calls, e, n - 1) + if Through(tr[n - 1], calls[n - 1], e) then [calls[n - 1].op] else []
  }

  ghost function BytesOf(tr: seq<Files>, calls: seq<IoCall>, outs: seq<seq<Byte>>, e: nat, n: nat): seq<Byte>
    requires n <= |calls| <= |tr| && |calls| <= |outs|
  {
    if n == 0 then []
    else BytesOf(tr, calls, outs, e, n - 1) + if Through(tr[n - 1], calls[n - 1], e) then outs[n - 1] else []
  }

  lemma OtherCall(s: Files, call: IoCall, t: Files, out: seq<Byte>, e: nat, c: nat)
    requires Calls(s, call, t, out) && OpenOn(s, e, c) && Leaves(s, call, e, c) && !Through(s, call, e)
    ensures OpenOn(t, e, c) && FileOf(t, e, c) == FileOf(s, e, c)
  {
    match call
    case Io(p, fd, op) =>
    case Table(ev) => EntryStays(s.desc, ev, e);
  }

  /**
   One position for all who share an entry: in any interleaving of reads, writes and seeks through it by
   parents, children and descendants with any other calls, bytes delivered, contents and position are those of a
   simple file on which the operations through the entry are done in order.
   */
  lemma {:induction false} SharedFile(tr: seq<Files>, calls: seq<IoCall>, outs: seq<seq<Byte>>, e: nat, c: nat, n: nat)
    requires IoRun(tr, calls, outs) && n <= |calls| && OpenOn(tr[0], e, c)
    requires forall i :: 0 <= i < n ==> Leaves(tr[i], calls[i], e, c)
    requires InFile(FileOf(tr[0], e, c), OpsOf(tr, calls, e, n))
    ensures OpenOn(tr[n], e, c)
    ensures (FileOf(tr[n], e, c), BytesOf(tr, calls, outs, e, n)) == FileRun(FileOf(tr[0], e, c), OpsOf(tr, calls, e, n))
  {
    hide Calls, Leaves, OpenOn, FileOf, FileStep, Fits, Names;
    if n > 0 {
      var f, ops := FileOf(tr[0], e, c), OpsOf(tr, calls, e, n - 1);
      var call := calls[n - 1];
      assert Calls(tr[n - 1], call, tr[n], outs[n - 1]);
      if Through(tr[n - 1], call, e) {
        InFilePrefix(f, ops, call.op);
        SharedFile(tr, calls, outs, e, c, n - 1);
        InFileMore(f, ops, call.op);
        ThroughCall(tr[n - 1], call, tr[n], outs[n - 1], e, c);
      } else {
        assert ops + [] == ops;
        SharedFile(tr, calls, outs, e, c, n - 1);
        OtherCall(tr[n - 1], call, tr[n], outs[n - 1], e, c);
        assert BytesOf(tr, calls, outs, e, n - 1) + [] == BytesOf(tr, calls, outs, e, n - 1);
      }
    }
  }

  lemma ThroughCall(s: Files, call: IoCall, t: Files, out: seq<Byte>, e: nat, c: nat)
    requires Calls(s, call, t, out) && Through(s, call, e) && OpenOn(s, e, c) && Fits(FileOf(s, e, c), call.op)
    ensures OpenOn(t, e, c) && FileOf(t, e, c) == FileStep(FileOf(s, e, c), call.op).0 && out == FileStep(FileOf(s, e, c), call.op).1
  {
    OpRefines(s, call.p, call.fd, call.op, e, c);
  }

  lemma {:induction false} InFilePrefix(f: File, ops: seq<FileOp>, op: FileOp)
    requires InFile(f, ops + [op])
    ensures InFile(f, ops)
    decreases |ops|
  {
    if ops != [] {
      assert (ops + [op])[1..] == ops[1..] + [op] && (ops + [op])[0] == ops[0];
      InFilePrefix(FileStep(f, ops[0]).0, ops[1..], op);
    }
  }
}
