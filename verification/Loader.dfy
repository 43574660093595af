/** loadUMain: the loadable segments of the user program, as the System V ABI chapter "Program Header" describes them. */
module Loader {
  import opened FsModel
  import opened Disk
  import opened LittleEndian
  import opened Elf

  const PT_LOAD: nat := 1
  const PH_SIZE: nat := 32

  function U16(s: seq<Byte>, a: nat): nat
    requires a + 2 <= |s|
  {
    s[a] as int + 0x100 * (s[a + 1] as int)
  }

  function U32(s: seq<Byte>, a: nat): nat
    requires a + 4 <= |s|
  {
    U16(s, a) + 0x1_0000 * U16(s, a + 2)
  }

  datatype Segment = Segment(kind: nat, off: nat, paddr: nat, filesz: nat, memsz: nat)

  function Phoff(image: seq<Byte>): nat
    requires |image| == ELF_BUFFER
  {
    U32(image, 28)
  }

  function Phnum(image: seq<Byte>): nat
    requires |image| == ELF_BUFFER
  {
    U16(image, 44)
  }

  function EntryPoint(image: seq<Byte>): nat
    requires |image| == ELF_BUFFER
  {
    U32(image, 24)
  }

  /** Program header i. */
  function Header(image: seq<Byte>, i: nat): Segment
    requires |image| == ELF_BUFFER && Phoff(image) + PH_SIZE * (i + 1) <= ELF_BUFFER
  {
    var a := Phoff(image) + PH_SIZE * i;
    Segment(U32(image, a), U32(image, a + 4), U32(image, a + 12), U32(image, a + 16), U32(image, a + 20))
  }

  // ---------------------------------------------------------------- reading what the layout says

  lemma ReadHalf(s: seq<Byte>, a: nat, x: Half)
    requires a + 2 <= |s| && s[a..a + 2] == Bytes16(x)
    ensures U16(s, a) == x
  {
    assert s[a..a + 2][0] == s[a] && s[a..a + 2][1] == s[a + 1];
  }

  lemma ReadWord(s: seq<Byte>, a: nat, x: Word)
    requires a + 4 <= |s| && s[a..a + 4] == Bytes32(x)
    ensures U32(s, a) == x
  {
    var b := s[a..a + 4];
    assert b[0] == s[a] && b[1] == s[a + 1] && b[2] == s[a + 2] && b[3] == s[a + 3];
    Halves(x);
  }

  /** What the loader takes from a program header. */
  function SegmentOf(p: ProgramHeader): Segment {
    Segment(p.kind, p.off, p.paddr, p.filesz, p.memsz)
  }

  /** The loader reads the fields of the header that an executable was written with. */
  lemma HeaderDecoded(x: Executable)
    requires WellFormed(x)
    ensures var image := Encode(x);
      EntryPoint(image) == x.header.entry && Phoff(image) == x.header.phoff && Phnum(image) == |x.segments|
  {
    hide U16, U32, HeaderBytes, Encode, Bytes16, Bytes32;
    var image := Encode(x);
    HeaderFields(x.header);
    EncodedHeader(x, 24, 28);
    EncodedHeader(x, 28, 32);
    EncodedHeader(x, 44, 46);
    ReadWord(image, 24, x.header.entry);
    ReadWord(image, 28, x.header.phoff);
    ReadHalf(image, 44, x.header.phnum);
  }

  /** And of each program header. */
  lemma SegmentDecoded(x: Executable, i: nat)
    requires WellFormed(x) && i < |x.segments|
    ensures Phoff(Encode(x)) + PH_SIZE * (i + 1) <= ELF_BUFFER && Header(Encode(x), i) == SegmentOf(x.segments[i])
  {
    hide U16, U32, ProgramHeaderBytes, Encode, Bytes16, Bytes32, Phoff;
    var image, p := Encode(x), x.segments[i];
    HeaderDecoded(x);
    ProgramHeaderFields(p);
    var a := x.header.phoff + 32 * i;
    EncodedSegment(x, i, 0, 4);
    EncodedSegment(x, i, 4, 8);
    EncodedSegment(x, i, 12, 16);
    EncodedSegment(x, i, 16, 20);
    EncodedSegment(x, i, 20, 24);
    ReadWord(image, a, p.kind);
    ReadWord(image, a + 4, p.off);
    ReadWord(image, a + 12, p.paddr);
    ReadWord(image, a + 16, p.filesz);
    ReadWord(image, a + 20, p.memsz);
  }

  function DiskPos(s: Segment): nat {
    USER_OFFSET_IN_DISK + s.off
  }

  /** First address the loader writes for s, and one past the last. */
  function Low(s: Segment): int {
    s.paddr - Lead(DiskPos(s))
  }

  function High(s: Segment): int {
    var read := Low(s) + Span(DiskPos(s), s.filesz);
    if read < s.paddr + s.memsz then s.paddr + s.memsz else read
  }

  /** One past the last byte that belongs to s. */
  function End(s: Segment): nat {
    s.paddr + if s.memsz < s.filesz then s.filesz else s.memsz
  }

  predicate Clear(lo: int, hi: int, lo': int, hi': int) {
    hi <= lo' || hi' <= lo
  }

  /** All sectors of s are on the disk, and loading s stays in memory and off the header buffer. */
  predicate Loadable(s: Segment, memLen: nat, diskLen: nat, buffer: nat) {
    && 0 <= Low(s) && High(s) <= memLen
    && DiskPos(s) - Lead(DiskPos(s)) + Span(DiskPos(s), s.filesz) <= diskLen
    && Clear(Low(s), High(s), buffer, buffer + ELF_BUFFER)
  }

  /** A later load does not touch what an earlier one left. */
  predicate Kept(early: Segment, late: Segment) {
    Clear(Low(late), High(late), early.paddr, End(early))
  }

  ghost predicate Program(image: seq<Byte>, memLen: nat, diskLen: nat, buffer: nat) {
    && |image| == ELF_BUFFER && Phoff(image) + PH_SIZE * Phnum(image) <= ELF_BUFFER
    && (forall i :: 0 <= i < Phnum(image) && Header(image, i).kind == PT_LOAD ==> Loadable(Header(image, i), memLen, diskLen, buffer))
    && forall i, j :: 0 <= i < j < Phnum(image) && Header(image, i).kind == PT_LOAD && Header(image, j).kind == PT_LOAD ==>
      Kept(Header(image, i), Header(image, j))
  }

  /** The segment is in memory: its bytes of the file, then zeros. */
  ghost predicate InMemory(s: Segment, mem: seq<Byte>, disk: seq<Byte>) {
    && s.paddr + s.filesz <= |mem| && s.paddr + s.memsz <= |mem| && DiskPos(s) + s.filesz <= |disk|
    && mem[s.paddr..s.paddr + s.filesz] == disk[DiskPos(s)..DiskPos(s) + s.filesz]
    && forall a :: s.paddr + s.filesz <= a < s.paddr + s.memsz ==> mem[a] == 0
  }

  lemma StaysInMemory(s: Segment, mem: seq<Byte>, later: seq<Byte>, disk: seq<Byte>)
    requires InMemory(s, mem, disk) && |later| == |mem|
    requires forall a :: s.paddr <= a < End(s) ==> later[a] == mem[a]
    ensures InMemory(s, later, disk)
  {
    assert mem[s.paddr..s.paddr + s.filesz] == later[s.paddr..s.paddr + s.filesz];
  }

  method LoadSegment(m: Machine, s: Segment, ghost buffer: nat)
    requires m.mem != m.disk && Loadable(s, m.mem.Length, m.disk.Length, buffer)
    modifies m.mem
    ensures InMemory(s, m.mem[..], m.disk[..])
    ensures forall a :: 0 <= a < m.mem.Length && !(Low(s) <= a < High(s)) ==> m.mem[a] == old(m.mem[a])
  {
    hide Put, Span, Sectors;
    SpanCovers(DiskPos(s), s.filesz);
    ghost var before := m.mem[..];
    m.ReadBytes(s.paddr, USER_OFFSET_IN_DISK + s.off, s.filesz);
    ghost var read := m.mem[..];
    assert forall a :: 0 <= a < m.mem.Length ==> read[a] == m.mem[a] && before[a] == old(m.mem[a]);
    assert m.mem[s.paddr..s.paddr + s.filesz] == read[s.paddr..s.paddr + s.filesz];
    assert m.disk[..][DiskPos(s)..DiskPos(s) + s.filesz] == m.disk[DiskPos(s)..DiskPos(s) + s.filesz];
    m.MemSet(s.paddr + s.filesz, s.paddr + s.memsz, 0);
    assert m.mem[..][s.paddr..s.paddr + s.filesz] == read[s.paddr..s.paddr + s.filesz];
  }

  /** The first n loadable segments are in memory. */
  ghost predicate Loaded(image: seq<Byte>, n: nat, mem: seq<Byte>, disk: seq<Byte>)
    requires |image| == ELF_BUFFER && n <= Phnum(image) && Phoff(image) + PH_SIZE * Phnum(image) <= ELF_BUFFER
  {
    forall i :: 0 <= i < n && Header(image, i).kind == PT_LOAD ==> InMemory(Header(image, i), mem, disk)
  }

  lemma LoadedNext(image: seq<Byte>, n: nat, mem: seq<Byte>, later: seq<Byte>, disk: seq<Byte>, buffer: nat)
    requires Program(image, |mem|, |disk|, buffer) && |later| == |mem| && n < Phnum(image) && Loaded(image, n, mem, disk)
    requires Header(image, n).kind == PT_LOAD && InMemory(Header(image, n), later, disk)
    requires forall a :: 0 <= a < |mem| && !(Low(Header(image, n)) <= a < High(Header(image, n))) ==> later[a] == mem[a]
    ensures Loaded(image, n + 1, later, disk)
  {
    var s := Header(image, n);
    forall i | 0 <= i < n && Header(image, i).kind == PT_LOAD
      ensures InMemory(Header(image, i), later, disk)
    {
      assert Kept(Header(image, i), s);
      StaysInMemory(Header(image, i), mem, later, disk);
    }
  }

  /** One more segment, with the header buffer and the earlier segments left as they are. */
  method LoadNext(m: Machine, ph: Segment, buffer: nat, ghost image: seq<Byte>, ghost n: nat)
    requires m.mem != m.disk && buffer + ELF_BUFFER <= m.mem.Length
    requires Program(image, m.mem.Length, m.disk.Length, buffer)
    requires n < Phnum(image) && ph == Header(image, n) && ph.kind == PT_LOAD && Loaded(image, n, m.mem[..], m.disk[..])
    modifies m.mem
    ensures Loaded(image, n + 1, m.mem[..], m.disk[..])
    ensures m.mem[buffer..buffer + ELF_BUFFER] == old(m.mem[buffer..buffer + ELF_BUFFER])
  {
    hide InMemory, U32, U16, Span, Low, High, Loaded;
    ghost var before := m.mem[..];
    LoadSegment(m, ph, buffer);
    LoadedNext(image, n, before, m.mem[..], m.disk[..], buffer);
    BufferKept(before, m.mem[..], Low(ph), High(ph), buffer);
    assert m.mem[..][buffer..buffer + ELF_BUFFER] == m.mem[buffer..buffer + ELF_BUFFER];
    assert before[buffer..buffer + ELF_BUFFER] == old(m.mem[buffer..buffer + ELF_BUFFER]);
  }

  /** Every loadable segment ends up in memory; entry is where the program starts. */
  method LoadUMain(m: Machine, buffer: nat) returns (entry: nat)
    requires m.mem != m.disk && buffer + ELF_BUFFER <= m.mem.Length && USER_OFFSET_IN_DISK + ELF_BUFFER <= m.disk.Length
    requires Program(m.disk[USER_OFFSET_IN_DISK..USER_OFFSET_IN_DISK + ELF_BUFFER], m.mem.Length, m.disk.Length, buffer)
    modifies m.mem
    ensures entry == EntryPoint(m.disk[USER_OFFSET_IN_DISK..USER_OFFSET_IN_DISK + ELF_BUFFER])
    ensures var image := m.disk[USER_OFFSET_IN_DISK..USER_OFFSET_IN_DISK + ELF_BUFFER];
      && Loaded(image, Phnum(image), m.mem[..], m.disk[..])
      && forall x: Executable :: WellFormed(x) && Encode(x) == image ==>
        entry == x.header.entry && AllLoaded(x, m.mem[..], m.disk[..])
  {
    hide InMemory, U32, U16, Span, Lead, Put, Low, High, Loaded, Loadable, Kept;
    ghost var image := m.disk[USER_OFFSET_IN_DISK..USER_OFFSET_IN_DISK + ELF_BUFFER];
    HeaderSpan();
    m.ReadBytes(buffer, USER_OFFSET_IN_DISK, ELF_BUFFER);
    NoneLoaded(image, m.mem[..], m.disk[..]);
    var i, phnum := 0, Phnum(m.mem[buffer..buffer + ELF_BUFFER]);
    while i < phnum
      invariant 0 <= i <= phnum
      invariant m.mem[buffer..buffer + ELF_BUFFER] == image
      invariant Loaded(image, i, m.mem[..], m.disk[..])
    {
      var ph := Header(m.mem[buffer..buffer + ELF_BUFFER], i);
      if ph.kind == PT_LOAD {
        LoadNext(m, ph, buffer, image, i);
      } else {
        LoadedSkip(image, i, m.mem[..], m.disk[..]);
      }
      i := i + 1;
    }
    entry := EntryPoint(m.mem[buffer..buffer + ELF_BUFFER]);
    ExecutableLoaded(image, m.mem[..], m.disk[..]);
  }

  /** The segment as the ABI describes it: the bytes of the file at its physical address, then zeros up to its memory size. */
  ghost predicate SegmentLoaded(p: ProgramHeader, mem: seq<Byte>, disk: seq<Byte>) {
    && p.paddr + p.filesz <= |mem| && p.paddr + p.memsz <= |mem| && USER_OFFSET_IN_DISK + p.off + p.filesz <= |disk|
    && (forall a :: p.paddr <= a < p.paddr + p.filesz ==> mem[a] == disk[USER_OFFSET_IN_DISK + p.off + (a - p.paddr)])
    && forall a :: p.paddr + p.filesz <= a < p.paddr + p.memsz ==> mem[a] == 0
  }

  ghost predicate AllLoaded(x: Executable, mem: seq<Byte>, disk: seq<Byte>) {
    forall i :: 0 <= i < |x.segments| && x.segments[i].kind == 1 ==> SegmentLoaded(x.segments[i], mem, disk)
  }

  lemma InMemoryLoaded(p: ProgramHeader, mem: seq<Byte>, disk: seq<Byte>)
    requires InMemory(SegmentOf(p), mem, disk)
    ensures SegmentLoaded(p, mem, disk)
  {
    var a, b := mem[p.paddr..p.paddr + p.filesz], disk[USER_OFFSET_IN_DISK + p.off..USER_OFFSET_IN_DISK + p.off + p.filesz];
    assert a == b;
    forall i | p.paddr <= i < p.paddr + p.filesz
      ensures mem[i] == disk[USER_OFFSET_IN_DISK + p.off + (i - p.paddr)]
    {
      assert a[i - p.paddr] == b[i - p.paddr];
    }
  }

  /** What is in memory, in terms of the executable that the disk was written with. */
  lemma ExecutableLoaded(image: seq<Byte>, mem: seq<Byte>, disk: seq<Byte>)
    requires |image| == ELF_BUFFER && Phoff(image) + PH_SIZE * Phnum(image) <= ELF_BUFFER
    requires Loaded(image, Phnum(image), mem, disk)
    ensures forall x: Executable :: WellFormed(x) && Encode(x) == image ==>
      EntryPoint(image) == x.header.entry && AllLoaded(x, mem, disk)
  {
    hide InMemory, SegmentLoaded, WellFormed, Encode, Header, Phoff, Phnum;
    forall x: Executable | WellFormed(x) && Encode(x) == image
      ensures EntryPoint(image) == x.header.entry && AllLoaded(x, mem, disk)
    {
      HeaderDecoded(x);
      forall i | 0 <= i < |x.segments| && x.segments[i].kind == 1
        ensures SegmentLoaded(x.segments[i], mem, disk)
      {
        SegmentDecoded(x, i);
        InMemoryLoaded(x.segments[i], mem, disk);
      }
    }
  }

  /** When an executable can be loaded, in terms of its program headers. */
  lemma EncodedProgram(x: Executable, memLen: nat, diskLen: nat, buffer: nat)
    requires WellFormed(x)
    requires forall i :: 0 <= i < |x.segments| && x.segments[i].kind == 1 ==> Loadable(SegmentOf(x.segments[i]), memLen, diskLen, buffer)
    requires forall i, j :: 0 <= i < j < |x.segments| && x.segments[i].kind == x.segments[j].kind == 1 ==>
      Kept(SegmentOf(x.segments[i]), SegmentOf(x.segments[j]))
    ensures Program(Encode(x), memLen, diskLen, buffer)
  {
    hide WellFormed, Encode, Header, Phoff, Phnum, Loadable, Kept;
    HeaderDecoded(x);
    forall i | 0 <= i < |x.segments|
      ensures Phoff(Encode(x)) + PH_SIZE * (i + 1) <= ELF_BUFFER && Header(Encode(x), i) == SegmentOf(x.segments[i])
    {
      SegmentDecoded(x, i);
    }
    HeadersFit(x);
  }

  lemma HeadersFit(x: Executable)
    requires WellFormed(x)
    ensures |Encode(x)| == ELF_BUFFER && Phoff(Encode(x)) + PH_SIZE * Phnum(Encode(x)) <= ELF_BUFFER
  {
    hide Encode, Phoff, Phnum;
    HeaderDecoded(x);
  }

  lemma HeaderSpan()
    ensures Lead(USER_OFFSET_IN_DISK) == 0 && Span(USER_OFFSET_IN_DISK, ELF_BUFFER) == ELF_BUFFER
  {
  }

  lemma NoneLoaded(image: seq<Byte>, mem: seq<Byte>, disk: seq<Byte>)
    requires |image| == ELF_BUFFER && Phoff(image) + PH_SIZE * Phnum(image) <= ELF_BUFFER
    ensures Loaded(image, 0, mem, disk)
  {
  }

  lemma LoadedSkip(image: seq<Byte>, n: nat, mem: seq<Byte>, disk: seq<Byte>)
    requires |image| == ELF_BUFFER && Phoff(image) + PH_SIZE * Phnum(image) <= ELF_BUFFER && n < Phnum(image)
    requires Loaded(image, n, mem, disk) && Header(image, n).kind != PT_LOAD
    ensures Loaded(image, n + 1, mem, disk)
  {
  }

  lemma BufferKept(mem: seq<Byte>, later: seq<Byte>, lo: int, hi: int, buffer: nat)
    requires |later| == |mem| && buffer + ELF_BUFFER <= |mem| && Clear(lo, hi, buffer, buffer + ELF_BUFFER)
    requires forall a :: 0 <= a < |mem| && !(lo <= a < hi) ==> later[a] == mem[a]
    ensures later[buffer..buffer + ELF_BUFFER] == mem[buffer..buffer + ELF_BUFFER]
  {
  }
}
