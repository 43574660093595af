/** The layout of an ELF32 executable, as the chapters "ELF Header" and "Program Header" of the System V ABI give it, written out as an encoder. */
module Elf {
  import opened FsModel
  import opened LittleEndian

  datatype ElfHeader = ElfHeader(
    magic: Word,
    ident: seq<Byte>,
    kind: Half,
    machine: Half,
    version: Word,
    entry: Word,
    phoff: Word,
    shoff: Word,
    flags: Word,
    ehsize: Half,
    phentsize: Half,
    phnum: Half,
    shentsize: Half,
    shnum: Half,
    shstrndx: Half)

  datatype ProgramHeader = ProgramHeader(
    kind: Word,
    off: Word,
    vaddr: Word,
    paddr: Word,
    filesz: Word,
    memsz: Word,
    flags: Word,
    align: Word)

  /** The first bytes of an executable: its header, whatever is in front of the program headers, these, and the rest. */
  datatype Executable = Executable(header: ElfHeader, gap: seq<Byte>, segments: seq<ProgramHeader>, rest: seq<Byte>)

  // ---------------------------------------------------------------- encoding

  function HeaderBytes(h: ElfHeader): (b: seq<Byte>)
    requires |h.ident| == 12
    ensures |b| == 52
  {
    Bytes32(h.magic) + h.ident + Bytes16(h.kind) + Bytes16(h.machine) + Bytes32(h.version)
    + Bytes32(h.entry) + Bytes32(h.phoff) + Bytes32(h.shoff) + Bytes32(h.flags)
    + Bytes16(h.ehsize) + Bytes16(h.phentsize) + Bytes16(h.phnum)
    + Bytes16(h.shentsize) + Bytes16(h.shnum) + Bytes16(h.shstrndx)
  }

  function ProgramHeaderBytes(p: ProgramHeader): (b: seq<Byte>)
    ensures |b| == 32
  {
    Bytes32(p.kind) + Bytes32(p.off) + Bytes32(p.vaddr) + Bytes32(p.paddr)
    + Bytes32(p.filesz) + Bytes32(p.memsz) + Bytes32(p.flags) + Bytes32(p.align)
  }

  function SegmentBytes(ps: seq<ProgramHeader>): (b: seq<Byte>)
    ensures |b| == 32 * |ps|
  {
    if ps == [] then [] else SegmentBytes(ps[..|ps| - 1]) + ProgramHeaderBytes(ps[|ps| - 1])
  }

  /** The header says where the program headers are and how many, and they fit the first 4096 bytes. */
  predicate WellFormed(x: Executable) {
    && |x.header.ident| == 12
    && x.header.phoff == 52 + |x.gap| && x.header.phnum == |x.segments|
    && 52 + |x.gap| + 32 * |x.segments| + |x.rest| == 4096
  }

  function Encode(x: Executable): (b: seq<Byte>)
    requires WellFormed(x)
    ensures |b| == 4096
  {
    HeaderBytes(x.header) + x.gap + SegmentBytes(x.segments) + x.rest
  }

  // ---------------------------------------------------------------- where the fields are

  lemma HeaderFields(h: ElfHeader)
    requires |h.ident| == 12
    ensures HeaderBytes(h)[24..28] == Bytes32(h.entry) && HeaderBytes(h)[28..32] == Bytes32(h.phoff)
    ensures HeaderBytes(h)[44..46] == Bytes16(h.phnum)
  {
    hide Bytes16, Bytes32;
  }

  lemma ProgramHeaderFields(p: ProgramHeader)
    ensures var b := ProgramHeaderBytes(p);
      && b[0..4] == Bytes32(p.kind) && b[4..8] == Bytes32(p.off) && b[12..16] == Bytes32(p.paddr)
      && b[16..20] == Bytes32(p.filesz) && b[20..24] == Bytes32(p.memsz)
  {
    hide Bytes32;
  }

  lemma {:induction false} SegmentAt(ps: seq<ProgramHeader>, i: nat)
    requires i < |ps|
    ensures SegmentBytes(ps)[32 * i..32 * i + 32] == ProgramHeaderBytes(ps[i])
  {
    hide ProgramHeaderBytes;
    if i < |ps| - 1 {
      SegmentAt(ps[..|ps| - 1], i);
    }
  }

  lemma Middle(a: seq<Byte>, b: seq<Byte>, c: seq<Byte>, lo: nat, hi: nat)
    requires lo <= hi <= |b|
    ensures (a + b + c)[|a| + lo..|a| + hi] == b[lo..hi]
  {
  }

  lemma EncodedHeader(x: Executable, lo: nat, hi: nat)
    requires WellFormed(x) && lo <= hi <= 52
    ensures Encode(x)[lo..hi] == HeaderBytes(x.header)[lo..hi]
  {
    hide HeaderBytes, SegmentBytes;
  }

  lemma EncodedSegment(x: Executable, i: nat, lo: nat, hi: nat)
    requires WellFormed(x) && i < |x.segments| && lo <= hi <= 32
    ensures var a := x.header.phoff + 32 * i; Encode(x)[a + lo..a + hi] == ProgramHeaderBytes(x.segments[i])[lo..hi]
  {
    hide HeaderBytes, SegmentBytes, ProgramHeaderBytes;
    var front, all := HeaderBytes(x.header) + x.gap, SegmentBytes(x.segments);
    SegmentAt(x.segments, i);
    Middle(front, all, x.rest, 32 * i + lo, 32 * i + hi);
    assert all[32 * i..32 * i + 32][lo..hi] == all[32 * i + lo..32 * i + hi];
  }
}
