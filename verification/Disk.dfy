/** Copies between memory and disk in whole sectors, and the loaders built on them. */
module Disk {
  import opened FsModel

  const SECTSIZE: nat := 512
  const USER_OFFSET_IN_DISK: nat := 512 + 102400
  const FS_OFFSET_IN_DISK: nat := 512 + 102400 + 10240
  const FS_OFFSET_IN_MEM: nat := 0x01000000
  const FS_SIZE: nat := 2 * 1024 * 1024
  const ELF_BUFFER: nat := 4096

  /** Sectors touched when cont bytes are copied from or to position off. */
  function Sectors(off: nat, cont: nat): nat {
    (off % SECTSIZE + cont + SECTSIZE - 1) / SECTSIZE
  }

  /** The rounded range starts this far before the first byte wanted, at the start of a sector. */
  function Lead(off: nat): nat {
    off % SECTSIZE
  }

  /** And has this length. */
  function Span(off: nat, cont: nat): nat {
    Sectors(off, cont) * SECTSIZE
  }

  lemma SpanCovers(off: nat, cont: nat)
    ensures Lead(off) + cont <= Span(off, cont) < Lead(off) + cont + SECTSIZE
    ensures Span(off, cont) % SECTSIZE == 0 && (off - Lead(off)) % SECTSIZE == 0 && 0 <= Lead(off) <= off
    ensures off - Lead(off) == off / SECTSIZE * SECTSIZE
  {
  }

  /** Memory after the bytes disk[from..from + n] have been put at to. */
  function Put(dst: seq<Byte>, to: nat, src: seq<Byte>, from: nat, n: nat): (r: seq<Byte>)
    requires to + n <= |dst| && from + n <= |src|
    ensures |r| == |dst|
    ensures forall a :: 0 <= a < |r| ==> r[a] == if to <= a < to + n then src[from + a - to] else dst[a]
  {
    dst[..to] + src[from..from + n] + dst[to + n..]
  }

  lemma PutMore(dst: seq<Byte>, to: nat, src: seq<Byte>, from: nat, n: nat, m: nat)
    requires to + n + m <= |dst| && from + n + m <= |src|
    ensures Put(Put(dst, to, src, from, n), to + n, src, from + n, m) == Put(dst, to, src, from, n + m)
  {
  }

  /** The part wanted of a longer copy. */
  lemma PutInner(dst: seq<Byte>, to: nat, src: seq<Byte>, from: nat, n: nat, lead: nat, cont: nat)
    requires to + n <= |dst| && from + n <= |src| && lead + cont <= n
    ensures Put(dst, to, src, from, n)[to + lead..to + lead + cont] == src[from + lead..from + lead + cont]
  {
  }

  class Machine {
    const mem: array<Byte>
    const disk: array<Byte>

    constructor (mem: array<Byte>, disk: array<Byte>)
      ensures this.mem == mem && this.disk == disk
    {
      this.mem, this.disk := mem, disk;
    }

    /** One sector, four bytes at a time, as the port delivers them. */
    method ReadSect(dst: nat, sector: nat)
      requires mem != disk && dst + SECTSIZE <= mem.Length && (sector + 1) * SECTSIZE <= disk.Length
      modifies mem
      ensures mem[..] == Put(old(mem[..]), dst, disk[..], sector * SECTSIZE, SECTSIZE)
    {
      var i, from := 0, sector * SECTSIZE;
      while i < SECTSIZE / 4
        invariant 0 <= i <= SECTSIZE / 4
        invariant forall a :: 0 <= a < mem.Length ==>
          mem[a] == if dst <= a < dst + 4 * i then disk[from + a - dst] else old(mem[a])
      {
        var a, d := dst + 4 * i, from + 4 * i;
        mem[a] := disk[d];
        mem[a + 1] := disk[d + 1];
        mem[a + 2] := disk[d + 2];
        mem[a + 3] := disk[d + 3];
        i := i + 1;
      }
    }

    method WriteSect(src: nat, sector: nat)
      requires mem != disk && src + SECTSIZE <= mem.Length && (sector + 1) * SECTSIZE <= disk.Length
      modifies disk
      ensures disk[..] == Put(old(disk[..]), sector * SECTSIZE, mem[..], src, SECTSIZE)
    {
      var i, to := 0, sector * SECTSIZE;
      while i < SECTSIZE / 4
        invariant 0 <= i <= SECTSIZE / 4
        invariant forall a :: 0 <= a < disk.Length ==>
          disk[a] == if to <= a < to + 4 * i then mem[src + a - to] else old(disk[a])
      {
        var a, d := src + 4 * i, to + 4 * i;
        disk[d] := mem[a];
        disk[d + 1] := mem[a + 1];
        disk[d + 2] := mem[a + 2];
        disk[d + 3] := mem[a + 3];
        i := i + 1;
      }
    }

    /** The bytes wanted, and what their sectors hold on both sides of them. */
    method ReadBytes(addr: nat, diskoff: nat, cont: nat)
      requires mem != disk && Lead(diskoff) <= addr && Lead(diskoff) <= diskoff
      requires addr - Lead(diskoff) + Span(diskoff, cont) <= mem.Length
      requires diskoff - Lead(diskoff) + Span(diskoff, cont) <= disk.Length
      modifies mem
      ensures mem[..] == Put(old(mem[..]), addr - Lead(diskoff), disk[..], diskoff - Lead(diskoff), Span(diskoff, cont))
      ensures addr + cont <= mem.Length && diskoff + cont <= disk.Length
      ensures mem[addr..addr + cont] == disk[diskoff..diskoff + cont]
    {
      hide Put, Span;
      SpanCovers(diskoff, cont);
      ghost var lead := Lead(diskoff);
      var addrEnd := addr + cont;
      var p := addr - diskoff % SECTSIZE;
      var section := diskoff / SECTSIZE;
      ghost var start, from, done := p, section * SECTSIZE, 0;
      while p < addrEnd
        invariant p == start + done && section * SECTSIZE == from + done && done <= Span(diskoff, cont)
        invariant done % SECTSIZE == 0
        invariant mem[..] == Put(old(mem[..]), start, disk[..], from, done)
        decreases addrEnd - p
      {
        NextSector(diskoff, cont, done);
        PutMore(old(mem[..]), start, disk[..], from, done, SECTSIZE);
        ReadSect(p, section);
        p := p + SECTSIZE;
        section := section + 1;
        done := done + SECTSIZE;
      }
      LastSector(diskoff, cont, done);
      assert done == Span(diskoff, cont) && start == addr - lead && from == diskoff - lead;
      PutInner(old(mem[..]), start, disk[..], from, done, lead, cont);
      assert mem[..][addr..addr + cont] == mem[addr..addr + cont] && disk[..][diskoff..diskoff + cont] == disk[diskoff..diskoff + cont];
    }

    /** False, with nothing changed, where the kernel halts: the disk position is not a sector start. */
    method WriteBytes(addr: nat, diskoff: nat, cont: nat) returns (ok: bool)
      requires mem != disk
      requires addr + Span(diskoff, cont) <= mem.Length && diskoff + Span(diskoff, cont) <= disk.Length
      modifies disk
      ensures ok <==> diskoff % SECTSIZE == 0
      ensures ok ==> disk[..] == Put(old(disk[..]), diskoff, mem[..], addr, Span(diskoff, cont))
      ensures !ok ==> disk[..] == old(disk[..])
    {
      if diskoff % SECTSIZE != 0 {
        return false;
      }
      SpanCovers(diskoff, cont);
      var addrEnd := addr + cont;
      var p := addr;
      var section := diskoff / SECTSIZE;
      ghost var done := 0;
      while p < addrEnd
        invariant p == addr + done && section * SECTSIZE == diskoff + done && done <= Span(diskoff, cont)
        invariant done % SECTSIZE == 0
        invariant disk[..] == Put(old(disk[..]), diskoff, mem[..], addr, done)
        decreases addrEnd - p
      {
        NextSector(diskoff, cont, done);
        PutMore(old(disk[..]), diskoff, mem[..], addr, done, SECTSIZE);
        WriteSect(p, section);
        p := p + SECTSIZE;
        section := section + 1;
        done := done + SECTSIZE;
      }
      LastSector(diskoff, cont, done);
      return true;
    }

    method MemSet(beg: nat, end: nat, bt: Byte)
      requires end <= mem.Length
      modifies mem
      ensures forall a :: 0 <= a < mem.Length ==> mem[a] == if beg <= a < end then bt else old(mem[a])
    {
      var temp := beg;
      while temp < end
        invariant temp >= beg && (temp <= end || temp == beg)
        invariant forall a :: 0 <= a < mem.Length ==> mem[a] == if beg <= a < temp then bt else old(mem[a])
      {
        mem[temp] := bt;
        temp := temp + 1;
      }
    }

    ghost predicate HoldsFs() {
      mem != disk && FS_OFFSET_IN_MEM + FS_SIZE <= mem.Length && FS_OFFSET_IN_DISK + FS_SIZE <= disk.Length
    }

    /** The image of the file system in memory. */
    ghost function Image(): seq<Byte>
      requires HoldsFs()
      reads mem
    {
      mem[FS_OFFSET_IN_MEM..FS_OFFSET_IN_MEM + FS_SIZE]
    }

    ghost function DiskImage(): seq<Byte>
      requires HoldsFs()
      reads disk
    {
      disk[FS_OFFSET_IN_DISK..FS_OFFSET_IN_DISK + FS_SIZE]
    }

    /** writeBack puts exactly the image on the disk. */
    method WriteBack()
      requires HoldsFs()
      modifies disk
      ensures DiskImage() == Image()
      ensures forall a :: 0 <= a < disk.Length && !(FS_OFFSET_IN_DISK <= a < FS_OFFSET_IN_DISK + FS_SIZE) ==> disk[a] == old(disk[a])
    {
      var ok := WriteBytes(FS_OFFSET_IN_MEM, FS_OFFSET_IN_DISK, FS_SIZE);
      assert forall a :: 0 <= a < disk.Length ==> disk[..][a] == disk[a] && old(disk[..])[a] == old(disk[a]);
    }

    /** loadFS brings exactly the image back, whatever memory held. */
    method LoadFS()
      requires HoldsFs()
      modifies mem
      ensures Image() == DiskImage()
      ensures forall a :: 0 <= a < mem.Length && !(FS_OFFSET_IN_MEM <= a < FS_OFFSET_IN_MEM + FS_SIZE) ==> mem[a] == old(mem[a])
    {
      MemSet(FS_OFFSET_IN_MEM, FS_OFFSET_IN_MEM + FS_SIZE, 0);
      ghost var before := mem[..];
      ReadBytes(FS_OFFSET_IN_MEM, FS_OFFSET_IN_DISK, FS_SIZE);
      assert forall a :: 0 <= a < mem.Length ==> mem[..][a] == mem[a];
    }

    /** A reboot: what was written back is what is loaded, even if memory is lost in between. */
    method Reboot(lost: Byte)
      requires HoldsFs()
      modifies mem, disk
      ensures Image() == old(Image())
    {
      ghost var image := Image();
      WriteBack();
      MemSet(0, mem.Length, lost);
      LoadFS();
    }
  }

  /** While bytes are missing another whole sector belongs to the span. */
  lemma NextSector(off: nat, cont: nat, done: nat)
    requires done % SECTSIZE == 0 && done < Lead(off) + cont
    ensures done + SECTSIZE <= Span(off, cont)
  {
    SpanCovers(off, cont);
  }

  lemma LastSector(off: nat, cont: nat, done: nat)
    requires done % SECTSIZE == 0 && Lead(off) + cont <= done <= Span(off, cont)
    ensures done == Span(off, cont)
  {
    SpanCovers(off, cont);
  }
}
