/** Numbers as the processor stores them, lowest byte first. */
module LittleEndian {
  import opened FsModel

  type Half = x: int | 0 <= x < 0x1_0000
  type Word = x: int | 0 <= x < 0x1_0000_0000

  function Low8(x: nat): Byte {
    x % 0x100
  }

  function Bytes16(x: Half): (b: seq<Byte>)
    ensures |b| == 2
  {
    [Low8(x), Low8(x / 0x100)]
  }

  function Bytes32(x: Word): (b: seq<Byte>)
    ensures |b| == 4
  {
    [Low8(x), Low8(x / 0x100), Low8(x / 0x1_0000), Low8(x / 0x100_0000)]
  }

  lemma Halves(x: Word)
    ensures Low8(x) + 0x100 * Low8(x / 0x100) + 0x1_0000 * (Low8(x / 0x1_0000) + 0x100 * Low8(x / 0x100_0000)) == x
  {
    var q, r, t := x / 0x100, x / 0x1_0000, x / 0x100_0000;
    assert x == 0x100 * q + Low8(x) && q == 0x100 * r + Low8(q) && r == 0x100 * t + Low8(r) && Low8(t) == t;
  }
}
