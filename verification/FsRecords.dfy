/** The entries of a directory as bytes of its block: 32 bytes each, an inode number and a name. */
module FsRecords {
  import opened FsModel
  import opened LittleEndian
  import opened FsTree

  /** A name as it is stored: characters of one byte, none of them 0, with room for the 0 behind them. */
  predicate Storable(name: string) {
    |name| < 28 && forall i :: 0 <= i < |name| ==> 0 < name[i] as int < 256
  }

  function NameBytes(name: string): (b: seq<Byte>)
    requires Storable(name)
    ensures |b| == 28
  {
    seq(28, i requires 0 <= i => if i < |name| then name[i] as int else 0)
  }

  predicate Fits(e: DirEntry) {
    e.inodeNo < 0x1_0000_0000 && Storable(e.filename)
  }

  function EntryBytes(e: DirEntry): (b: seq<Byte>)
    requires Fits(e)
    ensures |b| == 32
  {
    Bytes32(e.inodeNo) + NameBytes(e.filename)
  }

  function BlockBytes(es: seq<DirEntry>): (b: seq<Byte>)
    requires forall k :: 0 <= k < |es| ==> Fits(es[k])
    ensures |b| == 32 * |es|
  {
    if es == [] then [] else BlockBytes(es[..|es| - 1]) + EntryBytes(es[|es| - 1])
  }

  lemma {:induction false} TextOf(bytes: seq<Byte>, name: string)
    requires |name| < |bytes| && bytes[|name|] == 0
    requires forall i :: 0 <= i < |name| ==> 0 < name[i] as int < 256 && bytes[i] == name[i] as int
    ensures Text(bytes) == name
  {
    if name != [] {
      TextOf(bytes[1..], name[1..]);
      assert name == [name[0]] + name[1..];
      assert bytes[0] as char == name[0];
    }
  }

  lemma RecordRead(data: seq<Byte>, k: nat, e: DirEntry)
    requires |data| == MAX_FILE_SZ && k < NR_DIRDATA && Fits(e) && data[32 * k..32 * k + 32] == EntryBytes(e)
    ensures Record(data, k) == e
  {
    hide Text;
    var b := data[32 * k..32 * k + 32];
    assert forall i :: 0 <= i < 32 ==> data[32 * k + i] == b[i];
    Halves(e.inodeNo);
    var tail := data[32 * k + 4..];
    assert forall i :: 0 <= i < 28 ==> tail[i] == b[4 + i];
    TextOf(tail, e.filename);
  }

  lemma {:induction false} EntryAt(es: seq<DirEntry>, k: nat)
    requires (forall i :: 0 <= i < |es| ==> Fits(es[i])) && k < |es|
    ensures BlockBytes(es)[32 * k..32 * k + 32] == EntryBytes(es[k])
  {
    hide EntryBytes;
    if k < |es| - 1 {
      EntryAt(es[..|es| - 1], k);
    }
  }

  /** A block that was written entry by entry is read back entry by entry. */
  lemma BlockRead(es: seq<DirEntry>)
    requires |es| == NR_DIRDATA && forall k :: 0 <= k < |es| ==> Fits(es[k])
    ensures |BlockBytes(es)| == MAX_FILE_SZ && Overlay(BlockBytes(es)) == es
  {
    hide Record, EntryBytes;
    forall k | 0 <= k < NR_DIRDATA
      ensures Record(BlockBytes(es), k) == es[k]
    {
      EntryAt(es, k);
      RecordRead(BlockBytes(es), k, es[k]);
    }
  }
}
