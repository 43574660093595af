/** The scan that every search of a directory makes: it counts entries in use up to filenum. */
module FsScan {
  import opened Seqs
  import opened FsModel

  /** Overrun: the loop reads behind the last entry of the table. */
  datatype Scanned = Found(inode: nat) | Missing | Overrun

  /** The loop at entry i, cont entries in use being behind it. */
  function Scan(fs: Fs, es: seq<DirEntry>, filenum: nat, name: string, kind: FileType, i: nat, cont: nat): Scanned
    requires i <= |es|
    decreases |es| - i
  {
    if cont >= filenum then Missing
    else if i == |es| then Overrun
    else if es[i].filename == "" then Scan(fs, es, filenum, name, kind, i + 1, cont)
    else if Matches(fs, es[i], name, kind) then Found(es[i].inodeNo)
    else Scan(fs, es, filenum, name, kind, i + 1, cont + 1)
  }

  /** The scan of directory p. */
  function ScanIn(fs: Fs, p: nat, name: string, kind: FileType): Scanned
    requires p < |fs.inodes|
  {
    Scan(fs, fs.inodes[p].entries, fs.inodes[p].size, name, kind, 0, 0)
  }

  lemma {:induction false} CountMonotone(es: seq<DirEntry>, i: nat)
    requires i <= |es|
    ensures Count(es[..i]) <= Count(es)
    ensures Count(es[..i]) == Count(es) ==> forall k :: i <= k < |es| ==> es[k].filename == ""
  {
    if i < |es| {
      CountMonotone(es[..|es| - 1], i);
      assert es[..|es| - 1][..i] == es[..i];
    } else {
      assert es[..i] == es;
    }
  }

  lemma CountNext(es: seq<DirEntry>, i: nat)
    requires i < |es|
    ensures Count(es[..i + 1]) == Count(es[..i]) + if es[i].filename != "" then 1 else 0
  {
    assert es[..i + 1][..i] == es[..i];
  }

  lemma CountZero(es: seq<DirEntry>)
    ensures Count(es[..0]) == 0
  {
  }

  lemma FindNext(fs: Fs, es: seq<DirEntry>, i: nat, name: string, kind: FileType)
    requires i <= |es|
    ensures Find(fs, es[i..], name, kind) ==
      if i == |es| then None else if Matches(fs, es[i], name, kind) then Some(es[i].inodeNo) else Find(fs, es[i + 1..], name, kind)
  {
    if i < |es| {
      assert es[i..][0] == es[i] && es[i..][1..] == es[i + 1..];
    }
  }

  /** Past the last entry in use there is nothing to find. */
  lemma FindPast(fs: Fs, es: seq<DirEntry>, i: nat, name: string, kind: FileType)
    requires i <= |es| && Count(es[..i]) >= Count(es)
    ensures Find(fs, es[i..], name, kind) == None
  {
    CountMonotone(es, i);
    assert forall k :: 0 <= k < |es[i..]| ==> es[i..][k] == es[i + k];
  }

  lemma {:induction false} ScanFrom(fs: Fs, es: seq<DirEntry>, filenum: nat, name: string, kind: FileType, i: nat)
    requires i <= |es|
    ensures var r := Scan(fs, es, filenum, name, kind, i, Count(es[..i]));
      && (r == Overrun <==> Find(fs, es[i..], name, kind).None? && filenum > Count(es))
      && (Count(es) <= filenum ==> (forall c: nat :: r == Found(c) <==> Find(fs, es[i..], name, kind) == Some(c)))
      && (forall c: nat :: r == Found(c) ==> Find(fs, es[i..], name, kind) == Some(c))
    decreases |es| - i
  {
    hide Count, Find, Matches;
    CountMonotone(es, i);
    if Count(es[..i]) >= filenum {
      if Count(es) <= filenum {
        FindPast(fs, es, i, name, kind);
      }
    } else {
      FindNext(fs, es, i, name, kind);
      assert es[..|es|] == es;
      if i < |es| {
        CountNext(es, i);
        ScanFrom(fs, es, filenum, name, kind, i + 1);
        assert es[i].filename == "" ==> !Matches(fs, es[i], name, kind) by { NoEmptyMatch(fs, es[i], name, kind); }
      }
    }
  }

  lemma NoEmptyMatch(fs: Fs, e: DirEntry, name: string, kind: FileType)
    ensures Matches(fs, e, name, kind) ==> e.filename != ""
  {
  }

  /** What a scan makes of a search, given whether filenum is exact. */
  function Verdict(r: Option<nat>, exact: bool): Scanned {
    match r
    case Some(c) => Found(c)
    case None => if exact then Missing else Overrun
  }

  /**
   The scan overruns the table exactly when nothing matches and filenum exceeds the entries in use.  As
   long as filenum is not too small it finds exactly what there is to find.
   */
  lemma ScanExactly(fs: Fs, p: nat, name: string, kind: FileType)
    requires p < |fs.inodes|
    ensures ScanIn(fs, p, name, kind) == Overrun <==>
      FindIn(fs, p, name, kind).None? && fs.inodes[p].size > Count(fs.inodes[p].entries)
    ensures Counted(fs, p) ==>
      ScanIn(fs, p, name, kind) == Verdict(FindIn(fs, p, name, kind), fs.inodes[p].size == Count(fs.inodes[p].entries))
  {
    var es := fs.inodes[p].entries;
    hide Count, Find;
    assert es[..0] == [] && es[0..] == es;
    CountZero(es);
    ScanFrom(fs, es, fs.inodes[p].size, name, kind, 0);
  }
}
