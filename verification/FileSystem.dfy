/** The file system in memory: the inode map, the inode table and the loops that search and change them. */
module FileSystem {
  import opened Seqs
  import opened Paths
  import opened FsModel
  import opened FsTree
  import opened FsGrowth
  import opened FsPaths
  import opened FsRemoval
  import opened FsScan
  import opened FileData

  datatype Status = Done | Refusal | Abort

  /** Every entry in use names an inode of the table. */
  ghost predicate InRange(fs: Fs, p: nat) {
    p < |fs.inodes| && forall k :: 0 <= k < |fs.inodes[p].entries| && fs.inodes[p].entries[k].filename != "" ==>
      fs.inodes[p].entries[k].inodeNo < |fs.inodes|
  }

  /** A scan of p for this name misses nothing and stays inside the table. */
  ghost predicate ScanReady(fs: Fs, p: nat, name: string, kind: FileType) {
    InRange(fs, p) && Counted(fs, p) && ScanIn(fs, p, name, kind) != Overrun
  }

  /** As far as the directories of a walk exist they can be scanned. */
  ghost predicate WalkReady(fs: Fs, dirs: seq<string>) {
    |fs.inodes| > 0 && forall j :: 0 <= j < |dirs| ==>
      match Walk(fs, dirs[..j]) case None => true case Some(p) => ScanReady(fs, p, dirs[j], DIR)
  }

  /** As far as the directories of a path exist its search stays inside their tables. */
  ghost predicate SearchReady(fs: Fs, path: string, kind: FileType)
    requires SLASH in path
  {
    && WalkReady(fs, Parents(path))
    && match Walk(fs, Parents(path)) case None => true case Some(p) => ScanReady(fs, p, Base(path), kind)
  }

  /** The grandparent exists: the code does not stop at a directory it did not find. */
  ghost predicate WalkAlmost(fs: Fs, dirs: seq<string>) {
    |fs.inodes| > 0 && (dirs != [] ==> Walk(fs, dirs[..|dirs| - 1]).Some?)
  }

  function Position(r: Option<nat>): int {
    match r case None => -1 case Some(i) => i
  }

  /** Each directory name of the path fits the 28-byte buffers it is copied to. */
  ghost predicate ShortParents(path: string)
    requires SLASH in path
  {
    forall i :: 0 <= i < |Parents(path)| ==> |Parents(path)[i]| < MAX_FILENAME_LEN
  }

  /** So does the last name, with the slash a directory may get. */
  ghost predicate Buffered(path: string)
    requires SLASH in path
  {
    ShortParents(path) && |WithSlash(LastLevelName(path))| < MAX_FILENAME_LEN
  }

  class FileSys {
    const inodeMap: array<bool>
    const inodes: array<Inode>
    var topDir: string
    var pathOffset: nat

    ghost function View(): Fs
      reads inodeMap, inodes
    {
      Fs(inodeMap[..], inodes[..])
    }

    ghost predicate Valid()
      reads inodeMap, inodes
    {
      Shaped(View())
    }

    constructor (inodeMap: array<bool>, inodes: array<Inode>)
      ensures this.inodeMap == inodeMap && this.inodes == inodes
    {
      this.inodeMap, this.inodes := inodeMap, inodes;
      topDir, pathOffset := "", 0;
    }

    method GetAvlInode() returns (r: int)
      requires Valid()
      ensures r == if FreeInode(View()) == NR_INODE then -1 else FreeInode(View())
      ensures r != -1 ==> 0 <= r < NR_INODE && !View().inuse[r]
    {
      var i := 0;
      while i < NR_INODE
        invariant 0 <= i <= NR_INODE && forall j :: 0 <= j < i ==> inodeMap[..][j]
      {
        if !inodeMap[i] {
          assert !inodeMap[..][i];
          return i;
        }
        i := i + 1;
      }
      return -1;
    }

    method GetAvlDirdata(p: nat) returns (r: int)
      requires Valid() && p < NR_INODE
      ensures var k := FreeSlot(inodes[p].entries); r == if k == NR_DIRDATA then -1 else k
    {
      var es := inodes[p].entries;
      assert |View().inodes[p].entries| == NR_DIRDATA;
      var i := 0;
      while i < NR_DIRDATA
        invariant 0 <= i <= NR_DIRDATA && forall j :: 0 <= j < i ==> es[j].filename != ""
      {
        if es[i].filename == "" {
          return i;
        }
        i := i + 1;
      }
      return -1;
    }

    method GetTopDir(path: string)
      requires SLASH in path
      modifies this
      ensures topDir == TopDir(path) && pathOffset == |TopDir(path)|
    {
      topDir := "";
      var i := 0;
      while i < |path|
        invariant 0 <= i <= FirstSlash(path) && topDir == path[..i]
      {
        topDir := topDir + [path[i]];
        if path[i] == SLASH {
          pathOffset := i + 1;
          break;
        }
        i := i + 1;
      }
    }

    /** The scan that all lookups share.  Overrun where the code reads behind the entry table. */
    method ScanDir(p: nat, name: string, kind: FileType) returns (r: Scanned)
      requires Valid() && p < NR_INODE && InRange(View(), p)
      ensures r == ScanIn(View(), p, name, kind)
    {
      ghost var fs := View();
      ghost var es := fs.inodes[p].entries;
      assert |es| == NR_DIRDATA;
      var i, cont := 0, 0;
      while cont < inodes[p].size
        invariant 0 <= i <= NR_DIRDATA && 0 <= cont
        invariant ScanIn(fs, p, name, kind) == Scan(fs, es, inodes[p].size, name, kind, i, cont)
        decreases NR_DIRDATA - i
      {
        if i == NR_DIRDATA {
          return Overrun;
        }
        if inodes[p].entries[i].filename != "" {
          cont := cont + 1;
          if inodes[p].entries[i].filename == name {
            if inodes[inodes[p].entries[i].inodeNo].kind == kind {
              return Found(inodes[p].entries[i].inodeNo);
            }
          }
        }
        i := i + 1;
      }
      return Missing;
    }

    /** A scan that stays inside the table. */
    method Search(p: nat, name: string, kind: FileType) returns (index: int)
      requires Valid() && ScanReady(View(), p, name, kind)
      ensures index == Position(FindIn(View(), p, name, kind))
    {
      ScanExactly(View(), p, name, kind);
      hide ScanIn;
      var r := ScanDir(p, name, kind);
      match r {
        case Found(c) => index := c;
        case Missing => index := -1;
      }
    }

    /** Splits the first component off a path. */
    method Peel(path: string) returns (dir: string, rest: string)
      requires SLASH in path
      modifies this
      ensures dir == TopDir(path) && rest == BelowTop(path)
    {
      GetTopDir(path);
      dir := topDir;
      rest := path[pathOffset..];
    }

    /** The common loop of the three searches: from the root down to the last directory named. */
    method Descend(rest: string) returns (upper: int, last: string)
      requires Valid() && WalkReady(View(), Dirs(rest)) && WalkAlmost(View(), Dirs(rest))
      modifies this
      ensures upper == Position(Walk(View(), Dirs(rest))) && last == LastName(rest)
    {
      hide Dirs, LastName, TopDir, BelowTop, Walk, IsLastLevel, WalkReady, WalkAlmost;
      ghost var fs, ds := View(), Dirs(rest);
      ghost var done: seq<string> := [];
      WalkNowhere(fs);
      last := rest;
      upper := 0;
      var flat := LastLevel(last);
      while !flat
        invariant flat == IsLastLevel(last) && ds == done + Dirs(last) && LastName(last) == LastName(rest)
        invariant upper == Position(Walk(fs, done)) && fs == View()
        decreases |last|
      {
        SplitOne(last);
        ghost var before := last;
        var dir;
        dir, last := Peel(last);
        OneMore(ds, done, dir, Dirs(last));
        NextStep(fs, ds, done, dir);
        upper := Search(upper, dir, DIR);
        done := done + [dir];
        flat := LastLevel(last);
      }
      SplitOne(last);
      assert done == ds;
    }

    lemma WalkNowhere(fs: Fs)
      requires |fs.inodes| > 0
      ensures Walk(fs, []) == Some(0)
    {
    }

    lemma NextStep(fs: Fs, ds: seq<string>, done: seq<string>, dir: string)
      requires WalkReady(fs, ds) && WalkAlmost(fs, ds) && done + [dir] <= ds
      ensures Walk(fs, done).Some? && ScanReady(fs, Walk(fs, done).value, dir, DIR)
      ensures Walk(fs, done + [dir]) == FindIn(fs, Walk(fs, done).value, dir, DIR)
    {
      assert ds[..|done|] == done && ds[|done|] == dir;
      WalkPrefix(fs, ds[..|ds| - 1], |done|);
      assert ds[..|ds| - 1][..|done|] == done;
      assert (done + [dir])[..|done|] == done;
    }

    /** -1 when the last directory on the way is missing; nothing may be missing before that. */
    method FindUpperDirPos(abspath: string) returns (r: int)
      requires Valid() && SLASH in abspath && ShortParents(abspath)
      requires WalkReady(View(), Parents(abspath)) && WalkAlmost(View(), Parents(abspath))
      modifies this
      ensures r == Position(Walk(View(), Parents(abspath)))
    {
      if abspath == [SLASH] {
        return 0;
      }
      var dir, rest := Peel(abspath);
      var last;
      r, last := Descend(rest);
    }

    /** The same loop where the code halts at a missing directory. */
    method DescendOrHalt(rest: string) returns (ok: bool, upper: int, last: string)
      requires Valid() && WalkReady(View(), Dirs(rest))
      modifies this
      ensures ok <==> Walk(View(), Dirs(rest)).Some?
      ensures ok ==> upper == Position(Walk(View(), Dirs(rest))) && last == LastName(rest)
    {
      hide Dirs, LastName, TopDir, BelowTop, Walk, IsLastLevel, WalkReady;
      ghost var fs, ds := View(), Dirs(rest);
      ghost var done: seq<string> := [];
      WalkNowhere(fs);
      last := rest;
      upper := 0;
      var flat := LastLevel(last);
      while !flat
        invariant flat == IsLastLevel(last) && ds == done + Dirs(last) && LastName(last) == LastName(rest)
        invariant Walk(fs, done).Some? && upper == Walk(fs, done).value && fs == View()
        decreases |last|
      {
        SplitOne(last);
        ghost var before := last;
        var dir;
        dir, last := Peel(last);
        OneMore(ds, done, dir, Dirs(last));
        NextFound(fs, ds, done, dir);
        var index := Search(upper, dir, DIR);
        if index == -1 {
          return false, -1, last;
        }
        upper := index;
        done := done + [dir];
        flat := LastLevel(last);
      }
      SplitOne(last);
      assert done == ds;
      ok := true;
    }

    lemma OneMore(ds: seq<string>, done: seq<string>, dir: string, rest: seq<string>)
      requires ds == done + ([dir] + rest)
      ensures ds == (done + [dir]) + rest && done + [dir] <= ds
    {
      assert ds[..|done| + 1] == done + [dir] && ds[|done| + 1..] == rest;
    }

    lemma NextFound(fs: Fs, ds: seq<string>, done: seq<string>, dir: string)
      requires WalkReady(fs, ds) && done + [dir] <= ds && Walk(fs, done).Some?
      ensures ScanReady(fs, Walk(fs, done).value, dir, DIR)
      ensures Walk(fs, done + [dir]) == FindIn(fs, Walk(fs, done).value, dir, DIR)
      ensures Walk(fs, done + [dir]).None? ==> Walk(fs, ds).None?
    {
      assert ds[..|done|] == done && ds[|done|] == dir;
      assert (done + [dir])[..|done|] == done;
      if Walk(fs, ds).Some? {
        WalkPrefix(fs, ds, |done| + 1);
        assert ds[..|done| + 1] == done + [dir];
      }
    }

    /** The last scan of a lookup can be made too. */
    ghost predicate LookupReady(path: string, kind: FileType)
      requires SLASH in path
      reads inodeMap, inodes
    {
      SearchReady(View(), path, kind)
    }

    /** ok is false where the kernel halts: a directory on the way is missing. */
    method FindCurrentFLPos(abspath: string) returns (ok: bool, r: int)
      requires Valid() && SLASH in abspath && ShortParents(abspath) && LookupReady(abspath, FL)
      modifies this
      ensures ok <==> Walk(View(), Parents(abspath)).Some?
      ensures ok ==> r == Position(Lookup(View(), abspath, FL))
    {
      var dir, rest := Peel(abspath);
      var upper, last;
      ok, upper, last := DescendOrHalt(rest);
      r := -1;
      if ok {
        r := Search(upper, last, FL);
      }
    }

    method FindCurrentDirPos(abspath: string) returns (ok: bool, r: int)
      requires Valid() && SLASH in abspath && ShortParents(abspath) && LookupReady(abspath, DIR)
      modifies this
      ensures abspath == [SLASH] ==> ok && r == 0
      ensures abspath != [SLASH] ==> (ok <==> Walk(View(), Parents(abspath)).Some?)
      ensures abspath != [SLASH] && ok ==> r == Position(Lookup(View(), abspath, DIR))
    {
      if abspath == [SLASH] {
        return true, 0;
      }
      var dir, rest := Peel(abspath);
      var upper, last;
      ok, upper, last := DescendOrHalt(rest);
      r := -1;
      if ok {
        r := Search(upper, last, DIR);
      }
    }

    // -------------------------------------------------------------- creation

    /** The new entry of the parent directory. */
    method PutEntry(p: nat, d: nat, index: nat, name: string)
      requires Valid() && p < NR_INODE && d < NR_DIRDATA && d == FreeSlot(inodes[p].entries)
      modifies inodes
      ensures inodes.Length == NR_INODE && FreeSlot(old(inodes[p].entries)) < |old(inodes[p].entries)|
      ensures inodes[..] == old(inodes[..])[p := AddEntry(old(inodes[p]), index, name)]
    {
      assert |View().inodes[p].entries| == NR_DIRDATA;
      inodes[p] := inodes[p].(entries := inodes[p].entries[d := DirEntry(index, name)], size := inodes[p].size + 1);
    }

    /** The inode of a new directory, whose block keeps its old bytes behind the dots. */
    method PutDirectory(index: nat, p: nat, name: string)
      requires index < inodes.Length && index < inodeMap.Length && |inodes[index].data| == MAX_FILE_SZ
      modifies inodes, inodeMap
      ensures |old(inodes[index]).data| == MAX_FILE_SZ
      ensures inodes[..] == old(inodes[..])[index := AsDir(old(inodes[index]), index, p, name)]
      ensures inodeMap[..] == old(inodeMap[..])[index := true]
    {
      hide Overlay;
      inodes[index] := inodes[index].(kind := DIR, filename := name, size := 2, entries := Overlay(inodes[index].data));
      inodes[index] := inodes[index].(entries := inodes[index].entries[0 := DirEntry(index, ".")][1 := DirEntry(p, "..")]);
      inodeMap[index] := true;
    }

    method MakeDirectory(abspath: string) returns (status: Status)
      requires Valid() && inodeMap.Length == NR_INODE && SLASH in abspath && Buffered(abspath)
      requires WalkReady(View(), Parents(abspath)) && WalkAlmost(View(), Parents(abspath))
      requires forall p :: Walk(View(), Parents(abspath)) == Some(p) ==> View().inuse[p]
      modifies this, inodeMap, inodes
      ensures match MakeDir(old(View()), abspath)
              case Made(g) => status == Done && View() == g
              case Refused => status == Refusal && View() == old(View())
              case Halted => status == Abort && View() == old(View())
    {
      hide Walk, Dirs, LastName, LastLevelName, FreeSlot, FreeInode, WalkReady, WalkAlmost;
      ghost var fs := View();
      var index := GetAvlInode();
      if index == -1 {
        return Refusal;
      }
      var p := FindUpperDirPos(abspath);
      if p == -1 {
        return Refusal;
      }
      var name := GetLastLevelName(abspath);
      if name == "" || name[|name| - 1] != SLASH {
        name := name + [SLASH];
      }
      var d := GetAvlDirdata(p);
      if d == -1 {
        return Abort;
      }
      PutEntry(p, d, index, name);
      assert inodes[index] == fs.inodes[index] && |inodes[index].data| == MAX_FILE_SZ;
      hide Shaped, AddEntry;
      PutDirectory(index, p, name);
      assert View() == Adopt(fs, p, index, name, AsDir(fs.inodes[index], index, p, name));
      return Done;
    }

    method MakeFile(abspath: string, data: Option<seq<Byte>>) returns (status: Status)
      requires Valid() && inodeMap.Length == NR_INODE && SLASH in abspath && Buffered(abspath)
      requires data.Some? ==> |data.value| < MAX_FILE_SZ && NUL_BYTE !in data.value
      requires WalkReady(View(), Parents(abspath)) && WalkAlmost(View(), Parents(abspath))
      requires forall p :: Walk(View(), Parents(abspath)) == Some(p) ==> View().inuse[p]
      modifies this, inodeMap, inodes
      ensures match MakeFL(old(View()), abspath, data)
              case Made(g) => status == Done && View() == g
              case Refused => status == Refusal && View() == old(View())
              case Halted => status == Abort && View() == old(View())
    {
      hide Walk, Dirs, LastName, LastLevelName, FreeSlot, FreeInode, WalkReady, WalkAlmost;
      ghost var fs := View();
      var index := GetAvlInode();
      if index == -1 {
        return Abort;
      }
      var p := FindUpperDirPos(abspath);
      if p == -1 {
        return Abort;
      }
      var name := GetLastLevelName(abspath);
      var d := GetAvlDirdata(p);
      if d == -1 {
        return Abort;
      }
      PutEntry(p, d, index, name);
      assert inodes[index] == fs.inodes[index] && |inodes[index].data| == MAX_FILE_SZ;
      hide Shaped, AddEntry;
      inodes[index] := inodes[index].(kind := FL, filename := name);
      match data {
        case None =>
        case Some(content) =>
          inodes[index] := inodes[index].(size := |content|, data := content + [NUL_BYTE] + inodes[index].data[|content| + 1..]);
      }
      inodeMap[index] := true;
      assert inodes[index] == AsFile(fs.inodes[index], name, data);
      assert View() == Adopt(fs, p, index, name, AsFile(fs.inodes[index], name, data));
      return Done;
    }

    // -------------------------------------------------------------- removal

    /** The loop of rmFL: the first entry with this name is emptied. */
    method EraseName(p: nat, filename: string)
      requires Valid() && p < NR_INODE && Counted(View(), p) && filename != ""
      requires EntryNamed(inodes[p].entries, filename) < |inodes[p].entries|
      modifies inodes
      ensures EntryNamed(old(inodes[p]).entries, filename) < |old(inodes[p]).entries| && p < |old(inodes[..])|
      ensures var d := old(inodes[p]);
        inodes[..] == old(inodes[..])[p := d.(entries := d.entries[EntryNamed(d.entries, filename) := DirEntry(0, "")])]
    {
      ghost var es := inodes[p].entries;
      ghost var k := EntryNamed(es, filename);
      assert Count(es) <= inodes[p].size && View().inodes[p] == inodes[p];
      hide Count, Counted, EntryNamed;
      var i, cont := 0, 0;
      CountZero(es);
      while cont < inodes[p].size
        invariant 0 <= i <= k && cont == Count(es[..i]) && inodes[..] == old(inodes[..])
        decreases k - i
      {
        if inodes[p].entries[i].filename != "" {
          cont := cont + 1;
          if filename == inodes[p].entries[i].filename {
            inodes[p] := inodes[p].(entries := inodes[p].entries[i := DirEntry(0, "")]);
            return;
          }
        }
        CountNext(es, i);
        i := i + 1;
      }
      CountBelow(es, i, k);
    }

    /** rmFL of a file that exists. */
    method RemoveFile(abspath: string, ghost n: nat)
      requires Valid() && inodeMap.Length == NR_INODE && Proper(abspath) && ShortParents(abspath)
      requires Tree(View(), n) && Lookup(View(), abspath, FL).Some?
      modifies this, inodeMap, inodes
      ensures CanRemove(old(View()), abspath) && View() == WithoutFL(old(View()), abspath)
    {
      hide Tree, Walk, Find, Dirs, LastName, WalkReady, WalkAlmost;
      ghost var fs := View();
      FoundReady(fs, n, abspath, FL);
      ghost var p0, k0, c0 := FoundEntry(fs, n, abspath);
      UnnameRemoves(fs, n, p0, k0, c0);
      var ok, index := FindCurrentFLPos(abspath);
      var p := FindUpperDirPos(abspath);
      var filename := inodes[index].filename;
      assert View().inodes[p] == inodes[p];
      EraseName(p, filename);
      inodeMap[index] := false;
      assert View() == Unname(fs, p, index);
    }

    // -------------------------------------------------------------- contents

    /**
     The limit is only checked from above.  From a negative offset the first byte would go in front of the
     block, which is as far as this method goes, and a write of nothing gives the file a negative size.
     */
    method WriteF(index: nat, buf: seq<Byte>, offset: int) returns (r: Writing, n: int)
      requires Valid() && index < NR_INODE
      modifies inodes
      ensures r == TooLong <==> |buf| + offset >= MAX_FILE_SZ
      ensures r == Strays <==> |buf| + offset < MAX_FILE_SZ && offset < 0 && buf != []
      ensures r != Wrote ==> inodes[..] == old(inodes[..])
      ensures index < |old(inodes[..])| && |old(inodes[index]).data| == MAX_FILE_SZ
      ensures r == Wrote ==> n == |buf| && inodes[..] == old(inodes[..])[index := WrittenAt(old(inodes[index]), buf, offset)]
    {
      ghost var node, table := inodes[index], inodes[..];
      assert View().inodes[index] == node && |node.data| == MAX_FILE_SZ;
      hide Shaped;
      if |buf| + offset >= MAX_FILE_SZ {
        return TooLong, 0;
      }
      var i := 0;
      if offset < 0 {
        if i < |buf| {
          return Strays, 0;
        }
      } else {
        i := CopyIn(index, buf, offset);
      }
      assert offset >= 0 ==> Partly(node, buf, offset, |buf|).data == Written(node, buf, offset).data;
      var end := (offset + |buf|) % 0x1_0000_0000;
      inodes[index] := inodes[index].(size := if inodes[index].size > end then inodes[index].size else end);
      return Wrote, i;
    }

    /** The loop of writeF. */
    method CopyIn(index: nat, buf: seq<Byte>, offset: nat) returns (i: nat)
      requires Valid() && index < NR_INODE && |buf| + offset < MAX_FILE_SZ
      modifies inodes
      ensures i == |buf| && index < |old(inodes[..])| && |old(inodes[index]).data| == MAX_FILE_SZ
      ensures inodes[..] == old(inodes[..])[index := Partly(old(inodes[index]), buf, offset, |buf|)]
    {
      ghost var node, table := inodes[index], inodes[..];
      assert View().inodes[index] == node && |node.data| == MAX_FILE_SZ;
      hide Shaped;
      i := 0;
      assert Partly(node, buf, offset, 0).data == node.data;
      while i < |buf|
        invariant 0 <= i <= |buf|
        invariant inodes[..] == table[index := Partly(node, buf, offset, i)]
      {
        PartlyNext(node, buf, offset, i);
        inodes[index] := inodes[index].(data := inodes[index].data[i + offset := buf[i]]);
        i := i + 1;
      }
    }

    method ReadF(index: nat, len: nat, offset: int) returns (buf: seq<Byte>, n: int)
      requires Valid() && index < NR_INODE && inodes[index].size <= MAX_FILE_SZ && -0x8000_0000 <= offset < 0x8000_0000
      ensures |inodes[index].data| == MAX_FILE_SZ
      ensures n == ReadCount(inodes[index], len, offset) && buf == ReadBytes(inodes[index], len, offset)
    {
      assert View().inodes[index] == inodes[index];
      hide Shaped;
      buf := [];
      var i := 0;
      while i < len && (i + offset) % 0x1_0000_0000 < inodes[index].size
        invariant 0 <= i && (i == 0 || (0 <= offset && i <= ReadCount(inodes[index], len, offset)))
        invariant |buf| == i && forall k :: 0 <= k < i ==> buf[k] == inodes[index].data[offset + k]
        decreases len - i
      {
        assert 0 <= i + offset < inodes[index].size;
        buf := buf + [inodes[index].data[i + offset]];
        i := i + 1;
      }
      return buf, i;
    }

    // -------------------------------------------------------------- formatting and listing

    method MakeRootDir()
      requires Valid() && inodeMap.Length == NR_INODE
      requires forall i :: 0 <= i < NR_INODE ==> Blank(inodes[i]) && !inodeMap[i]
      modifies inodeMap, inodes
      ensures Formatted(View())
    {
      ghost var blank := inodes[0];
      inodes[0] := inodes[0].(kind := DIR, filename := "/", size := 2, entries := Overlay(inodes[0].data));
      inodes[0] := inodes[0].(entries := inodes[0].entries[0 := DirEntry(0, ".")][1 := DirEntry(0, "..")]);
      inodeMap[0] := true;
      assert inodes[0] == AsDir(blank, 0, 0, "/") && Blank(blank);
    }

    /** What ls prints.  inside is false where the code reads behind the entry table. */
    method Ls(index: nat) returns (inside: bool, names: seq<string>)
      requires Valid() && index < NR_INODE
      requires inodes[index].entries[0].filename != "" && inodes[index].entries[1].filename != ""
      ensures inside <==> inodes[index].size <= Count(inodes[index].entries)
      ensures inodes[index].size == Count(inodes[index].entries) ==> names == NamesInUse(inodes[index].entries[2..])
    {
      var es := inodes[index].entries;
      var filenum := inodes[index].size;
      assert View().inodes[index] == inodes[index] && |es| == NR_DIRDATA;
      inside, names := ListNames(es, filenum);
    }
  }

  method ListNames(es: seq<DirEntry>, filenum: nat) returns (inside: bool, names: seq<string>)
    requires |es| >= 2 && es[0].filename != "" && es[1].filename != ""
    ensures inside <==> filenum <= Count(es)
    ensures filenum == Count(es) ==> names == NamesInUse(es[2..])
  {
    hide Count, NamesInUse;
    names := [];
    var i, cont := 2, 2;
    CountTwo(es);
    CountMonotone(es, 2);
    assert es[..|es|] == es;
    while cont < filenum
      invariant 2 <= i <= |es| && cont == Count(es[..i]) <= Count(es)
      invariant names + NamesInUse(es[i..]) == NamesInUse(es[2..])
      decreases |es| - i
    {
      if i == |es| {
        return false, names;
      }
      CountNext(es, i);
      NamesTurn(es, i, names);
      CountMonotone(es, i + 1);
      if es[i].filename != "" {
        names := names + [es[i].filename];
        cont := cont + 1;
      }
      i := i + 1;
    }
    if filenum == Count(es) {
      NothingInUse(es, i);
    }
    inside := true;
  }

  /** A write after its first n bytes, before the size is set. */
  ghost function Partly(i: Inode, buf: seq<Byte>, off: nat, n: nat): Inode
    requires n <= |buf| && off + |buf| <= |i.data|
  {
    i.(data := i.data[..off] + buf[..n] + i.data[off + n..])
  }

  lemma PartlyNext(i: Inode, buf: seq<Byte>, off: nat, n: nat)
    requires n < |buf| && off + |buf| <= |i.data|
    ensures |Partly(i, buf, off, n).data| == |i.data|
    ensures Partly(i, buf, off, n + 1) == Partly(i, buf, off, n).(data := Partly(i, buf, off, n).data[n + off := buf[n]])
  {
  }

  /** The non-empty names of a table, in order. */
  function NamesInUse(es: seq<DirEntry>): seq<string> {
    if es == [] then []
    else (if es[0].filename != "" then [es[0].filename] else []) + NamesInUse(es[1..])
  }

  /** The names in use, entry by entry in order. */
  lemma {:induction false} NamesInOrder(a: seq<DirEntry>, b: seq<DirEntry>)
    ensures NamesInUse(a + b) == NamesInUse(a) + NamesInUse(b)
    ensures |a| == 1 ==> NamesInUse(a) == if a[0].filename == "" then [] else [a[0].filename]
  {
    if a == [] {
      assert a + b == b;
    } else {
      assert (a + b)[1..] == a[1..] + b;
      NamesInOrder(a[1..], b);
    }
  }

  lemma {:induction false} NothingInUse(es: seq<DirEntry>, i: nat)
    requires i <= |es| && Count(es[..i]) >= Count(es)
    ensures NamesInUse(es[i..]) == []
    decreases |es| - i
  {
    CountMonotone(es, i);
    if i < |es| {
      CountNext(es, i);
      CountMonotone(es, i + 1);
      NamesNext(es, i);
      NothingInUse(es, i + 1);
    }
  }

  lemma NamesNext(es: seq<DirEntry>, i: nat)
    requires i < |es|
    ensures NamesInUse(es[i..]) == (if es[i].filename != "" then [es[i].filename] else []) + NamesInUse(es[i + 1..])
  {
    assert es[i..][0] == es[i] && es[i..][1..] == es[i + 1..];
  }

  lemma NamesTurn(es: seq<DirEntry>, i: nat, names: seq<string>)
    requires i < |es|
    ensures names + NamesInUse(es[i..]) == (if es[i].filename != "" then names + [es[i].filename] else names) + NamesInUse(es[i + 1..])
  {
    NamesNext(es, i);
  }

  lemma CountTwo(es: seq<DirEntry>)
    requires |es| >= 2 && es[0].filename != "" && es[1].filename != ""
    ensures Count(es[..2]) == 2
  {
    CountZero(es);
    CountNext(es, 0);
    CountNext(es, 1);
  }

  /** A walk that succeeds succeeds all along. */
  lemma {:induction false} WalkPrefix(fs: Fs, ds: seq<string>, j: nat)
    requires |fs.inodes| > 0 && Walk(fs, ds).Some? && j <= |ds|
    ensures Walk(fs, ds[..j]).Some?
  {
    if j < |ds| {
      WalkPrefix(fs, ds[..|ds| - 1], j);
      assert ds[..|ds| - 1][..j] == ds[..j];
    } else {
      assert ds[..j] == ds;
    }
  }

  lemma CountBelow(es: seq<DirEntry>, i: nat, k: nat)
    requires i <= k < |es| && es[k].filename != ""
    ensures Count(es[..i]) < Count(es)
  {
    CountMonotone(es, i);
  }

  lemma DirReady(fs: Fs, n: nat, p: nat)
    requires Tree(fs, n) && p < n && fs.inodes[p].kind == DIR
    ensures InRange(fs, p) && Counted(fs, p)
  {
    assert DirOk(fs, n, p);
    forall k | 0 <= k < NR_DIRDATA && fs.inodes[p].entries[k].filename != ""
      ensures fs.inodes[p].entries[k].inodeNo < |fs.inodes|
    {
      EntriesUsed(fs, n, p, k);
    }
  }

  /** After removals as after creations: what exists is found without leaving the tables. */
  lemma FoundReady(fs: Fs, n: nat, path: string, kind: FileType)
    requires Tree(fs, n) && Absolute(path) && Lookup(fs, path, kind).Some?
    ensures WalkReady(fs, Parents(path)) && WalkAlmost(fs, Parents(path))
    ensures ScanReady(fs, Walk(fs, Parents(path)).value, Base(path), kind)
  {
    hide Tree, Find, Dirs, LastName, ScanIn, Count;
    TreeShaped(fs, n);
    ProperParts(path, path);
    ParentsReady(fs, n, Parents(path));
    var p := Walk(fs, Parents(path)).value;
    WalkIn(fs, n, Parents(path));
    DirReady(fs, n, p);
    ScanExactly(fs, p, Base(path), kind);
  }

  lemma WalkTurn(fs: Fs, dirs: seq<string>, j: nat)
    requires |fs.inodes| > 0 && Walk(fs, dirs).Some? && j < |dirs|
    ensures Walk(fs, dirs[..j]).Some? && FindIn(fs, Walk(fs, dirs[..j]).value, dirs[j], DIR).Some?
  {
    WalkPrefix(fs, dirs, j + 1);
    assert dirs[..j + 1][..j] == dirs[..j];
  }

  lemma ParentsReady(fs: Fs, n: nat, dirs: seq<string>)
    requires Tree(fs, n) && DirNames(dirs) && Walk(fs, dirs).Some?
    ensures WalkReady(fs, dirs) && WalkAlmost(fs, dirs)
  {
    hide Tree, ScanIn, Count, Walk, Find;
    TreeShaped(fs, n);
    forall j | 0 <= j < |dirs|
      ensures Walk(fs, dirs[..j]).Some? && ScanReady(fs, Walk(fs, dirs[..j]).value, dirs[j], DIR)
    {
      WalkTurn(fs, dirs, j);
      WalkIn(fs, n, dirs[..j]);
      DirReady(fs, n, Walk(fs, dirs[..j]).value);
      ScanExactly(fs, Walk(fs, dirs[..j]).value, dirs[j], DIR);
    }
    if dirs != [] {
      assert Walk(fs, dirs[..|dirs| - 1]).Some?;
    }
  }

  /** filenum is exact in every directory on the way: no file was ever removed from it. */
  ghost predicate ExactAlong(fs: Fs, dirs: seq<string>) {
    |fs.inodes| > 0 && forall j :: 0 <= j <= |dirs| ==>
      match Walk(fs, dirs[..j]) case None => true case Some(p) => fs.inodes[p].size == Count(fs.inodes[p].entries)
  }

  /** Where nothing was removed every path can be looked up, found or not. */
  lemma ExactReady(fs: Fs, n: nat, path: string, kind: FileType)
    requires Tree(fs, n) && Absolute(path) && ExactAlong(fs, Parents(path))
    ensures WalkReady(fs, Parents(path))
    ensures Walk(fs, Parents(path)).Some? ==> WalkAlmost(fs, Parents(path)) && ScanReady(fs, Walk(fs, Parents(path)).value, Base(path), kind)
  {
    hide Tree, ScanIn, Count, Dirs, LastName;
    TreeShaped(fs, n);
    ProperParts(path, path);
    var dirs := Parents(path);
    forall j | 0 <= j <= |dirs| && Walk(fs, dirs[..j]).Some?
      ensures forall name, kd :: ScanReady(fs, Walk(fs, dirs[..j]).value, name, kd)
    {
      WalkIn(fs, n, dirs[..j]);
      ExactScan(fs, n, Walk(fs, dirs[..j]).value);
    }
    assert dirs[..|dirs|] == dirs;
    if Walk(fs, dirs).Some? {
      ParentsReady(fs, n, dirs);
    }
  }

  lemma ExactScan(fs: Fs, n: nat, p: nat)
    requires Tree(fs, n) && p < n && fs.inodes[p].kind == DIR && fs.inodes[p].size == Count(fs.inodes[p].entries)
    ensures forall name, kind :: ScanReady(fs, p, name, kind)
  {
    DirReady(fs, n, p);
    hide Tree, ScanIn, Count;
    forall name, kind
      ensures ScanReady(fs, p, name, kind)
    {
      ScanExactly(fs, p, name, kind);
    }
  }

  /** A file system without holes has an exact filenum everywhere. */
  lemma PackedExact(fs: Fs, n: nat, dirs: seq<string>)
    requires Tree(fs, n) && Packed(fs) && DirNames(dirs)
    ensures ExactAlong(fs, dirs)
  {
    hide Tree, Count;
    TreeShaped(fs, n);
    forall j | 0 <= j <= |dirs| && Walk(fs, dirs[..j]).Some?
      ensures fs.inodes[Walk(fs, dirs[..j]).value].size == Count(fs.inodes[Walk(fs, dirs[..j]).value].entries)
    {
      WalkIn(fs, n, dirs[..j]);
      PackedSlot(fs, Walk(fs, dirs[..j]).value);
    }
  }

  /**
   A lookup of a missing file stays inside the tables exactly when filenum is exact in the directory
   where it is missed.
   */
  lemma MissReady(fs: Fs, n: nat, path: string, kind: FileType)
    requires Tree(fs, n) && Absolute(path) && Walk(fs, Parents(path)).Some? && Lookup(fs, path, kind).None?
    ensures ScanReady(fs, Walk(fs, Parents(path)).value, Base(path), kind) <==>
      fs.inodes[Walk(fs, Parents(path)).value].size == Count(fs.inodes[Walk(fs, Parents(path)).value].entries)
    ensures WalkReady(fs, Parents(path)) && WalkAlmost(fs, Parents(path))
  {
    hide Tree, ScanIn, Count, Dirs, LastName;
    TreeShaped(fs, n);
    ProperParts(path, path);
    ParentsReady(fs, n, Parents(path));
    WalkIn(fs, n, Parents(path));
    DirReady(fs, n, Walk(fs, Parents(path)).value);
    ScanExactly(fs, Walk(fs, Parents(path)).value, Base(path), kind);
  }
}
