/** Descriptors and paths: whose contents a write through an open-file entry changes. */
module OpenPaths {
  import opened Seqs
  import opened SchedModel
  import opened Paths
  import opened FsModel
  import opened FsTree
  import opened FsGrowth
  import opened FsPaths
  import opened FsRemoval
  import opened FsRuns
  import opened FsLimits
  import opened Descriptors
  import opened FileData
  import opened FsContents
  import opened FileSystem
  import FileIo

  /** Writing to an inode changes what is at the paths that lead to it, and at no other. */
  lemma WriteThrough(fs: Fs, n: nat, c: nat, buf: seq<Byte>, off: nat, q: string)
    requires Tree(fs, n) && Proper(q) && c < |fs.inodes|
    requires Sound(fs.inodes[c]) && off <= fs.inodes[c].size && off + |buf| < MAX_FILE_SZ
    ensures var g := fs.(inodes := fs.inodes[c := Written(fs.inodes[c], buf, off)]);
      && Lookup(g, q, FL) == Lookup(fs, q, FL)
      && FileAt(g, q) == if Lookup(fs, q, FL) == Some(c) then Some(Overwrite(Content(fs.inodes[c]), buf, off)) else FileAt(fs, q)
  {
    hide Tree, Dirs, LastName;
    var g := fs.(inodes := fs.inodes[c := Written(fs.inodes[c], buf, off)]);
    LookupKept(fs, g, q, FL);
    WrittenContent(fs.inodes[c], buf, off);
  }

  /** A write by descriptor in terms of paths. */
  lemma DescriptorWrite(fs: Fs, n: nat, s: Files, w: WriteEvent, q: string)
    requires Tree(fs, n) && Proper(q) && s.inodes == fs.inodes && CanWrite(s, w)
    requires var t := s.desc.table[s.desc.fps[w.p][w.fd]]; t.offset <= fs.inodes[t.inodeIndex].size
    ensures var t := s.desc.table[s.desc.fps[w.p][w.fd]]; var g := fs.(inodes := WriteStep(s, w).inodes);
      && |g.inodes| > 0
      && FileAt(g, q) == if Lookup(fs, q, FL) == Some(t.inodeIndex) then Some(Overwrite(Content(fs.inodes[t.inodeIndex]), w.buf, t.offset))
        else FileAt(fs, q)
  {
    hide Tree, Lookup, FileAt, Dirs, LastName;
    var t := s.desc.table[s.desc.fps[w.p][w.fd]];
    WriteThrough(fs, n, t.inodeIndex, w.buf, t.offset, q);
  }

  // ---------------------------------------------------------------- system calls on files, with their paths

  datatype Machine = Machine(fs: Fs, desc: Desc)

  datatype Call =
    | OpenCall(p: nat, path: string)
    | RemoveCall(path: string)
    | MakeCall(cmd: Cmd)
    | WriteCall(w: WriteEvent)
    | TableCall(ev: FileEvent)

  /** open, where its search stays inside the tables, makes the file if it is not there and names its inode in a new entry. */
  ghost predicate Opens(s: Machine, p: nat, path: string, t: Machine) {
    && Shaped(s.fs) && Shaped(t.fs) && Proper(path) && SearchReady(s.fs, path, FL)
    && (if Lookup(s.fs, path, FL).Some? then t.fs == s.fs else Creates(s.fs, MkFile(path, None), t.fs))
    && Lookup(t.fs, path, FL).Some?
    && Shape(s.desc) && p < MAX_PCB_NUM && s.desc.live[p] && CanOpen(s.desc, p)
    && t.desc == OpenStep(s.desc, p, Lookup(t.fs, path, FL).value)
  }

  ghost predicate Writes(s: Machine, w: WriteEvent, t: Machine) {
    var f := Files(s.desc, s.fs.inodes);
    && CanWrite(f, w) && s.fs.inodes[s.desc.table[s.desc.fps[w.p][w.fd]].inodeIndex].kind == FL
    && t == Machine(s.fs.(inodes := WriteStep(f, w).inodes), WriteStep(f, w).desc)
  }

  ghost predicate Calls(s: Machine, call: Call, t: Machine) {
    match call
    case OpenCall(p, path) => Opens(s, p, path, t)
    case RemoveCall(path) => Removes(s.fs, path, t.fs) && t.desc == s.desc
    case MakeCall(cmd) => Creates(s.fs, cmd, t.fs) && t.desc == s.desc
    case WriteCall(w) => Writes(s, w, t)
    case TableCall(ev) => Shape(s.desc) && Allowed(s.desc, ev) && !ev.OpenEvent? && t == Machine(s.fs, Apply(s.desc, ev))
  }

  /** Any calls by any processes, on a new file system with nothing open. */
  ghost predicate CallRun(tr: seq<Machine>, calls: seq<Call>) {
    && |tr| == |calls| + 1 && Formatted(tr[0].fs) && NoneOpen(tr[0].desc)
    && forall i :: 0 <= i < |calls| ==> Calls(tr[i], calls[i], tr[i + 1])
  }

  ghost predicate Grows(fs: Fs) {
    Distinct(fs) && exists n :: Tree(fs, n)
  }

  lemma CreationGrows(fs: Fs, cmd: Cmd, g: Fs)
    requires Grows(fs) && Creates(fs, cmd, g)
    ensures Grows(g)
  {
    hide Tree, Distinct, Creates;
    var n :| Tree(fs, n);
    FreshTree(fs, n, cmd, g);
  }

  lemma FreshTree(fs: Fs, n: nat, cmd: Cmd, g: Fs)
    requires Tree(fs, n) && Distinct(fs) && Creates(fs, cmd, g)
    ensures Tree(g, Used(n, FreeInode(fs))) && Distinct(g)
  {
    hide Tree, Distinct, Possible, Perform, Lookup;
    CreateStep(fs, n, cmd, g);
  }

  lemma RemovalGrows(fs: Fs, path: string, g: Fs)
    requires Grows(fs) && Removes(fs, path, g)
    ensures Grows(g)
  {
    hide Tree, Distinct, WithoutFL, Lookup, Copies;
    var n :| Tree(fs, n);
    RemoveStep(fs, n, path);
  }

  lemma WriteGrows(s: Machine, w: WriteEvent, t: Machine)
    requires Grows(s.fs) && Writes(s, w, t)
    ensures Grows(t.fs)
  {
    hide Tree, Distinct;
    var n :| Tree(s.fs, n);
    var c := s.desc.table[s.desc.fps[w.p][w.fd]].inodeIndex;
    FileBelow(s.fs, n, c);
    WriteKeepsTree(s.fs, n, c, t.fs.inodes[c]);
  }

  lemma FileBelow(fs: Fs, n: nat, c: nat)
    requires Tree(fs, n) && c < |fs.inodes| && fs.inodes[c].kind == FL
    ensures c < n && |fs.inodes| == NR_INODE
  {
  }

  lemma CallGrows(s: Machine, call: Call, t: Machine)
    requires Grows(s.fs) && Calls(s, call, t)
    ensures Grows(t.fs)
  {
    hide Grows, Creates, Removes, Writes;
    match call
    case OpenCall(p, path) =>
      if t.fs != s.fs {
        CreationGrows(s.fs, MkFile(path, None), t.fs);
      }
    case RemoveCall(path) => RemovalGrows(s.fs, path, t.fs);
    case MakeCall(cmd) => CreationGrows(s.fs, cmd, t.fs);
    case WriteCall(w) => WriteGrows(s, w, t);
    case TableCall(ev) =>
  }

  lemma FormattedGrows(fs: Fs)
    requires Formatted(fs)
    ensures Grows(fs)
  {
    hide Tree, Distinct, Formatted;
    FormattedTree(fs);
  }

  /** The table stays a tree with different names, whatever is written through descriptors, old ones too. */
  lemma {:induction false} CallsKeepTree(tr: seq<Machine>, calls: seq<Call>, k: nat)
    requires CallRun(tr, calls) && k <= |calls|
    ensures Grows(tr[k].fs)
  {
    hide Grows, Calls, Formatted, NoneOpen;
    if k == 0 {
      FormattedGrows(tr[0].fs);
    } else {
      CallsKeepTree(tr, calls, k - 1);
      CallGrows(tr[k - 1], calls[k - 1], tr[k]);
    }
  }

  // ---------------------------------------------------------------- the path an inode belongs to

  /** The call makes a file on inode c, and this is its path. */
  ghost function MadeOn(fs: Fs, call: Call, c: nat): Option<string> {
    match call
    case OpenCall(p, path) => if Shaped(fs) && Proper(path) && Lookup(fs, path, FL).None? && FreeInode(fs) == c then Some(path) else None
    case MakeCall(cmd) => if cmd.MkFile? && FreeInode(fs) == c then Some(cmd.path) else None
    case _ => None
  }

  /** The path of the file on inode c after k calls, when it is path after i: a removal takes it, a new file on the inode brings its own. */
  ghost function Owner(tr: seq<Machine>, calls: seq<Call>, i: nat, k: nat, path: string, c: nat): Option<string>
    requires i <= k <= |calls| <= |tr|
  {
    if k == i then Some(path)
    else
      var o := Owner(tr, calls, i, k - 1, path, c);
      var made := MadeOn(tr[k - 1].fs, calls[k - 1], c);
      if made.Some? then made else if calls[k - 1].RemoveCall? && o == Some(calls[k - 1].path) then None else o
  }

  /** Inode c is found as a file at this path and at no other. */
  ghost predicate OwnedBy(fs: Fs, c: nat, o: Option<string>) {
    |fs.inodes| > 0 && forall q :: Proper(q) ==> (Lookup(fs, q, FL) == Some(c) <==> o == Some(q))
  }

  lemma CreationOwner(fs: Fs, cmd: Cmd, g: Fs, c: nat, o: Option<string>)
    requires Grows(fs) && Creates(fs, cmd, g) && OwnedBy(fs, c, o) && (o.Some? ==> Proper(o.value))
    ensures OwnedBy(g, c, if cmd.MkFile? && FreeInode(fs) == c then Some(cmd.path) else o)
    ensures FreeInode(fs) == c ==> o == None
    ensures cmd.MkFile? ==> Proper(cmd.path)
  {
    hide Tree, Distinct, Perform, Possible, Lookup, FreeInode, Dirs, LastName;
    var n :| Tree(fs, n);
    PossibleParts(fs, cmd);
    CreateStep(fs, n, cmd, g);
    StoredProper(fs, cmd);
    FirstUnused(fs, n);
    TreeShaped(g, Used(n, FreeInode(fs)));
    if o.Some? {
      LookupUsed(fs, n, o.value, FL);
    }
  }

  lemma RemovalOwner(fs: Fs, path: string, g: Fs, c: nat, o: Option<string>)
    requires Grows(fs) && Removes(fs, path, g) && OwnedBy(fs, c, o)
    ensures OwnedBy(g, c, if o == Some(path) then None else o)
  {
    hide Tree, Distinct, WithoutFL, Lookup, Copies, Dirs, LastName;
    var n :| Tree(fs, n) && Distinct(fs);
    RemoveStep(fs, n, path);
    DistinctOnce(fs, n, path, FL);
    LookupIsHead(g, path, FL);
    forall q | Proper(q) && q != path
      ensures Lookup(g, q, FL) == Lookup(fs, q, FL)
    {
      RemovedElsewhere(fs, n, path, q, FL);
    }
  }

  lemma WriteOwner(s: Machine, w: WriteEvent, t: Machine, c: nat, o: Option<string>)
    requires Grows(s.fs) && Writes(s, w, t) && OwnedBy(s.fs, c, o)
    ensures OwnedBy(t.fs, c, o)
  {
    hide Lookup, Dirs, LastName, Grows;
    forall q | Proper(q)
      ensures Lookup(t.fs, q, FL) == Lookup(s.fs, q, FL)
    {
      LookupKept(s.fs, t.fs, q, FL);
    }
  }

  lemma CallOwner(s: Machine, call: Call, t: Machine, c: nat, o: Option<string>)
    requires Grows(s.fs) && Calls(s, call, t) && OwnedBy(s.fs, c, o) && (o.Some? ==> Proper(o.value))
    ensures var made := MadeOn(s.fs, call, c);
      var o1 := if made.Some? then made else if call.RemoveCall? && o == Some(call.path) then None else o;
      OwnedBy(t.fs, c, o1) && (o1.Some? ==> Proper(o1.value)) && (made.Some? ==> o == None)
  {
    hide Grows, OwnedBy, Creates, Removes, Writes, Lookup, FreeInode, Dirs, LastName;
    match call
    case OpenCall(p, path) =>
      if Lookup(s.fs, path, FL).None? {
        CreationOwner(s.fs, MkFile(path, None), t.fs, c, o);
      }
    case RemoveCall(path) => RemovalOwner(s.fs, path, t.fs, c, o);
    case MakeCall(cmd) => CreationOwner(s.fs, cmd, t.fs, c, o);
    case WriteCall(w) => WriteOwner(s, w, t, c, o);
    case TableCall(ev) =>
  }

  lemma {:induction false} OwnerHolds(tr: seq<Machine>, calls: seq<Call>, i: nat, k: nat, path: string, c: nat)
    requires CallRun(tr, calls) && i <= k <= |calls| && Proper(path) && OwnedBy(tr[i].fs, c, Some(path))
    ensures OwnedBy(tr[k].fs, c, Owner(tr, calls, i, k, path, c))
    ensures Owner(tr, calls, i, k, path, c).Some? ==> Proper(Owner(tr, calls, i, k, path, c).value)
  {
    hide Grows, Calls, Formatted, NoneOpen, OwnedBy, MadeOn;
    if k > i {
      OwnerHolds(tr, calls, i, k - 1, path, c);
      CallsKeepTree(tr, calls, k - 1);
      CallOwner(tr[k - 1], calls[k - 1], tr[k], c, Owner(tr, calls, i, k - 1, path, c));
    }
  }

  ghost predicate RemovedSince(calls: seq<Call>, i: nat, k: nat, path: string)
    requires k <= |calls|
  {
    exists j :: i <= j < k && calls[j] == RemoveCall(path)
  }

  /** A new file was made on inode c. */
  ghost predicate Reused(tr: seq<Machine>, calls: seq<Call>, i: nat, k: nat, c: nat)
    requires k <= |calls| <= |tr|
  {
    exists j :: i <= j < k && MadeOn(tr[j].fs, calls[j], c).Some?
  }

  /** The inode stays with its path until that is removed, and then nobody has it until it is used again. */
  lemma {:induction false} OwnerExactly(tr: seq<Machine>, calls: seq<Call>, i: nat, k: nat, path: string, c: nat)
    requires CallRun(tr, calls) && i <= k <= |calls| && Proper(path) && OwnedBy(tr[i].fs, c, Some(path))
    ensures !RemovedSince(calls, i, k, path) ==> Owner(tr, calls, i, k, path, c) == Some(path) && !Reused(tr, calls, i, k, c)
    ensures !Reused(tr, calls, i, k, c) ==> Owner(tr, calls, i, k, path, c) == if RemovedSince(calls, i, k, path) then None else Some(path)
  {
    hide Grows, Calls, Formatted, NoneOpen, OwnedBy, MadeOn;
    if k > i {
      OwnerExactly(tr, calls, i, k - 1, path, c);
      OwnerHolds(tr, calls, i, k - 1, path, c);
      CallsKeepTree(tr, calls, k - 1);
      CallOwner(tr[k - 1], calls[k - 1], tr[k], c, Owner(tr, calls, i, k - 1, path, c));
    }
  }

  // ---------------------------------------------------------------- the entry

  /** No close takes the last link of entry e. */
  ghost predicate StaysOpen(tr: seq<Machine>, calls: seq<Call>, i: nat, k: nat, e: nat)
    requires k <= |calls| <= |tr|
  {
    forall j :: i <= j < k ==> !Closes(tr[j].desc, calls[j], e)
  }

  ghost predicate Closes(d: Desc, call: Call, e: nat) {
    call.TableCall? && call.ev.CloseEvent? && HoldsEntry(d, call.ev.p, call.ev.fd, e) && d.table[e].linkNum == 1
  }

  lemma CallEntry(s: Machine, call: Call, t: Machine, e: nat)
    requires Calls(s, call, t) && e < |s.desc.table| && s.desc.table[e].inodeIndex != -1 && !Closes(s.desc, call, e)
    ensures |t.desc.table| == |s.desc.table| && t.desc.table[e].inodeIndex == s.desc.table[e].inodeIndex
  {
    hide Lookup, Creates, Removes, Dirs, LastName;
  }

  lemma {:induction false} EntryHolds(tr: seq<Machine>, calls: seq<Call>, i: nat, k: nat, e: nat, c: nat)
    requires CallRun(tr, calls) && i <= k <= |calls| && StaysOpen(tr, calls, i, k, e)
    requires e < |tr[i].desc.table| && tr[i].desc.table[e].inodeIndex == c
    ensures e < |tr[k].desc.table| && tr[k].desc.table[e].inodeIndex == c
  {
    hide Calls, Formatted, NoneOpen, Closes;
    if k > i {
      EntryHolds(tr, calls, i, k - 1, e, c);
      CallEntry(tr[k - 1], calls[k - 1], tr[k], e);
    }
  }

  // ---------------------------------------------------------------- whose contents a write changes

  lemma OpenedOwner(s: Machine, p: nat, path: string, t: Machine)
    requires Opens(s, p, path, t) && Grows(t.fs)
    ensures |t.fs.inodes| > 0 && Proper(path) && Lookup(t.fs, path, FL).Some?
    ensures OwnedBy(t.fs, Lookup(t.fs, path, FL).value, Some(path))
    ensures FreeEntry(s.desc.table) < |t.desc.table| && t.desc.table[FreeEntry(s.desc.table)].inodeIndex == Lookup(t.fs, path, FL).value
  {
    hide Tree, Distinct, Lookup, Creates, Dirs, LastName;
    var n :| Tree(t.fs, n);
    forall q | Proper(q) && Lookup(t.fs, q, FL) == Lookup(t.fs, path, FL)
      ensures q == path
    {
      LookupInjective(t.fs, n, q, FL, path, FL);
    }
  }

  /** The write starts in the file or at its end; FileData.WriteLeavesGap is about the others. */
  ghost predicate StartsInside(s: Machine, w: WriteEvent) {
    && CanWrite(Files(s.desc, s.fs.inodes), w)
    && var t := s.desc.table[s.desc.fps[w.p][w.fd]]; t.offset <= s.fs.inodes[t.inodeIndex].size
  }

  /** The file at path q, when owner has the inode that the write goes to. */
  ghost predicate Changes(fs: Fs, g: Fs, q: string, owner: Option<string>, buf: seq<Byte>, off: int) {
    && |fs.inodes| > 0 && |g.inodes| > 0 && SLASH in q
    && if owner == Some(q) then
         && FileAt(fs, q).Some? && 0 <= off <= |FileAt(fs, q).value|
         && FileAt(g, q) == Some(Overwrite(FileAt(fs, q).value, buf, off))
       else FileAt(g, q) == FileAt(fs, q)
  }

  lemma WriteOwned(s: Machine, w: WriteEvent, t: Machine, c: nat, o: Option<string>, q: string)
    requires Grows(s.fs) && Writes(s, w, t) && StartsInside(s, w) && OwnedBy(s.fs, c, o) && Proper(q)
    requires s.desc.table[s.desc.fps[w.p][w.fd]].inodeIndex == c
    ensures Changes(s.fs, t.fs, q, o, w.buf, s.desc.table[s.desc.fps[w.p][w.fd]].offset)
  {
    hide Tree, Distinct, Lookup, Dirs, LastName;
    var n :| Tree(s.fs, n);
    DescriptorWrite(s.fs, n, Files(s.desc, s.fs.inodes), w, q);
  }

  /**
   A write through the entry that an open made, by whoever shares it: it changes the contents at the path
   that has the inode by then, and at no other.
   */
  lemma WriteReaches(tr: seq<Machine>, calls: seq<Call>, i: nat, k: nat, p: nat, path: string, w: WriteEvent, q: string)
    requires CallRun(tr, calls) && i < k < |calls| && calls[i] == OpenCall(p, path) && calls[k] == WriteCall(w) && Proper(q)
    requires var e := FreeEntry(tr[i].desc.table); StaysOpen(tr, calls, i + 1, k, e) && Through(tr[k].desc, w, e)
    requires StartsInside(tr[k], w)
    ensures |tr[i + 1].fs.inodes| > 0 && Proper(path) && Lookup(tr[i + 1].fs, path, FL).Some?
    ensures Changes(tr[k].fs, tr[k + 1].fs, q, Owner(tr, calls, i + 1, k, path, Lookup(tr[i + 1].fs, path, FL).value),
                    w.buf, tr[k].desc.table[FreeEntry(tr[i].desc.table)].offset)
  {
    hide Tree, Grows, OwnedBy, Owner, Lookup, Changes, StaysOpen, Opens, Writes, Dirs, LastName, Formatted, NoneOpen, StartsInside;
    assert Calls(tr[i], calls[i], tr[i + 1]) && Calls(tr[k], calls[k], tr[k + 1]);
    var e := FreeEntry(tr[i].desc.table);
    CallsKeepTree(tr, calls, i + 1);
    OpenedOwner(tr[i], p, path, tr[i + 1]);
    var c := Lookup(tr[i + 1].fs, path, FL).value;
    EntryHolds(tr, calls, i + 1, k, e, c);
    OwnerHolds(tr, calls, i + 1, k, path, c);
    CallsKeepTree(tr, calls, k);
    WriteOwned(tr[k], w, tr[k + 1], c, Owner(tr, calls, i + 1, k, path, c), q);
  }

  /** So it reaches the path that was opened exactly until that is removed; then nothing, until the inode is used again. */
  lemma ReachesUntilRemoved(tr: seq<Machine>, calls: seq<Call>, i: nat, k: nat, p: nat, path: string)
    requires CallRun(tr, calls) && i < k <= |calls| && calls[i] == OpenCall(p, path)
    ensures |tr[i + 1].fs.inodes| > 0 && Proper(path) && Lookup(tr[i + 1].fs, path, FL).Some?
    ensures var c := Lookup(tr[i + 1].fs, path, FL).value; var owner := Owner(tr, calls, i + 1, k, path, c);
      && (!RemovedSince(calls, i + 1, k, path) ==> owner == Some(path))
      && (RemovedSince(calls, i + 1, k, path) && !Reused(tr, calls, i + 1, k, c) ==> owner == None)
  {
    hide Tree, Grows, OwnedBy, Owner, Lookup, Opens, Dirs, LastName, Formatted, NoneOpen, Reused, RemovedSince;
    assert Calls(tr[i], calls[i], tr[i + 1]);
    CallsKeepTree(tr, calls, i + 1);
    OpenedOwner(tr[i], p, path, tr[i + 1]);
    OwnerExactly(tr, calls, i + 1, k, path, Lookup(tr[i + 1].fs, path, FL).value);
  }

  // ---------------------------------------------------------------- where an opened file starts

  lemma CreationSound(fs: Fs, cmd: Cmd, g: Fs)
    requires Grows(fs) && SoundFiles(fs) && Creates(fs, cmd, g)
    ensures SoundFiles(g)
  {
    hide Tree, Distinct, Creates, SoundFiles;
    var n :| Tree(fs, n);
    CreatedSound(fs, n, cmd, g);
  }

  lemma RemovalSound(fs: Fs, path: string, g: Fs)
    requires Grows(fs) && SoundFiles(fs) && Removes(fs, path, g)
    ensures SoundFiles(g)
  {
    hide Tree, Distinct, Removes, Lookup;
    var n :| Tree(fs, n);
    RemovedFiles(fs, n, path, g);
  }

  lemma CallSound(s: Machine, call: Call, t: Machine)
    requires Grows(s.fs) && SoundFiles(s.fs) && Calls(s, call, t)
    ensures SoundFiles(t.fs)
  {
    hide Grows, Creates, Removes, Lookup, Dirs, LastName;
    match call
    case OpenCall(p, path) =>
      if t.fs != s.fs {
        CreationSound(s.fs, MkFile(path, None), t.fs);
      }
    case RemoveCall(path) => RemovalSound(s.fs, path, t.fs);
    case MakeCall(cmd) => CreationSound(s.fs, cmd, t.fs);
    case WriteCall(w) =>
    case TableCall(ev) =>
  }

  lemma FormattedSound(fs: Fs)
    requires Formatted(fs)
    ensures SoundFiles(fs)
  {
  }

  lemma {:induction false} CallsKeepSound(tr: seq<Machine>, calls: seq<Call>, k: nat)
    requires CallRun(tr, calls) && k <= |calls|
    ensures SoundFiles(tr[k].fs)
  {
    hide Grows, Calls, Formatted, NoneOpen, SoundFiles;
    if k == 0 {
      FormattedSound(tr[0].fs);
    } else {
      CallsKeepSound(tr, calls, k - 1);
      CallsKeepTree(tr, calls, k - 1);
      CallSound(tr[k - 1], calls[k - 1], tr[k]);
    }
  }

  /** The tables as reads, writes and seeks see them. */
  function Tables(m: Machine): Files {
    Files(m.desc, m.fs.inodes)
  }

  /**
   open returns the lowest closed descriptor from 3 on, for the file at the path with the position at its
   first byte.
   */
  lemma OpenStarts(s: Machine, p: nat, path: string, t: Machine)
    requires Opens(s, p, path, t) && SoundFiles(t.fs)
    ensures var fd, e, c := FreeFd(s.desc.fps[p], 3), FreeEntry(s.desc.table), Lookup(t.fs, path, FL).value;
      && 3 <= fd < 8 && s.desc.fps[p][fd] == CLOSED && (forall j :: 3 <= j < fd ==> s.desc.fps[p][j] != CLOSED)
      && FileIo.Names(Tables(t), p, fd, e) && FileIo.OpenOn(Tables(t), e, c)
      && FileAt(t.fs, path).Some? && FileIo.FileOf(Tables(t), e, c) == File(FileAt(t.fs, path).value, 0)
  {
    hide Tree, Distinct, Lookup, Creates, Dirs, LastName, SearchReady;
  }

  /** A first read through the new descriptor delivers the first bytes of the file. */
  lemma FirstRead(s: Machine, p: nat, path: string, t: Machine, len: nat)
    requires Opens(s, p, path, t) && SoundFiles(t.fs)
    ensures FileAt(t.fs, path).Some? && var fd, bytes := FreeFd(s.desc.fps[p], 3), FileAt(t.fs, path).value;
      && FileIo.CanOp(Tables(t), p, fd, ReadOp(len))
      && FileIo.OpStep(Tables(t), p, fd, ReadOp(len)).1 == bytes[..if len < |bytes| then len else |bytes|]
  {
    OpenStarts(s, p, path, t);
    hide Opens, SoundFiles, Lookup, FileAt, FileIo.OpStep, FreeFd, FreeEntry, Dirs, LastName, FileStep;
    FileIo.ReadStepIs(FileAt(t.fs, path).value, 0, len);
    var fd, e, c := FreeFd(s.desc.fps[p], 3), FreeEntry(s.desc.table), Lookup(t.fs, path, FL).value;
    FileIo.OpRefines(Tables(t), p, fd, ReadOp(len), e, c);
  }

  /** A first write through it overwrites the file from its first byte. */
  lemma FirstWrite(s: Machine, p: nat, path: string, t: Machine, buf: seq<Byte>)
    requires Opens(s, p, path, t) && SoundFiles(t.fs) && |buf| < MAX_FILE_SZ
    ensures FileAt(t.fs, path).Some? && var fd, bytes := FreeFd(s.desc.fps[p], 3), FileAt(t.fs, path).value;
      && FileIo.CanOp(Tables(t), p, fd, WriteOp(buf))
      && var g := t.fs.(inodes := FileIo.OpStep(Tables(t), p, fd, WriteOp(buf)).0.inodes);
        |g.inodes| > 0 && FileAt(g, path) == Some(buf + if |buf| < |bytes| then bytes[|buf|..] else [])
  {
    OpenStarts(s, p, path, t);
    FirstWriteAt(s, p, path, t, buf);
  }

  lemma FirstWriteAt(s: Machine, p: nat, path: string, t: Machine, buf: seq<Byte>)
    requires Opens(s, p, path, t) && FileAt(t.fs, path).Some? && |buf| < MAX_FILE_SZ
    requires var fd, e, c := FreeFd(s.desc.fps[p], 3), FreeEntry(s.desc.table), Lookup(t.fs, path, FL).value;
      && FileIo.Names(Tables(t), p, fd, e) && FileIo.OpenOn(Tables(t), e, c)
      && FileIo.FileOf(Tables(t), e, c) == File(FileAt(t.fs, path).value, 0)
    ensures var fd, bytes := FreeFd(s.desc.fps[p], 3), FileAt(t.fs, path).value;
      && FileIo.CanOp(Tables(t), p, fd, WriteOp(buf))
      && var g := t.fs.(inodes := FileIo.OpStep(Tables(t), p, fd, WriteOp(buf)).0.inodes);
        |g.inodes| > 0 && FileAt(g, path) == Some(buf + if |buf| < |bytes| then bytes[|buf|..] else [])
  {
    hide Lookup, FileIo.OpStep, FreeFd, FreeEntry, Dirs, LastName, Creates, SearchReady;
    var fd, e, c := FreeFd(s.desc.fps[p], 3), FreeEntry(s.desc.table), Lookup(t.fs, path, FL).value;
    FileIo.OpRefines(Tables(t), p, fd, WriteOp(buf), e, c);
    WriteShape(Tables(t), p, fd, buf);
    var g := t.fs.(inodes := FileIo.OpStep(Tables(t), p, fd, WriteOp(buf)).0.inodes);
    LookupKept(t.fs, g, path, FL);
    var bytes := FileAt(t.fs, path).value;
    assert Overwrite(bytes, buf, 0) == buf + if |buf| < |bytes| then bytes[|buf|..] else [];
  }

  lemma WriteShape(s: Files, p: nat, fd: nat, buf: seq<Byte>)
    requires FileIo.CanOp(s, p, fd, WriteOp(buf))
    ensures var xs := FileIo.OpStep(s, p, fd, WriteOp(buf)).0.inodes;
      |xs| == |s.inodes| && forall i :: 0 <= i < |xs| ==> xs[i].kind == s.inodes[i].kind && xs[i].entries == s.inodes[i].entries
  {
  }

  /** So it is for every open in a run, whatever the calls before it. */
  lemma OpenedInRun(tr: seq<Machine>, calls: seq<Call>, i: nat, p: nat, path: string)
    requires CallRun(tr, calls) && i < |calls| && calls[i] == OpenCall(p, path)
    ensures Opens(tr[i], p, path, tr[i + 1]) && SoundFiles(tr[i + 1].fs)
  {
    hide Opens, Formatted, NoneOpen, SoundFiles;
    assert Calls(tr[i], calls[i], tr[i + 1]);
    CallsKeepSound(tr, calls, i + 1);
  }
}
