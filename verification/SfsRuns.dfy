/**
 Whole runs of SFS: any sequence of operations, successful or not, keeps the
 filesystem in order, and what being in order means in the system's terms.
 */
module SfsRuns {
  import opened Bytes
  import opened Errno
  import opened SfsVolume
  import opened SfsSteps
  import opened SfsFs
  import opened SfsIo
  import opened SfsTruncate
  import opened SfsVnodes
  import opened SfsDirectory
  import opened SfsDirIo
  import opened SfsLinks
  import opened SfsOps
  import opened BitmapLib
  import opened UioLib

  // ---------- what the invariant says ----------

  // File i is there: loaded, the root, or named by an entry of the directory.
  ghost predicate Live(v: Vol, i: nat)
    requires DirOk(v)
  {
    i in v.tab || i == ROOT_LOCATION || (i != NOINO && exists s :: 0 <= s < |Dir(v)| && Dir(v)[s].ino == i)
  }

  // The inode in force: the loaded copy if there is one, else the one on disk.
  ghost function InForce(v: Vol, i: nat): Inode {
    if i in v.tab then v.tab[i].inode else InodeOf(BlockAt(v.disk, i))
  }

  // Place r uses block b, read off the superblock geometry, the directory,
  // the vnode table, the inodes in force and the indirect blocks on disk.
  ghost predicate Uses(v: Vol, r: Ref, b: nat)
    requires DirOk(v)
  {
    match r
    case RefSuper => b == 0
    case RefMap => MAP_LOCATION <= b < MAP_LOCATION + BitBlocks(v.nblocks)
    case RefPast => v.nblocks <= b < |v.bits|
    case RefInode(i) => Live(v, i) && b == i
    case RefIndirect(i) => Live(v, i) && b != 0 && InForce(v, i).indirect == b
    case RefData(i, k) => Live(v, i) && b != 0 && SlotOf(v.disk, InForce(v, i), k) == b
  }

  // Slot k of the block map of inode c.
  ghost function SlotOf(disk: seq<Block>, c: Inode, k: nat): nat {
    if k < |c.direct| then c.direct[k]
    else if |c.direct| <= k < |c.direct| + WORDS then Unpack(BlockAt(disk, c.indirect))[k - |c.direct|]
    else 0
  }

  // The files that are there are the files recorded.
  lemma LiveIsFile(v: Vol, i: nat)
    requires v.Inv() && DirOk(v)
    ensures Live(v, i) <==> i in v.files
  {
    hide Vol.Inv, ContentOf, Flat, Ents, DirOff;
    RefsPositive(v);
    RootLinked(v);
    DirDefined(v);
    if i in v.files {
      NamesAndLinks(v, i);
      InodeFacts(v, i);
    } else if i != NOINO && exists s :: 0 <= s < |Dir(v)| && Dir(v)[s].ino == i {
      var s :| 0 <= s < |Dir(v)| && Dir(v)[s].ino == i;
      SlotLive(v, s);
    }
  }

  lemma InForceIsCur(v: Vol, i: nat)
    requires v.Inv() && i in v.files
    ensures i in v.saved && InForce(v, i) == Cur(v.tab, v.saved, i)
  {
    hide SfsVolume.Struct, Indirects, InodeOf;
    InodeFacts(v, i);
  }

  lemma SlotIsMap(v: Vol, i: nat, k: nat)
    requires v.Inv() && i in v.files
    ensures |v.files[i].bmap| == MAXBLOCKS && InForce(v, i).indirect == v.files[i].ind
    ensures SlotOf(v.disk, InForce(v, i), k) == if k < MAXBLOCKS then v.files[i].bmap[k] else 0
  {
    hide SfsVolume.Struct, Inodes, Unpack, InForce;
    InForceIsCur(v, i);
    assert Records(v.files[i], Cur(v.tab, v.saved, i));
    assert IndirectSlots(v.files[i], BlockAt(v.disk, v.files[i].ind));
    if NDIRECT <= k < MAXBLOCKS {
      assert v.files[i].bmap[NDIRECT..][k - NDIRECT] == v.files[i].bmap[k];
    }
  }

  // The same in terms of the recorded block maps.
  ghost predicate MapUses(nblocks: nat, bits: seq<bool>, files: Files, r: Ref, b: nat) {
    match r
    case RefSuper => b == 0
    case RefMap => MAP_LOCATION <= b < MAP_LOCATION + BitBlocks(nblocks)
    case RefPast => nblocks <= b < |bits|
    case RefInode(i) => i in files && b == i
    case RefIndirect(i) => i in files && b != 0 && files[i].ind == b
    case RefData(i, k) => i in files && b != 0 && k < |files[i].bmap| && files[i].bmap[k] == b
  }

  lemma MapUsesIsOwner(n: nat, bits: seq<bool>, owner: Owners, files: Files, r: Ref, b: nat)
    requires Struct(n, bits, owner, files) && b < |bits|
    ensures MapUses(n, bits, files, r, b) <==> b in owner && owner[b] == r
  {}

  lemma UsesIsMapUses(v: Vol, r: Ref, b: nat)
    requires v.Inv() && DirOk(v)
    ensures Uses(v, r, b) <==> MapUses(v.nblocks, v.bits, v.files, r, b)
  {
    hide Vol.Inv, SlotOf, InForce, DirOff, Live;
    if r.RefInode? || r.RefIndirect? || r.RefData? {
      LiveIsFile(v, r.ino);
      if r.ino in v.files {
        SlotIsMap(v, r.ino, if r.RefData? then r.k else 0);
      }
    }
  }

  // Every use of a block is its owner's, and every owner uses its block.
  lemma UsesIsOwner(v: Vol, r: Ref, b: nat)
    requires v.Inv() && DirOk(v) && b < |v.bits|
    ensures Uses(v, r, b) <==> b in v.owner && v.owner[b] == r
  {
    hide Uses, DirOff, MapUses, SfsVolume.Struct, Mirrors, Inodes, Indirects;
    UsesIsMapUses(v, r, b);
    MapUsesIsOwner(v.nblocks, v.bits, v.owner, v.files, r, b);
  }

  // A block is marked in the freemap if and only if exactly one place uses it.
  lemma MarkedIffOneUse(v: Vol, b: nat)
    requires v.Inv() && DirOk(v) && b < |v.bits|
    ensures v.bits[b] <==> exists r :: Uses(v, r, b)
    ensures forall r1, r2 :: Uses(v, r1, b) && Uses(v, r2, b) ==> r1 == r2
  {
    hide Uses, DirOff;
    assert v.bits[b] <==> b in v.owner;
    forall r
      ensures Uses(v, r, b) <==> b in v.owner && v.owner[b] == r
    {
      UsesIsOwner(v, r, b);
    }
    if b in v.owner {
      assert Uses(v, v.owner[b], b);
    }
  }

  // No block belongs to two files, nor twice to one.
  lemma NoSharing(v: Vol, i: nat, k: nat, j: nat, m: nat)
    requires v.Inv() && i in v.files && j in v.files && k < MAXBLOCKS && m < MAXBLOCKS
    requires |v.files[i].bmap| == |v.files[j].bmap| == MAXBLOCKS
    requires v.files[i].bmap[k] == v.files[j].bmap[m] != 0
    ensures i == j && k == m
  {
    assert v.owner[v.files[i].bmap[k]] == RefData(i, k);
    assert v.owner[v.files[j].bmap[m]] == RefData(j, m);
  }

  // Names are unique, every link count is the number of names (one more for
  // the root) and fits its 16 bits, and an unlinked file is alive only while
  // it is referenced.
  lemma NamesAndLinks(v: Vol, i: nat)
    requires DirOk(v) && i in v.files
    ensures |Dir(v)| <= MAXENTS && NamesUnique(Dir(v))
    ensures v.files[i].links == Count(Dir(v), i) + OwnLinks(i) <= MAXENTS + 1
    ensures i in v.tab || i == ROOT_LOCATION || exists s :: 0 <= s < |Dir(v)| && Dir(v)[s].ino == i
  {
    hide ContentOf, Flat, Ents, NamesUnique;
    CountBound(Dir(v), i);
    if i !in v.tab && i != ROOT_LOCATION && forall s :: 0 <= s < |Dir(v)| ==> Dir(v)[s].ino != i {
      CountNone(Dir(v), i);
    }
  }

  // ---------- operations on open files ----------

  // sfs_read and sfs_write
  method FileIo(fs: Sfs, ino: nat, u: Uio) returns (err: Err, ghost t: nat)
    requires Good(fs) && ino in fs.svs && ino != ROOT_LOCATION && u.Valid() && u.offset + u.resid < 0x8000_0000
    modifies fs, fs.freemap.v, u
    ensures Good(fs) && u.Advanced(t)
    ensures Performed(old(fs.V()), fs.V(), ino, u.write, old(u.mem), u.mem, old(u.base), old(u.offset), t)
    ensures Dir(fs.V()) == old(Dir(fs.V())) && Others(old(fs.V()), fs.V(), ino)
    ensures Finished(old(fs.V()), fs.V(), ino, u.write, old(u.offset), old(u.resid), err)
    ensures u.write && err == OK ==> t == old(u.resid)
    ensures !u.write && old(u.offset) >= old(OffT(fs.files[ino].size)) ==> err == OK && t == 0
    ensures !u.write && old(u.offset) < old(OffT(fs.files[ino].size)) ==>
              && old(u.offset) + t <= old(OffT(fs.files[ino].size))
              && (err == OK ==> t == old(u.resid) || old(u.offset) + t == old(OffT(fs.files[ino].size)))
              && (err == OK || old(u.offset) + old(u.resid) > FILEMAX)
    ensures err == OK ==> t == Wanted(u.write, old(u.resid), old(u.offset), old(OffT(fs.files[ino].size)))
    ensures err != OK ==>
              StoppedAt(old(fs.V()), ino, u.write, old(u.offset),
                Wanted(u.write, old(u.resid), old(u.offset), old(OffT(fs.files[ino].size))), t)
  {
    hide Vol.Inv, MetaOk, TableOk, Bitmap.Valid, Bitmap.Bits, DirOff, Ents, Performed, Others, Flat, Splice,
      ContentOf, Finished, StoppedAt;
    ghost var v0, mem0, base0, o := fs.V(), u.mem, u.base, u.offset;
    err, t := Io(fs, ino, u);
    PerformedEvolves(v0, fs.V(), ino, u.write, mem0, u.mem, base0, o, t);
    OtherFileDir(v0, fs.V(), ino, 0, 0);
    EvolvesOthers(v0, fs.V(), ino);
  }

  lemma PerformedEvolves(v: Vol, v': Vol, ino: nat, write: bool, mem: seq<Byte>, mem': seq<Byte>, base: nat, o: nat,
                         t: nat)
    requires Performed(v, v', ino, write, mem, mem', base, o, t)
    ensures Evolves(v, v', ino)
  {}

  lemma EvolvesOthers(v: Vol, v': Vol, ino: nat)
    requires Evolves(v, v', ino)
    ensures Others(v, v', ino)
  {
    hide ContentOf;
  }

  lemma TruncatedDir(v: Vol, ino: nat, blocklen: nat, len: Word)
    requires v.Inv() && DirOk(v) && ino in v.tab && ino != ROOT_LOCATION
    requires ino in v.files && |v.files[ino].bmap| == MAXBLOCKS && v.files[ino].ind < |v.disk|
    ensures DirOk(Truncated(v, ino, blocklen, len)) && Dir(Truncated(v, ino, blocklen, len)) == Dir(v)
    ensures Others(v, Truncated(v, ino, blocklen, len), ino)
  {
    hide Vol.Inv, ContentOf, Flat, Ents, NamesUnique, Count, CutMap, AllGone, IndirectGone, BitsWithout, Pack, Kept;
    var v' := Truncated(v, ino, blocklen, len);
    TruncatedContent(v, ino, blocklen, len);
    RootLinked(v);
    assert v'.files.Keys == v.files.Keys;
    assert v'.tab.Keys == v.tab.Keys;
    DirFrame(v, v', 0, 0);
  }

  // sfs_truncate on a file
  method TruncateFile(fs: Sfs, ino: nat, len: Word)
    requires Good(fs) && ino in fs.svs && ino != ROOT_LOCATION
    requires ino in fs.files && |fs.files[ino].bmap| == MAXBLOCKS && fs.files[ino].ind < |fs.disk|
    modifies fs, fs.freemap.v
    ensures Good(fs) && fs.V() == Truncated(old(fs.V()), ino, BlockLen(len), len)
    ensures ino in fs.files && fs.files[ino].size == len && ino in fs.svs && fs.svs[ino].inode.size == len
    ensures Dir(fs.V()) == old(Dir(fs.V())) && Others(old(fs.V()), fs.V(), ino)
  {
    hide Vol.Inv, MetaOk, TableOk, Bitmap.Valid, Bitmap.Bits, DirOff, Ents, Others, Truncated;
    TruncatedDir(fs.V(), ino, BlockLen(len), len);
    Truncate(fs, ino, len);
  }

  lemma SyncedDir(v: Vol, ino: nat)
    requires v.Inv() && DirOk(v) && ino in v.tab && ino < |v.disk| && v.tab[ino].inode.Shape()
    ensures DirOk(Synced(v, ino)) && Dir(Synced(v, ino)) == Dir(v) && Others(v, Synced(v, ino), ino)
  {
    hide Vol.Inv, ContentOf, Flat, Ents, NamesUnique, Count, Synced;
    SyncedFacts(v, ino);
    RootLinked(v);
    assert Synced(v, ino).tab.Keys == v.tab.Keys;
    DirFrame(v, Synced(v, ino), 0, 0);
  }

  // sfs_fsync
  method Fsync(fs: Sfs, ino: nat)
    requires Good(fs) && ino in fs.svs && fs.svs[ino].inode.Shape() && ino < |fs.disk|
    modifies fs
    ensures Good(fs) && fs.V() == Synced(old(fs.V()), ino)
    ensures Dir(fs.V()) == old(Dir(fs.V())) && Others(old(fs.V()), fs.V(), ino)
  {
    hide Vol.Inv, MetaOk, TableOk, Bitmap.Valid, Bitmap.Bits, DirOff, Ents, Others, Synced;
    SyncedDir(fs.V(), ino);
    SyncVnode(fs, ino);
  }

  // ---------- runs ----------

  datatype Op =
    | GetRoot
    | LookUp(name: seq<Byte>)
    | Create(name: seq<Byte>, excl: bool)
    | Link(name: seq<Byte>, ino: Word)
    | Unlink(name: seq<Byte>)
    | Move(from: seq<Byte>, to: seq<Byte>)
    | Read(ino: Word, offset: nat, count: nat)
    | Write(ino: Word, offset: nat, data: seq<Byte>)
    | Cut(ino: Word, len: Word)
    | Flush(ino: Word)
    | Release(ino: Word)

  // What the VFS layer sees to before it calls: vnodes are loaded, the
  // directory is open for directory operations, files are not the directory,
  // names are C strings and offsets fit off_t.
  ghost predicate Allowed(v: Vol, op: Op)
    requires DirOk(v)
  {
    match op
    case GetRoot => true
    case LookUp(_) => ROOT_LOCATION in v.tab
    case Create(name, _) => ROOT_LOCATION in v.tab && IsName(name)
    case Link(name, ino) => ROOT_LOCATION in v.tab && IsName(name) && ino in v.tab
    case Unlink(_) => ROOT_LOCATION in v.tab
    case Move(from, to) => ROOT_LOCATION in v.tab && IsName(to) && !Bound(Dir(v), from, ROOT_LOCATION)
    case Read(ino, offset, count) => ino in v.tab && ino != ROOT_LOCATION && offset + count < 0x8000_0000
    case Write(ino, offset, data) => ino in v.tab && ino != ROOT_LOCATION && offset + |data| < 0x8000_0000
    case Cut(ino, _) => ino in v.tab && ino != ROOT_LOCATION
    case Flush(ino) => ino in v.tab
    case Release(ino) => ino in v.tab
  }

  lemma DirDefined(v: Vol)
    requires DirOk(v)
    ensures Kinds(v.files) && |v.files[ROOT_LOCATION].bmap| == MAXBLOCKS
  {
    hide ContentOf, Flat, Ents;
  }

  // What an operation hands back: its error, the inode it found or made, the
  // caller's buffer and how many bytes were moved
  datatype Reply = Reply(err: Err, ino: Word, data: seq<Byte>, count: nat)

  // How many of n bytes at o are moved: a write moves all, a read stops at the
  // end of the file.
  ghost predicate Span(write: bool, o: nat, n: nat, size: int, t: nat, err: Err) {
    && (write && err == OK ==> t == n)
    && (!write && o >= size ==> err == OK && t == 0)
    && (!write && o < size ==>
          && o + t <= size && (err == OK ==> t == n || o + t == size) && (err == OK || o + n > FILEMAX))
  }

  // ---------- what each operation does, as its caller sees it ----------

  // es and es' are the directories of v and v'.
  ghost predicate DidLookUp(v: Vol, es: seq<Ent>, name: seq<Byte>, v': Vol, es': seq<Ent>, r: Reply) {
    && es' == es && r.err == (if Used(es, name) then OK else ENOENT)
    && (r.err == OK ==> Bound(es, name, r.ino) && PickedUp(v, v', r.ino))
    && (r.err != OK ==> v' == v)
  }

  ghost predicate DidCreate(v: Vol, es: seq<Ent>, name: seq<Byte>, excl: bool, v': Vol, es': seq<Ent>, r: Reply) {
    && CreatAnswer(v, v', es, name, excl, r.err)
    && (r.err == OK && Used(es, name) ==> es' == es && Bound(es, name, r.ino) && PickedUp(v, v', r.ino))
    && (r.err == OK && !Used(es, name) ==> NameAdded(es, es', name, r.ino) && Created(v, v', r.ino))
    && (r.err != OK ==> es' == es && CameToNothing(v, v'))
  }

  ghost predicate DidLink(v: Vol, es: seq<Ent>, name: seq<Byte>, ino: Word, v': Vol, es': seq<Ent>, r: Reply) {
    && LinkAnswer(v, v', es, name, r.err) && LinksMoved(v, v', ino, if r.err == OK then 1 else 0)
    && (r.err == OK ==> NameAdded(es, es', name, ino))
    && (r.err != OK ==> es' == es)
  }

  ghost predicate DidUnlink(v: Vol, es: seq<Ent>, name: seq<Byte>, v': Vol, es': seq<Ent>, r: Reply) {
    && r.err == (if Used(es, name) then OK else ENOENT)
    && (r.err == OK ==> exists x: Word :: Unlinked(v, es, name, v', es', x))
    && (r.err != OK ==> v' == v && es' == es)
  }

  ghost predicate Unlinked(v: Vol, es: seq<Ent>, name: seq<Byte>, v': Vol, es': seq<Ent>, x: Word) {
    Bound(es, name, x) && NameRemoved(es, es', name, x) && Visited(v, v', x, -1)
  }

  ghost predicate DidMove(v: Vol, es: seq<Ent>, from: seq<Byte>, to: seq<Byte>, v': Vol, es': seq<Ent>, r: Reply) {
    && RenameAnswer(v, es, from, to, r.err)
    && (r.err != ENOENT ==> exists x: Word :: Moved(v, es, from, to, v', es', x, r.err))
    && (r.err == ENOENT ==> v' == v && es' == es)
  }

  ghost predicate Moved(v: Vol, es: seq<Ent>, from: seq<Byte>, to: seq<Byte>, v': Vol, es': seq<Ent>, x: Word,
                        err: Err) {
    && Bound(es, from, x) && Visited(v, v', x, 0)
    && if err == OK then NameChanged(es, es', from, to, x) else es' == es
  }

  ghost predicate DidRead(v: Vol, es: seq<Ent>, ino: nat, o: nat, n: nat, v': Vol, es': seq<Ent>, r: Reply) {
    && es' == es && v' == v && ino in v.files
    && Performed(v, v', ino, false, Zeros(n), r.data, 0, o, r.count) && Finished(v, v', ino, false, o, n, r.err)
    && Span(false, o, n, OffT(v.files[ino].size), r.count, r.err)
  }

  ghost predicate DidWrite(v: Vol, es: seq<Ent>, ino: nat, o: nat, data: seq<Byte>, v': Vol, es': seq<Ent>, r: Reply) {
    && es' == es && ino in v.files && Others(v, v', ino)
    && Performed(v, v', ino, true, data, data, 0, o, r.count) && Finished(v, v', ino, true, o, |data|, r.err)
    && Span(true, o, |data|, OffT(v.files[ino].size), r.count, r.err)
  }

  ghost predicate DidCut(v: Vol, es: seq<Ent>, ino: nat, len: Word, v': Vol, es': seq<Ent>, r: Reply) {
    && es' == es && r.err == OK && Others(v, v', ino)
    && ino in v.files && ino in v.tab && |v.files[ino].bmap| == MAXBLOCKS && v.files[ino].ind < |v.disk|
    && v' == Truncated(v, ino, BlockLen(len), len) && ino in v'.files && v'.files[ino].size == len
  }

  // The inode on disk is the one in memory, and nothing else changed.
  ghost predicate DidFlush(v: Vol, es: seq<Ent>, ino: nat, v': Vol, es': seq<Ent>, r: Reply) {
    && es' == es && r.err == OK && Others(v, v', ino) && v'.files == v.files && SameContent(v, v')
    && ino in v.tab && ino in v'.tab && ino in v'.saved
    && v'.tab[ino] == v.tab[ino].(dirty := false) && v'.saved[ino] == v.tab[ino].inode
  }

  ghost predicate DidRelease(v: Vol, es: seq<Ent>, ino: nat, v': Vol, es': seq<Ent>, r: Reply) {
    && es' == es && r.err == OK && Others(v, v', ino) && ino in v.tab
    && (v.tab[ino].refs > 1 ==> v' == SetRefs(v, ino, v.tab[ino].refs - 1))
    && (v.tab[ino].refs == 1 ==> Reclaimed(v, v', ino))
  }

  ghost predicate Did(v: Vol, es: seq<Ent>, op: Op, v': Vol, es': seq<Ent>, r: Reply) {
    match op
    case GetRoot => es' == es && r.err == OK && PickedUp(v, v', ROOT_LOCATION)
    case LookUp(name) => DidLookUp(v, es, name, v', es', r)
    case Create(name, excl) => DidCreate(v, es, name, excl, v', es', r)
    case Link(name, ino) => DidLink(v, es, name, ino, v', es', r)
    case Unlink(name) => DidUnlink(v, es, name, v', es', r)
    case Move(from, to) => DidMove(v, es, from, to, v', es', r)
    case Read(ino, offset, count) => DidRead(v, es, ino, offset, count, v', es', r)
    case Write(ino, offset, data) => DidWrite(v, es, ino, offset, data, v', es', r)
    case Cut(ino, len) => DidCut(v, es, ino, len, v', es', r)
    case Flush(ino) => DidFlush(v, es, ino, v', es', r)
    case Release(ino) => DidRelease(v, es, ino, v', es', r)
  }

  // One operation does what Did says, whatever its outcome.
  method Perform(fs: Sfs, op: Op) returns (r: Reply)
    requires Good(fs) && Allowed(fs.V(), op)
    modifies fs, fs.freemap.v
    ensures Good(fs) && Did(old(fs.V()), old(Dir(fs.V())), op, fs.V(), Dir(fs.V()), r)
  {
    hide Vol.Inv, MetaOk, TableOk, Bitmap.Valid, Bitmap.Bits, DirOff, Ents, PickedUp;
    DirDefined(fs.V());
    match op {
      case GetRoot =>
        RootLinked(fs.V());
        PickUp(fs, ROOT_LOCATION);
        r := Reply(OK, ROOT_LOCATION, [], 0);
      case Read(ino, offset, count) => r := ReadOp(fs, ino, offset, count);
      case Write(ino, offset, data) => r := WriteOp(fs, ino, offset, data);
      case Cut(ino, len) => r := CutOp(fs, ino, len);
      case Flush(ino) => r := FlushOp(fs, ino);
      case Release(ino) =>
        Decref(fs, ino);
        LoadedFacts(old(fs.V()), ino);
        r := Reply(OK, 0, [], 0);
      case _ => r := NameOp(fs, op);
    }
  }

  // The operations on names
  method NameOp(fs: Sfs, op: Op) returns (r: Reply)
    requires Good(fs) && Allowed(fs.V(), op) && (op.LookUp? || op.Create? || op.Link? || op.Unlink? || op.Move?)
    modifies fs, fs.freemap.v
    ensures Good(fs) && Did(old(fs.V()), old(Dir(fs.V())), op, fs.V(), Dir(fs.V()), r)
  {
    hide Vol.Inv, MetaOk, TableOk, Bitmap.Valid, Bitmap.Bits, DirOff, Ents, PickedUp, Created, CameToNothing, NameAdded,
      NameRemoved, NameChanged, Visited, LinksMoved, LinkAnswer, CreatAnswer, LinkResult;
    ghost var v := fs.V();
    DirDefined(v);
    ghost var es := Dir(v);
    match op {
      case LookUp(name) =>
        var e, i, s := Lookup(fs, name, es);
        r := Reply(e, i, [], 0);
      case Create(name, excl) =>
        var e, i := Creat(fs, name, excl, es);
        r := Reply(e, i, [], 0);
      case Link(name, ino) =>
        var e := LinkFile(fs, name, ino, es);
        r := Reply(e, ino, [], 0);
      case Unlink(name) =>
        var e;
        ghost var x;
        e, x := Remove(fs, name, es);
        r := Reply(e, 0, [], 0);
        DirDefined(fs.V());
        if e == OK { BoundWord(es, name, x); }
        assert e == OK ==> Unlinked(v, es, name, fs.V(), Dir(fs.V()), x);
      case Move(from, to) =>
        var e;
        ghost var x;
        e, x := Rename(fs, from, to, es);
        r := Reply(e, 0, [], 0);
        DirDefined(fs.V());
        if e != ENOENT { BoundWord(es, from, x); }
        assert e != ENOENT ==> Moved(v, es, from, to, fs.V(), Dir(fs.V()), x, e);
    }
  }

  lemma BoundWord(es: seq<Ent>, name: seq<Byte>, i: nat)
    requires Bound(es, name, i)
    ensures i < 0x1_0000_0000 && Used(es, name)
  {}

  method ReadOp(fs: Sfs, ino: Word, offset: nat, count: nat) returns (r: Reply)
    requires Good(fs) && ino in fs.svs && ino != ROOT_LOCATION && offset + count < 0x8000_0000
    modifies fs, fs.freemap.v
    ensures Good(fs) && DidRead(old(fs.V()), old(Dir(fs.V())), ino, offset, count, fs.V(), Dir(fs.V()), r)
  {
    hide Vol.Inv, MetaOk, TableOk, Bitmap.Valid, Bitmap.Bits, DirOff, Ents, Performed, Finished, StoppedAt, Others;
    LoadedFacts(fs.V(), ino);
    DirDefined(fs.V());
    ghost var v := fs.V();
    var u := new Uio(Zeros(count), offset, false);
    var e;
    ghost var t;
    e, t := FileIo(fs, ino, u);
    ReadSame(v, fs.V(), ino, Zeros(count), u.mem, 0, offset, t);
    r := Reply(e, ino, u.mem, count - u.resid);
  }

  method WriteOp(fs: Sfs, ino: Word, offset: nat, data: seq<Byte>) returns (r: Reply)
    requires Good(fs) && ino in fs.svs && ino != ROOT_LOCATION && offset + |data| < 0x8000_0000
    modifies fs, fs.freemap.v
    ensures Good(fs) && DidWrite(old(fs.V()), old(Dir(fs.V())), ino, offset, data, fs.V(), Dir(fs.V()), r)
  {
    hide Vol.Inv, MetaOk, TableOk, Bitmap.Valid, Bitmap.Bits, DirOff, Ents, Performed, Finished, StoppedAt, Others;
    LoadedFacts(fs.V(), ino);
    DirDefined(fs.V());
    ghost var v := fs.V();
    var u := new Uio(data, offset, true);
    var e;
    ghost var t;
    e, t := FileIo(fs, ino, u);
    MemSame(v, fs.V(), ino, data, u.mem, 0, offset, t);
    r := Reply(e, ino, [], |data| - u.resid);
  }

  method CutOp(fs: Sfs, ino: Word, len: Word) returns (r: Reply)
    requires Good(fs) && ino in fs.svs && ino != ROOT_LOCATION
    modifies fs, fs.freemap.v
    ensures Good(fs) && DidCut(old(fs.V()), old(Dir(fs.V())), ino, len, fs.V(), Dir(fs.V()), r)
  {
    hide Vol.Inv, MetaOk, TableOk, Bitmap.Valid, Bitmap.Bits, DirOff, Ents, Truncated, Others;
    LoadedFacts(fs.V(), ino);
    DirDefined(fs.V());
    TruncateFile(fs, ino, len);
    r := Reply(OK, ino, [], 0);
  }

  method FlushOp(fs: Sfs, ino: Word) returns (r: Reply)
    requires Good(fs) && ino in fs.svs
    modifies fs, fs.freemap.v
    ensures Good(fs) && DidFlush(old(fs.V()), old(Dir(fs.V())), ino, fs.V(), Dir(fs.V()), r)
  {
    hide Vol.Inv, MetaOk, TableOk, Bitmap.Valid, Bitmap.Bits, DirOff, Ents, Synced, Others, SameContent;
    ghost var v := fs.V();
    LoadedFacts(v, ino);
    InodeFacts(v, ino);
    DirDefined(v);
    SyncedFacts(v, ino);
    Fsync(fs, ino);
    CleanSaved(fs.V(), ino);
    r := Reply(OK, ino, [], 0);
  }

  lemma CleanSaved(v: Vol, ino: nat)
    requires v.Inv() && ino in v.tab && !v.tab[ino].dirty
    ensures ino in v.saved && v.saved[ino] == v.tab[ino].inode
  {}

  // Whether the VFS layer would make the call
  method Permitted(fs: Sfs, op: Op) returns (ok: bool)
    requires Good(fs)
    modifies fs, fs.freemap.v
    ensures Good(fs) && fs.V() == old(fs.V())
    ensures ok <==> Allowed(fs.V(), op)
  {
    hide Vol.Inv, MetaOk, TableOk, Bitmap.Valid, Bitmap.Bits, DirOff, Ents;
    match op {
      case GetRoot => ok := true;
      case LookUp(_) => ok := ROOT_LOCATION in fs.svs;
      case Create(name, _) => ok := ROOT_LOCATION in fs.svs && IsName(name);
      case Link(name, ino) => ok := ROOT_LOCATION in fs.svs && IsName(name) && ino in fs.svs;
      case Unlink(_) => ok := ROOT_LOCATION in fs.svs;
      case Move(from, to) =>
        ok := false;
        if ROOT_LOCATION in fs.svs {
          DirDefined(fs.V());
          ghost var es := Dir(fs.V());
          DirLoaded(fs.V());
          var e, i, s, f := FindName(fs, from, es);
          FoundBinds(es, from, e == OK, i, s);
          ok := IsName(to) && !(e == OK && i == ROOT_LOCATION);
        }
      case Read(ino, offset, count) => ok := ino in fs.svs && ino != ROOT_LOCATION && offset + count < 0x8000_0000;
      case Write(ino, offset, data) => ok := ino in fs.svs && ino != ROOT_LOCATION && offset + |data| < 0x8000_0000;
      case Cut(ino, _) => ok := ino in fs.svs && ino != ROOT_LOCATION;
      case Flush(ino) => ok := ino in fs.svs;
      case Release(ino) => ok := ino in fs.svs;
    }
  }

  lemma FoundBinds(es: seq<Ent>, name: seq<Byte>, found: bool, ino: nat, slot: nat)
    requires NamesUnique(es)
    requires found ==> slot < |es| && ino != NOINO && es[slot].ino == ino && es[slot].name == name
    requires !found ==> !Used(es, name)
    ensures Bound(es, name, ROOT_LOCATION) <==> found && ino == ROOT_LOCATION
  {
    if Bound(es, name, ROOT_LOCATION) {
      var s :| 0 <= s < |es| && es[s].ino == ROOT_LOCATION && es[s].name == name;
      assert Used(es, name);
    }
  }

  // A state of the filesystem that is in order
  ghost predicate InOrder(v: Vol) {
    v.Inv() && DirOk(v)
  }

  // From v to v' operation op was done with reply r, or was not allowed.
  ghost predicate Goes(v: Vol, op: Op, v': Vol, r: Reply) {
    && InOrder(v) && InOrder(v')
    && (Allowed(v, op) ==> Did(v, Dir(v), op, v', Dir(v'), r))
    && (!Allowed(v, op) ==> v' == v)
  }

  // The states of a run, one more than its operations, and their replies
  ghost predicate IsHistory(trace: seq<Vol>, ops: seq<Op>, rs: seq<Reply>) {
    && |trace| == |ops| + 1 && |rs| == |ops| && (forall k :: 0 <= k < |trace| ==> InOrder(trace[k]))
    && forall k :: 0 <= k < |ops| ==> GoesAt(trace, ops, rs, k)
  }

  ghost predicate GoesAt(trace: seq<Vol>, ops: seq<Op>, rs: seq<Reply>, k: nat)
    requires k + 1 < |trace| && k < |ops| && k < |rs|
  {
    Goes(trace[k], ops[k], trace[k + 1], rs[k])
  }

  lemma HistoryGrows(trace: seq<Vol>, ops: seq<Op>, rs: seq<Reply>, op: Op, v: Vol, r: Reply)
    requires IsHistory(trace, ops, rs) && Goes(trace[|ops|], op, v, r)
    ensures IsHistory(trace + [v], ops + [op], rs + [r])
  {
    hide Goes, InOrder;
    assert InOrder(v) by { GoesInOrder(trace[|ops|], op, v, r); }
    forall k | 0 <= k < |ops| + 1
      ensures GoesAt(trace + [v], ops + [op], rs + [r], k)
    {
      if k < |ops| {
        assert GoesAt(trace, ops, rs, k);
      }
    }
  }

  lemma GoesInOrder(v: Vol, op: Op, v': Vol, r: Reply)
    requires Goes(v, op, v', r)
    ensures InOrder(v) && InOrder(v')
  {}

  // Any sequence of operations does what each of them says, and every state
  // on the way is in order.
  method Run(fs: Sfs, ops: seq<Op>) returns (rs: seq<Reply>, ghost trace: seq<Vol>)
    requires Good(fs)
    modifies fs, fs.freemap.v
    ensures Good(fs) && IsHistory(trace, ops, rs) && trace[0] == old(fs.V()) && trace[|ops|] == fs.V()
  {
    hide Allowed, Dir, DirOk, Vol.Inv, MetaOk, TableOk, Bitmap.Valid, Bitmap.Bits, Did, IsHistory;
    var n := 0;
    rs, trace := [], [fs.V()];
    NoHistory(fs.V());
    assert ops[..0] == [];
    while n < |ops|
      invariant n <= |ops| && Good(fs) && |trace| == n + 1 && trace[0] == old(fs.V()) && trace[n] == fs.V()
      invariant IsHistory(trace, ops[..n], rs)
    {
      var ok := Permitted(fs, ops[n]);
      var r := Reply(OK, 0, [], 0);
      if ok {
        r := Perform(fs, ops[n]);
      }
      HistoryGrows(trace, ops[..n], rs, ops[n], fs.V(), r);
      assert ops[..n + 1] == ops[..n] + [ops[n]];
      rs, trace := rs + [r], trace + [fs.V()];
      n := n + 1;
    }
    assert ops[..n] == ops;
  }

  lemma NoHistory(v: Vol)
    requires InOrder(v)
    ensures IsHistory([v], [], [])
  {
    hide InOrder;
  }
}
