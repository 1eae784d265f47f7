/**
 Directory slots in kern/fs/sfs/sfs_vnode.c: reading and writing one entry
 through sfs_io, searching by name, and adding or clearing an entry.
 */
module SfsDirIo {
  import opened Bytes
  import opened Errno
  import opened SfsVolume
  import opened SfsSteps
  import opened SfsSpace
  import opened SfsFs
  import opened SfsIo
  import opened SfsDirectory
  import opened BitmapLib
  import opened UioLib

  // The volume has a directory, and it is loaded.
  ghost predicate HasDir(v: Vol) {
    Kinds(v.files) && |v.files[ROOT_LOCATION].bmap| == MAXBLOCKS && ROOT_LOCATION in v.tab
  }

  // ---------- entries through sfs_io ----------

  lemma ReadEnt(v: Vol, mem: seq<Byte>, mem': seq<Byte>, s: nat)
    requires HasDir(v) && s < Slots(v) && |mem| == DIRSIZE
    requires Performed(v, v, ROOT_LOCATION, false, mem, mem', 0, DIRSIZE * s, DIRSIZE)
    ensures |mem'| == DIRSIZE && EntOf(mem') == Dir(v)[s]
  {
    hide ContentOf, Flat, EntOf, Evolves;
    var image := Flat(v.Content(ROOT_LOCATION));
    SpliceWhole(mem, image[DIRSIZE * s..DIRSIZE * s + DIRSIZE]);
  }

  // Only the directory changed, and in it only the entries are now es.
  ghost predicate DirBecomes(v: Vol, v': Vol, es: seq<Ent>) {
    HasDir(v) && HasDir(v') && Evolves(v, v', ROOT_LOCATION) && Dir(v') == es
  }

  lemma KindsKept(v: Vol, v': Vol)
    requires HasDir(v) && Evolves(v, v', ROOT_LOCATION)
    requires v'.files[ROOT_LOCATION].size % DIRSIZE == 0 && v'.files[ROOT_LOCATION].size <= FILEMAX
    ensures HasDir(v')
  {}

  lemma WriteEnt(v: Vol, v': Vol, bytes: seq<Byte>, s: nat)
    requires HasDir(v) && s <= Slots(v) && |bytes| == DIRSIZE
    requires Performed(v, v', ROOT_LOCATION, true, bytes, bytes, 0, DIRSIZE * s, DIRSIZE)
    ensures DirBecomes(v, v', PutEnt(Dir(v), s, EntOf(bytes)))
  {
    hide ContentOf, Flat, EntOf, Evolves, Ents;
    KindsKept(v, v');
    assert bytes[0..DIRSIZE] == bytes;
    SpliceEnts(Flat(v.Content(ROOT_LOCATION)), Slots(v), s, bytes);
  }

  // A failed write of an entry leaves the directory as it was.
  lemma WriteNoEnt(v: Vol, v': Vol, bytes: seq<Byte>, s: nat)
    requires HasDir(v) && s <= Slots(v) && |bytes| == DIRSIZE
    requires Performed(v, v', ROOT_LOCATION, true, bytes, bytes, 0, DIRSIZE * s, 0)
    ensures DirBecomes(v, v', Dir(v))
  {
    hide ContentOf, Flat, EntOf, Evolves, Ents;
    KindsKept(v, v');
  }

  // An entry in use lies in a mapped block.
  lemma EntMapped(v: Vol, s: nat)
    requires HasDir(v) && s < Slots(v) && Dir(v)[s].ino != NOINO
    ensures !Blocked(v, ROOT_LOCATION, true, DIRSIZE * s / BLOCKSIZE)
  {
    hide ContentOf, Flat, EntOf;
    var k, off := DIRSIZE * s / BLOCKSIZE, DIRSIZE * s % BLOCKSIZE;
    EntInBlock(s);
    var f := v.files[ROOT_LOCATION];
    FlatSlice(v.Content(ROOT_LOCATION), k, off, DIRSIZE);
    if f.bmap[k] == 0 {
      ContentHole(v.disk, f, k);
      ZeroEnt(ZeroBlock[off..off + DIRSIZE]);
    }
  }

  lemma EntInBlock(s: nat)
    requires s < MAXENTS
    ensures DIRSIZE * s / BLOCKSIZE < MAXBLOCKS && DIRSIZE * s % BLOCKSIZE + DIRSIZE <= BLOCKSIZE
  {}

  lemma ContentHole(disk: seq<Block>, f: File, k: nat)
    requires k < |f.bmap| && f.bmap[k] == 0
    ensures ContentOf(disk, f)[k] == ZeroBlock
  {}

  lemma ZeroEnt(bs: seq<Byte>)
    requires |bs| == DIRSIZE && forall j :: 0 <= j < DIRSIZE ==> bs[j] == 0
    ensures EntOf(bs).ino == NOINO
  {}

  lemma DirFacts(v: Vol)
    requires HasDir(v)
    ensures |Dir(v)| == Slots(v) <= MAXENTS && v.files[ROOT_LOCATION].size == DIRSIZE * Slots(v)
  {}

  // sfs_readdir
  method ReadDir(fs: Sfs, s: nat) returns (e: Ent)
    requires fs.Valid() && HasDir(fs.V()) && s < Slots(fs.V())
    modifies fs, fs.freemap.v
    ensures fs.Valid() && fs.V() == old(fs.V())
    ensures e == Dir(fs.V())[s]
  {
    hide Vol.Inv, MetaOk, TableOk, Bitmap.Valid, Bitmap.Bits, Evolves, MovedBytes, Performed, ContentOf, Flat, EntOf,
      Ents;
    ghost var v0 := fs.V();
    DirFacts(v0);
    var ku := new Uio(Zeros(DIRSIZE), DIRSIZE * s, false);
    var err;
    ghost var t;
    err, t := Io(fs, ROOT_LOCATION, ku);
    ReadSame(v0, fs.V(), ROOT_LOCATION, Zeros(DIRSIZE), ku.mem, 0, DIRSIZE * s, t);
    // panic: readdir: Short entry
    assert err == OK && ku.resid == 0;
    ReadEnt(v0, Zeros(DIRSIZE), ku.mem, s);
    e := EntOf(ku.mem);
  }

  lemma ReadSame(v: Vol, v': Vol, ino: nat, mem: seq<Byte>, mem': seq<Byte>, base: nat, o: nat, t: nat)
    requires Performed(v, v', ino, false, mem, mem', base, o, t)
    ensures v' == v && |mem'| == |mem|
  {}

  // The block of the directory that slot s lies in
  function SlotBlock(s: nat): nat {
    DIRSIZE * s / BLOCKSIZE
  }

  lemma FinishedSlot(v: Vol, v': Vol, s: nat, err: Err)
    requires Finished(v, v', ROOT_LOCATION, true, DIRSIZE * s, DIRSIZE, err)
    ensures Written(v, v', ROOT_LOCATION, SlotBlock(s), SlotBlock(s) + 1, err)
  {
    hide Written, IoResult, EndBlock;
    SlotEnds(s);
  }

  lemma SlotEnds(s: nat)
    ensures EndBlock(DIRSIZE * s, DIRSIZE) == SlotBlock(s) + 1 && SlotBlock(s) == s / 8
  {
    var q, r := s / 8, s % 8;
    assert DIRSIZE * s == BLOCKSIZE * q + DIRSIZE * r;
  }

  // sfs_writedir
  method WriteDir(fs: Sfs, bytes: seq<Byte>, s: nat) returns (err: Err)
    requires fs.Valid() && HasDir(fs.V()) && s <= Slots(fs.V()) && |bytes| == DIRSIZE
    modifies fs, fs.freemap.v
    ensures fs.Valid()
    ensures Written(old(fs.V()), fs.V(), ROOT_LOCATION, SlotBlock(s), SlotBlock(s) + 1, err)
    ensures DirBecomes(old(fs.V()), fs.V(),
            if err == OK then PutEnt(old(Dir(fs.V())), s, EntOf(bytes)) else old(Dir(fs.V())))
    ensures s < old(Slots(fs.V())) && old(Dir(fs.V()))[s].ino != NOINO ==> err == OK
  {
    hide Vol.Inv, MetaOk, TableOk, Bitmap.Valid, Bitmap.Bits, Evolves, MovedBytes, Performed, ContentOf, Flat, EntOf,
      Ents, DirBecomes, Written, Finished;
    ghost var v0 := fs.V();
    DirFacts(v0);
    if s < Slots(v0) && Dir(v0)[s].ino != NOINO {
      EntMapped(v0, s);
    }
    var ku := new Uio(bytes, DIRSIZE * s, true);
    ghost var t;
    err, t := Io(fs, ROOT_LOCATION, ku);
    FinishedSlot(v0, fs.V(), s, err);
    MemSame(v0, fs.V(), ROOT_LOCATION, bytes, ku.mem, 0, DIRSIZE * s, t);
    if err == OK {
      // panic: writedir: Short write
      assert ku.resid == 0;
      WriteEnt(v0, fs.V(), bytes, s);
    } else {
      assert t == 0;
      WriteNoEnt(v0, fs.V(), bytes, s);
    }
  }

  lemma MemSame(v: Vol, v': Vol, ino: nat, mem: seq<Byte>, mem': seq<Byte>, base: nat, o: nat, t: nat)
    requires Performed(v, v', ino, true, mem, mem', base, o, t)
    ensures mem' == mem
  {}

  // ---------- names ----------

  ghost predicate Used(es: seq<Ent>, name: seq<Byte>) {
    exists s :: 0 <= s < |es| && es[s].ino != NOINO && es[s].name == name
  }

  // sfs_dir_findname: the slot holding name, and the last empty slot if any.
  // es is the directory.
  method FindName(fs: Sfs, name: seq<Byte>, ghost es: seq<Ent>) returns (err: Err, ino: Word, slot: nat, emptyslot: int)
    requires fs.Valid() && HasDir(fs.V()) && es == Dir(fs.V()) && NamesUnique(es)
    modifies fs, fs.freemap.v
    ensures fs.Valid() && fs.V() == old(fs.V())
    ensures err == OK || err == ENOENT
    ensures err == OK ==> slot < |es| && ino != NOINO && es[slot] == Ent(ino, name)
    ensures err == ENOENT ==> !Used(es, name)
    ensures -1 <= emptyslot < |es|
    ensures emptyslot >= 0 ==> es[emptyslot].ino == NOINO
    ensures forall s :: emptyslot < s < |es| ==> es[s].ino != NOINO
  {
    hide Vol.Inv, MetaOk, TableOk, Bitmap.Valid, Bitmap.Bits, Ents;
    ghost var v0 := fs.V();
    DirFacts(v0);
    RootLoaded(v0);
    var nentries := fs.svs[ROOT_LOCATION].inode.size / DIRSIZE;
    var found := false;
    ino, slot, emptyslot := 0, 0, -1;
    var i := 0;
    while i < nentries
      invariant 0 <= i <= nentries
      invariant fs.Valid() && fs.V() == v0
      invariant found ==> slot < i && ino != NOINO && es[slot] == Ent(ino, name)
      invariant !found ==> forall s :: 0 <= s < i && es[s].ino != NOINO ==> es[s].name != name
      invariant -1 <= emptyslot < i && (emptyslot >= 0 ==> es[emptyslot].ino == NOINO)
      invariant forall s :: emptyslot < s < i ==> es[s].ino != NOINO
    {
      var tsd := ReadDir(fs, i);
      if tsd.ino == NOINO {
        emptyslot := i;
      } else if tsd.name == name {
        // each name may legally appear only once
        assert !found;
        found, slot, ino := true, i, tsd.ino;
      }
      i := i + 1;
    }
    err := if found then OK else ENOENT;
  }

  lemma RootLoaded(v: Vol)
    requires v.Inv() && HasDir(v)
    ensures v.tab[ROOT_LOCATION].inode.size == v.files[ROOT_LOCATION].size
  {
    LoadedFacts(v, ROOT_LOCATION);
  }

  // The slot sfs_dir_link fills: the last empty one, or a new one at the end
  ghost function LinkSlot(es: seq<Ent>): nat {
    LastEmpty(es, |es|)
  }

  ghost function LastEmpty(es: seq<Ent>, n: nat): nat
    requires n <= |es|
  {
    if n == 0 then |es| else if es[n - 1].ino == NOINO then n - 1 else LastEmpty(es, n - 1)
  }

  lemma {:induction false} LastEmptyIs(es: seq<Ent>, n: nat, e: int)
    requires -1 <= e < n <= |es| || (e == -1 && n == 0)
    requires e >= 0 ==> es[e].ino == NOINO
    requires forall s :: e < s < n ==> es[s].ino != NOINO
    ensures LastEmpty(es, n) == if e < 0 then |es| else e
  {
    if n > 0 && e < n - 1 {
      LastEmptyIs(es, n - 1, e);
    }
  }

  // What adding a name answers, from the directory's block map, the number of
  // free blocks and the entries
  ghost function LinkResult(f: File, free: nat, es: seq<Ent>, name: seq<Byte>): Err
    requires |f.bmap| == MAXBLOCKS
  {
    if Used(es, name) then EEXIST
    else if |name| + 1 > NAMELEN then ENAMETOOLONG
    else Outcome(f, free, SlotBlock(LinkSlot(es)), SlotBlock(LinkSlot(es)) + 1)
  }

  // ... and what it leaves of the free space
  ghost predicate LinkAnswer(v: Vol, v': Vol, es: seq<Ent>, name: seq<Byte>, err: Err) {
    && HasMap(v) && ROOT_LOCATION in v'.files
    && err == LinkResult(v.files[ROOT_LOCATION], Free(v.bits), es, name)
    && if err == EEXIST || err == ENAMETOOLONG then SameSpace(v, v')
       else Written(v, v', ROOT_LOCATION, SlotBlock(LinkSlot(es)), SlotBlock(LinkSlot(es)) + 1, err)
  }

  ghost predicate HasMap(v: Vol) {
    ROOT_LOCATION in v.files && |v.files[ROOT_LOCATION].bmap| == MAXBLOCKS
  }

  // The freemap and the directory's block map are the same.
  ghost predicate SameSpace(v: Vol, v': Vol) {
    && ROOT_LOCATION in v.files && ROOT_LOCATION in v'.files && v'.bits == v.bits
    && v'.files[ROOT_LOCATION].bmap == v.files[ROOT_LOCATION].bmap &&
       v'.files[ROOT_LOCATION].ind == v.files[ROOT_LOCATION].ind
  }

  // With free blocks enough the only way to fail, for a new and short name,
  // is a directory of the largest size with no empty slot.
  lemma LinkFits(f: File, free: nat, es: seq<Ent>, name: seq<Byte>)
    requires |f.bmap| == MAXBLOCKS && |es| <= MAXENTS
    ensures LinkResult(f, free, es, name) == EINVAL <==>
              && !Used(es, name) && |name| + 1 <= NAMELEN
              && |es| == MAXENTS && forall s :: 0 <= s < |es| ==> es[s].ino != NOINO
    ensures LinkResult(f, free, es, name) == ENOSPC ==> !Used(es, name) && |name| + 1 <= NAMELEN && free < 2
  {
    hide Used, Holes, LastEmpty, EndBlock;
    LastEmptyFull(es, |es|);
    var k := SlotBlock(LinkSlot(es));
    SlotEnds(LinkSlot(es));
    if k < MAXBLOCKS {
      NeedOne(f, k);
    } else {
      PastOutcome(f, free, k);
    }
  }

  lemma {:induction false} LastEmptyFull(es: seq<Ent>, n: nat)
    requires n <= |es|
    ensures LastEmpty(es, n) <= |es|
    ensures LastEmpty(es, n) == |es| <==> forall s :: 0 <= s < n ==> es[s].ino != NOINO
  {
    if n > 0 && es[n - 1].ino != NOINO {
      LastEmptyFull(es, n - 1);
    }
  }

  lemma LinkedAnswer(v: Vol, v': Vol, es: seq<Ent>, name: seq<Byte>, err: Err)
    requires HasMap(v) && ROOT_LOCATION in v'.files && !Used(es, name) && |name| + 1 <= NAMELEN
    requires Written(v, v', ROOT_LOCATION, SlotBlock(LinkSlot(es)), SlotBlock(LinkSlot(es)) + 1, err)
    ensures LinkAnswer(v, v', es, name, err)
  {
    hide Spent, Free, Used;
  }

  // sfs_dir_link: add an entry in a free slot, if the name is new and fits
  method DirLink(fs: Sfs, name: seq<Byte>, ino: Word) returns (err: Err, slot: nat)
    requires fs.Valid() && HasDir(fs.V()) && NamesUnique(Dir(fs.V())) && IsName(name)
    modifies fs, fs.freemap.v
    ensures fs.Valid()
    ensures slot <= old(|Dir(fs.V())|)
    ensures DirBecomes(old(fs.V()), fs.V(),
            if err == OK then PutEnt(old(Dir(fs.V())), slot, Ent(ino, name)) else old(Dir(fs.V())))
    ensures err == OK ==> slot < old(|Dir(fs.V())|) ==> old(Dir(fs.V()))[slot].ino == NOINO
    ensures LinkAnswer(old(fs.V()), fs.V(), old(Dir(fs.V())), name, err)
  {
    hide Vol.Inv, MetaOk, TableOk, Bitmap.Valid, Bitmap.Bits, Ents, EntOf, EntBytes, Evolves, Outcome, Written, Free;
    ghost var v0 := fs.V();
    DirSelf(v0);
    var found, i0, s0, emptyslot := FindName(fs, name, Dir(v0));
    slot := 0;
    if found == OK {
      return EEXIST, slot;
    }
    if |name| + 1 > NAMELEN {
      return ENAMETOOLONG, slot;
    }
    RootLoaded(v0);
    slot := if emptyslot < 0 then fs.svs[ROOT_LOCATION].inode.size / DIRSIZE else emptyslot;
    LastEmptyIs(Dir(v0), |Dir(v0)|, emptyslot);
    EntRoundTrip(Ent(ino, name));
    err := WriteDir(fs, EntBytes(Ent(ino, name)), slot);
    LinkedAnswer(v0, fs.V(), Dir(v0), name, err);
  }

  lemma DirSelf(v: Vol)
    requires v.Inv() && HasDir(v)
    ensures DirBecomes(v, v, Dir(v))
  {
    EvolvesSelf(v, ROOT_LOCATION);
  }

  // sfs_dir_unlink: clear a slot in use; this cannot fail
  method DirUnlink(fs: Sfs, slot: nat) returns (err: Err)
    requires fs.Valid() && HasDir(fs.V()) && slot < Slots(fs.V()) && Dir(fs.V())[slot].ino != NOINO
    modifies fs, fs.freemap.v
    ensures fs.Valid() && err == OK
    ensures DirBecomes(old(fs.V()), fs.V(), old(Dir(fs.V()))[slot := Ent(NOINO, [])])
  {
    hide Vol.Inv, MetaOk, TableOk, Bitmap.Valid, Bitmap.Bits, Ents, EntOf, Evolves;
    EmptyEnt();
    err := WriteDir(fs, Zeros(DIRSIZE), slot);
  }

  lemma EmptyEnt()
    ensures EntOf(Zeros(DIRSIZE)) == Ent(NOINO, [])
  {
    assert Zeros(DIRSIZE)[4..DIRSIZE - 1] == [] + Zeros(NAMELEN - 1);
    CStrOfPadded([], Zeros(NAMELEN - 1));
  }
}
