/**
 The mounted filesystem object (struct sfs_fs) and its lowest layers in
 kern/fs/sfs/sfs_vnode.c: block allocation and the block map.

 The panics of the source appear as assertions, so a verified method is one
 whose panics cannot fire.
 */
module SfsFs {
  import opened Bytes
  import opened Errno
  import opened SfsVolume
  import opened SfsSteps
  import opened SfsSpace
  import opened BitmapLib

  predicate SuperOk(b: Block, nblocks: nat) {
    Unpack(b)[0] == SFS_MAGIC && Unpack(b)[1] == nblocks
  }

  // The freemap bytes as they lie in the map blocks.
  predicate MapSaved(disk: seq<Block>, bytes: seq<bv8>) {
    forall j :: 0 <= j < |bytes| ==>
      MAP_LOCATION + j / BLOCKSIZE < |disk| && Cooked(disk[MAP_LOCATION + j / BLOCKSIZE][j % BLOCKSIZE]) == bytes[j]
  }

  // The vnode table lists exactly the loaded vnodes, each once.
  predicate TableOk(vnodes: seq<nat>, loaded: set<nat>) {
    && (forall j :: 0 <= j < |vnodes| ==> vnodes[j] in loaded)
    && (forall i :: i in loaded ==> i in vnodes)
    && (forall j, k :: 0 <= j < k < |vnodes| ==> vnodes[j] != vnodes[k])
  }

  predicate MetaOk(nblocks: nat, disk: seq<Block>, dirty: bool, bytes: seq<bv8>) {
    0 < |disk| && SuperOk(disk[0], nblocks) && (!dirty ==> MapSaved(disk, bytes))
  }

  // Writing outside the superblock and the freemap leaves them alone.
  lemma MetaFrame(nblocks: nat, disk: seq<Block>, dirty: bool, bytes: seq<bv8>, b: nat, x: Block)
    requires MetaOk(nblocks, disk, dirty, bytes) && |bytes| == BLOCKSIZE * BitBlocks(nblocks)
    requires 0 < b < |disk| && !(MAP_LOCATION <= b < MAP_LOCATION + BitBlocks(nblocks))
    ensures MetaOk(nblocks, disk[b := x], dirty, bytes)
  {}

  // A clear bit is a block of the device that nobody owns.
  lemma FreeBit(v: Vol, b: nat)
    requires v.Inv() && b < |v.bits| && !v.bits[b]
    ensures 0 < b < v.nblocks <= |v.disk| && b !in v.owner
    ensures !(MAP_LOCATION <= b < MAP_LOCATION + BitBlocks(v.nblocks))
  {}

  lemma BlockMarked(v: Vol, b: nat)
    requires v.Inv() && b < v.nblocks
    ensures b < |v.bits| && (v.bits[b] <==> b in v.owner)
  {}

  lemma LoadedFacts(v: Vol, ino: nat)
    requires v.Inv() && ino in v.tab
    ensures ino in v.files && v.tab[ino].ino == ino && v.tab[ino].refs > 0
    ensures Records(v.files[ino], v.tab[ino].inode)
    ensures v.files[ino].ind < |v.disk| && v.nblocks <= |v.disk| && v.nblocks < 0x40_0000
  {}

  // A mapped block is on the device and marked.
  lemma MappedFacts(v: Vol, ino: nat, k: nat)
    requires v.Inv() && ino in v.files && k < MAXBLOCKS
    requires |v.files[ino].bmap| == MAXBLOCKS && v.files[ino].bmap[k] != 0
    ensures 0 < v.files[ino].bmap[k] < v.nblocks <= |v.disk|
    ensures v.files[ino].bmap[k] in v.owner
  {}

  // What the indirect block of a loaded file holds, and where it lies.
  lemma IndirectFacts(v: Vol, ino: nat)
    requires v.Inv() && ino in v.files && v.files[ino].ind != 0
    ensures 0 < v.files[ino].ind < v.nblocks <= |v.disk|
    ensures !(MAP_LOCATION <= v.files[ino].ind < MAP_LOCATION + BitBlocks(v.nblocks))
    ensures |v.files[ino].bmap| == MAXBLOCKS
    ensures Unpack(v.disk[v.files[ino].ind]) == v.files[ino].bmap[NDIRECT..]
    ensures v.owner[v.files[ino].ind] == RefIndirect(ino)
  {}

  lemma NoIndirect(v: Vol, ino: nat, j: nat)
    requires v.Inv() && ino in v.files && j < DBPERIDB
    ensures |v.files[ino].bmap| == MAXBLOCKS
    ensures v.files[ino].ind == 0 ==> v.files[ino].bmap[NDIRECT + j] == 0
  {
    hide SfsVolume.Struct, Mirrors, Inodes, Unpack;
    assert IndirectSlots(v.files[ino], BlockAt(v.disk, v.files[ino].ind));
    HolesAbove(v.files[ino], j);
  }

  // Without an indirect block there is nothing above the direct slots.
  lemma HolesAbove(f: File, j: nat)
    requires j < DBPERIDB && |f.bmap| == MAXBLOCKS
    requires f.ind == 0 ==> IndirectSlots(f, ZeroBlock)
    ensures f.ind == 0 ==> f.bmap[NDIRECT + j] == 0
  {
    UnpackZero();
    assert f.bmap[NDIRECT + j] == f.bmap[NDIRECT..][j];
  }

  // v' is v with block b hung in as the indirect block of file ino.
  ghost predicate HungIn(v: Vol, v': Vol, ino: nat, b: nat) {
    && ino in v.tab && ino in v.files && v.files[ino].ind == 0
    && 0 < b < |v.disk| && b < |v.bits| && !v.bits[b] && b < 0x1_0000_0000 && v' == AllocIndirect(v, ino, b)
  }

  lemma HungInThrough(v: Vol, v1: Vol, v2: Vol, ino: nat, k: nat, b: nat, err: Err)
    requires HungIn(v, v1, ino, b) && |v.files[ino].bmap| == MAXBLOCKS && NDIRECT <= k < MAXBLOCKS
    requires v.files[ino].bmap[k] == 0 && Mapped(v1, v2, ino, k, err) && (err != OK ==> v2 == v1)
    ensures Mapped(v, v2, ino, k, err)
  {
    hide Mapped;
    MappedThrough(v, v1, v2, ino, k, b, err);
  }

  lemma GrowsFacts(v: Vol, v': Vol, ino: nat)
    requires Grows(v, v', ino)
    ensures ino in v'.files && ino in v'.tab && |v'.files[ino].bmap| == MAXBLOCKS && |v'.disk| == |v.disk|
  {}

  lemma GrowsSelf(v: Vol, ino: nat)
    requires v.Inv() && ino in v.tab
    ensures Grows(v, v, ino)
  {}

  class Sfs {
    const nblocks: nat             // sfs_super.sp_nblocks
    const freemap: Bitmap          // sfs_freemap
    var disk: seq<Block>           // the device
    var freemapdirty: bool         // sfs_freemapdirty
    var svs: map<nat, Vnode>       // the struct sfs_vnode in memory, by inode number
    var vnodes: seq<nat>           // sfs_vnodes, the table of loaded vnodes
    ghost var saved: map<nat, Inode>
    ghost var owner: Owners
    ghost var files: Files

    // The object sfs_domount builds: no vnode loaded, nothing dirty.
    constructor (n: nat, dev: seq<Block>, bits: Bitmap, ghost inodes: map<nat, Inode>, ghost own: Owners,
                 ghost fs: Files)
      ensures nblocks == n && disk == dev && freemap == bits && !freemapdirty && svs == map[] && vnodes == []
      ensures saved == inodes && owner == own && files == fs
    {
      nblocks, freemap, disk, freemapdirty, svs, vnodes := n, bits, dev, false, map[], [];
      saved, owner, files := inodes, own, fs;
    }

    ghost function V(): Vol
      reads this, freemap.v
      requires freemap.Valid()
    {
      Vol(nblocks, disk, freemap.Bits(), svs, saved, owner, files)
    }

    ghost predicate Valid()
      reads this, freemap.v
    {
      && freemap.Valid() && freemap.nbits == BLOCKBITS * BitBlocks(nblocks)
      && V().Inv()
      && TableOk(vnodes, svs.Keys)
      && MetaOk(nblocks, disk, freemapdirty, freemap.v[..])
    }

    lemma ValidSizes()
      requires Valid()
      ensures freemap.Valid() && |freemap.v[..]| == BLOCKSIZE * BitBlocks(nblocks)
      ensures MetaOk(nblocks, disk, freemapdirty, freemap.v[..])
    {}

    // sfs_balloc: an unowned block of the device, cleared, or ENOSPC exactly
    // when every bit is marked. The caller must put the block to use.
    method Balloc() returns (err: Err, b: nat)
      requires Valid()
      modifies this`disk, this`freemapdirty, freemap.v
      ensures freemap.Valid()
      ensures err == OK || err == ENOSPC
      ensures err == ENOSPC <==> forall i :: 0 <= i < freemap.nbits ==> old(freemap.Bits())[i]
      ensures err == ENOSPC ==> Valid() && V() == old(V())
      ensures err == OK ==> 0 < b < nblocks && b < freemap.nbits && b !in owner
      ensures err == OK ==> disk == old(disk)[b := ZeroBlock] && freemap.Bits() == old(freemap.Bits())[b := true]
      ensures err == OK ==> MetaOk(nblocks, disk, freemapdirty, freemap.v[..])
    {
      hide Vol.Inv, MetaOk, TableOk;
      ValidSizes();
      ghost var v0, bytes := V(), freemap.v[..];
      err, b := freemap.Alloc();
      if err != OK {
        assert freemap.v[..] == bytes;
        return;
      }
      FreeBit(v0, b);
      freemapdirty := true;
      // panic: balloc: invalid block
      assert b < nblocks;
      assert b !in owner;
      MetaFrame(nblocks, disk, true, freemap.v[..], b, ZeroBlock);
      disk := disk[b := ZeroBlock];
    }

    // sfs_bfree: the block must be marked.
    method Bfree(b: nat)
      requires freemap.Valid() && b < freemap.nbits && freemap.Bits()[b]
      modifies this`freemapdirty, freemap.v
      ensures freemap.Valid() && freemapdirty
      ensures freemap.Bits() == old(freemap.Bits())[b := false]
    {
      freemap.Unmark(b);
      freemapdirty := true;
    }

    // sfs_bused: the caller must stay on the device.
    method Bused(b: nat) returns (used: bool)
      requires Valid() && b < nblocks
      ensures used <==> b in owner
    {
      BlockMarked(V(), b);
      used := freemap.IsSet(b);
    }

    // sfs_bmap on one of the direct blocks
    method BmapDirect(ino: nat, fileblock: nat, doalloc: bool) returns (err: Err, block: nat)
      requires Valid() && ino in svs && fileblock < NDIRECT
      modifies this, freemap.v
      ensures Valid() && Grows(old(V()), V(), ino)
      ensures !doalloc ==> V() == old(V())
      ensures err == OK || (err == ENOSPC && doalloc && old(files[ino].bmap[fileblock]) == 0)
      ensures err == OK ==> block == files[ino].bmap[fileblock] && (doalloc ==> block != 0)
      ensures doalloc ==> Mapped(old(V()), V(), ino, fileblock, err)
    {
      hide Vol.Inv, MetaOk, TableOk, Grows, Bitmap.Valid, Bitmap.Bits, Mapped;
      LoadedFacts(V(), ino);
      GrowsSelf(V(), ino);
      err := OK;
      block := svs[ino].inode.direct[fileblock];
      if block == 0 && doalloc {
        ghost var v0 := V();
        err, block := Balloc();
        if err != OK {
          MappedNot(v0, ino, fileblock);
          return;
        }
        BlockMarked(v0, block);
        AllocDirectStep(v0, ino, fileblock, block);
        MappedDirect(v0, ino, fileblock, block);
        svs := svs[ino := svs[ino].(inode := svs[ino].inode.(direct := svs[ino].inode.direct[fileblock := block]),
          dirty := true)];
        owner := owner[block := RefData(ino, fileblock)];
        files := files[ino := files[ino].(bmap := files[ino].bmap[fileblock := block])];
        assert V() == AllocDirect(v0, ino, fileblock, block);
        assert svs.Keys == v0.tab.Keys;
      } else if block != 0 {
        MappedAlready(V(), ino, fileblock);
      }
      if block != 0 {
        MappedFacts(V(), ino, fileblock);
        var used := Bused(block);
        // panic: Data block marked free
        assert used;
      }
    }

    // sfs_bmap: fetch the indirect block, allocating it first if there is none
    method LoadIndirect(ino: nat) returns (err: Err, idblock: nat, idbuf: seq<Word>)
      requires Valid() && ino in svs
      modifies this, freemap.v
      ensures Valid() && Grows(old(V()), V(), ino)
      ensures old(files[ino].ind) != 0 ==> err == OK && V() == old(V())
      ensures err == OK || err == ENOSPC
      ensures err == OK ==> 0 < idblock < nblocks && files[ino].ind == idblock
      ensures err == OK ==> idbuf == Unpack(disk[idblock]) && idbuf == files[ino].bmap[NDIRECT..]
      ensures files[ino].bmap == old(files[ino].bmap)
      ensures err == ENOSPC <==> old(files[ino].ind) == 0 && forall i :: 0 <= i < freemap.nbits ==>
                old(freemap.Bits())[i]
      ensures err == ENOSPC ==> V() == old(V())
      ensures err == OK && old(files[ino].ind) == 0 ==> HungIn(old(V()), V(), ino, idblock)
    {
      hide Vol.Inv, MetaOk, TableOk, Grows, Bitmap.Valid, Bitmap.Bits, Unpack;
      LoadedFacts(V(), ino);
      GrowsSelf(V(), ino);
      err, idbuf := OK, [];
      idblock := svs[ino].inode.indirect;
      if idblock == 0 {
        ghost var v0 := V();
        err, idblock := Balloc();
        if err != OK {
          return;
        }
        BlockMarked(v0, idblock);
        AllocIndirectStep(v0, ino, idblock);
        svs := svs[ino := svs[ino].(inode := svs[ino].inode.(indirect := idblock), dirty := true)];
        owner := owner[idblock := RefIndirect(ino)];
        files := files[ino := files[ino].(ind := idblock)];
        assert V() == AllocIndirect(v0, ino, idblock);
        assert svs.Keys == v0.tab.Keys;
        UnpackZero();
        idbuf := ZeroWords(DBPERIDB);
      } else {
        idbuf := Unpack(disk[idblock]);
      }
      IndirectFacts(V(), ino);
    }

    // sfs_bmap on a block reached through the indirect block
    method BmapIndirect(ino: nat, idoff: nat, doalloc: bool) returns (err: Err, block: nat)
      requires Valid() && ino in svs && idoff < DBPERIDB
      modifies this, freemap.v
      ensures Valid() && Grows(old(V()), V(), ino)
      ensures !doalloc ==> V() == old(V())
      ensures err == OK || (err == ENOSPC && doalloc && old(files[ino].bmap[NDIRECT + idoff]) == 0)
      ensures err == OK ==> block == files[ino].bmap[NDIRECT + idoff] && (doalloc ==> block != 0)
      ensures doalloc ==> Mapped(old(V()), V(), ino, NDIRECT + idoff, err)
    {
      hide Vol.Inv, MetaOk, TableOk, Grows, Bitmap.Valid, Bitmap.Bits, Pack, Unpack, Mapped, HungIn;
      LoadedFacts(V(), ino);
      GrowsSelf(V(), ino);
      err, block := OK, 0;
      if svs[ino].inode.indirect == 0 && !doalloc {
        NoIndirect(V(), ino, idoff);
        return;
      }
      var idblock, idbuf;
      err, idblock, idbuf := LoadIndirect(ino);
      if err != OK {
        NoIndirect(old(V()), ino, idoff);
        MappedNot(V(), ino, NDIRECT + idoff);
        return;
      }
      ghost var v1 := V();
      GrowsFacts(old(V()), v1, ino);
      block := idbuf[idoff];
      if block == 0 && doalloc {
        err, block := AllocIntoSlot(ino, idblock, idbuf, idoff);
        GrowsTwice(old(V()), v1, V(), ino);
        GrowsFacts(v1, V(), ino);
        if old(files[ino].ind) == 0 {
          HungInThrough(old(V()), v1, V(), ino, NDIRECT + idoff, idblock, err);
        }
        if err != OK {
          return;
        }
      } else if doalloc {
        NoIndirect(old(V()), ino, idoff);
        MappedAlready(V(), ino, NDIRECT + idoff);
      }
      if block != 0 {
        MappedFacts(V(), ino, NDIRECT + idoff);
        var used := Bused(block);
        // panic: Data block marked free
        assert used;
      }
    }

    // sfs_bmap: allocate a block and record it in the indirect block
    method AllocIntoSlot(ino: nat, idblock: nat, idbuf: seq<Word>, idoff: nat) returns (err: Err, block: nat)
      requires Valid() && ino in svs && idoff < DBPERIDB
      requires 0 < idblock < nblocks && files[ino].ind == idblock && |files[ino].bmap| == MAXBLOCKS
      requires nblocks <= |disk| && idbuf == Unpack(disk[idblock])
      requires files[ino].bmap[NDIRECT + idoff] == 0
      modifies this, freemap.v
      ensures Valid() && Grows(old(V()), V(), ino)
      ensures err == OK || err == ENOSPC
      ensures err == OK ==> block == files[ino].bmap[NDIRECT + idoff] != 0
      ensures Mapped(old(V()), V(), ino, NDIRECT + idoff, err) && (err != OK ==> V() == old(V()))
    {
      hide Vol.Inv, MetaOk, TableOk, Grows, Bitmap.Valid, Bitmap.Bits, Pack, Unpack, Mapped;
      LoadedFacts(V(), ino);
      GrowsSelf(V(), ino);
      ValidSizes();
      ghost var v0 := V();
      IndirectFacts(v0, ino);
      err, block := Balloc();
      if err != OK {
        MappedNot(v0, ino, NDIRECT + idoff);
        return;
      }
      BlockMarked(v0, block);
      AllocSlotStep(v0, ino, idoff, block);
      MappedSlot(v0, ino, idoff, block);
      MetaFrame(nblocks, disk, freemapdirty, freemap.v[..], idblock, Pack(idbuf[idoff := block]));
      disk := disk[idblock := Pack(idbuf[idoff := block])];
      owner := owner[block := RefData(ino, NDIRECT + idoff)];
      files := files[ino := files[ino].(bmap := files[ino].bmap[NDIRECT + idoff := block])];
      assert V() == AllocSlot(v0, ino, idoff, block);
    }

    // sfs_bmap
    method Bmap(ino: nat, fileblock: nat, doalloc: bool) returns (err: Err, block: nat)
      requires Valid() && ino in svs
      modifies this, freemap.v
      ensures Valid() && Grows(old(V()), V(), ino)
      ensures !doalloc ==> V() == old(V())
      ensures err == EINVAL <==> fileblock >= MAXBLOCKS
      ensures err == EINVAL ==> V() == old(V())
      ensures err == OK || err == EINVAL || (err == ENOSPC && doalloc && old(files[ino].bmap[fileblock]) == 0)
      ensures err == OK ==> block == files[ino].bmap[fileblock] && (doalloc ==> block != 0)
      ensures doalloc && fileblock < MAXBLOCKS ==> Mapped(old(V()), V(), ino, fileblock, err)
    {
      hide Vol.Inv, MetaOk, TableOk, Grows, Bitmap.Valid, Bitmap.Bits, Mapped;
      LoadedFacts(V(), ino);
      GrowsSelf(V(), ino);
      if fileblock < NDIRECT {
        err, block := BmapDirect(ino, fileblock, doalloc);
        return;
      }
      var idnum, idoff := (fileblock - NDIRECT) / DBPERIDB, (fileblock - NDIRECT) % DBPERIDB;
      if idnum > 0 {
        return EINVAL, 0;
      }
      err, block := BmapIndirect(ino, idoff, doalloc);
    }
  }
}
