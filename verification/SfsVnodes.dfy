/**
 Loaded vnodes: sfs_loadvnode, sfs_makeobj, sfs_sync_inode and sfs_reclaim in
 kern/fs/sfs/sfs_vnode.c, and the reference counts of kern/fs/vfs/vnode.c.
 */
module SfsVnodes {
  import opened Bytes
  import opened SfsVolume
  import opened SfsSteps
  import opened SfsFs
  import opened SfsTruncate
  import opened BitmapLib

  // ---------- the vnode table ----------

  lemma TableAdd(vnodes: seq<nat>, loaded: set<nat>, ino: nat)
    requires TableOk(vnodes, loaded) && ino !in loaded
    ensures TableOk(vnodes + [ino], loaded + {ino})
  {}

  lemma TableRemove(vnodes: seq<nat>, loaded: set<nat>, ix: nat)
    requires TableOk(vnodes, loaded) && ix < |vnodes|
    ensures TableOk(vnodes[..ix] + vnodes[ix + 1..], loaded - {vnodes[ix]})
  {
    var vnodes' := vnodes[..ix] + vnodes[ix + 1..];
    forall i | i in loaded - {vnodes[ix]}
      ensures i in vnodes'
    {
      var j :| 0 <= j < |vnodes| && vnodes[j] == i;
      assert i == vnodes'[if j < ix then j else j - 1];
    }
  }

  // ---------- reference counts ----------

  ghost function SetRefs(v: Vol, ino: nat, r: nat): Vol
    requires ino in v.tab
  {
    v.(tab := v.tab[ino := v.tab[ino].(refs := r)])
  }

  lemma SetRefsKeeps(v: Vol, ino: nat, r: nat)
    requires v.Inv() && ino in v.tab && r > 0
    ensures SetRefs(v, ino, r).Inv()
  {
    hide SfsVolume.Struct, Inodes, Indirects, Records;
    LoadedRecords(v.tab, v.saved, v.files, ino);
    ChangeVnode(v.tab, v.saved, v.files, v.tab[ino].(refs := r), v.files[ino]);
    assert v.files[ino := v.files[ino]] == v.files;
  }

  // vnode_incref and the first half of vnode_decref
  method ChangeRefs(fs: Sfs, ino: nat, r: nat)
    requires fs.Valid() && ino in fs.svs && r > 0
    modifies fs`svs
    ensures fs.Valid() && fs.V() == SetRefs(old(fs.V()), ino, r)
  {
    hide Vol.Inv, MetaOk, TableOk, Bitmap.Valid, Bitmap.Bits;
    SetRefsKeeps(fs.V(), ino, r);
    fs.svs := fs.svs[ino := fs.svs[ino].(refs := r)];
    assert fs.svs.Keys == old(fs.svs).Keys;
  }

  // ---------- loading ----------

  lemma InodeFacts(v: Vol, ino: nat)
    requires v.Inv() && ino in v.files
    ensures 0 < ino < v.nblocks <= |v.disk| && ino in v.owner && v.owner[ino] == RefInode(ino)
    ensures ino < |v.bits| && v.bits[ino]
    ensures ino in v.saved && InodeOf(v.disk[ino]) == v.saved[ino]
    ensures !(MAP_LOCATION <= ino < MAP_LOCATION + BitBlocks(v.nblocks))
  {}

  // The search loop of sfs_loadvnode and of sfs_reclaim
  method FindVnode(fs: Sfs, ino: nat) returns (ix: int)
    requires fs.Valid()
    ensures -1 <= ix < |fs.vnodes|
    ensures ix >= 0 ==> fs.vnodes[ix] == ino && ino in fs.svs
    ensures ix == -1 ==> ino !in fs.svs
  {
    hide Vol.Inv, MetaOk, Bitmap.Valid, Bitmap.Bits;
    var i := 0;
    while i < |fs.vnodes|
      invariant 0 <= i <= |fs.vnodes|
      invariant forall j :: 0 <= j < i ==> fs.vnodes[j] != ino
    {
      LoadedFacts(fs.V(), fs.vnodes[i]);
      InodeFacts(fs.V(), fs.vnodes[i]);
      var used := fs.Bused(fs.vnodes[i]);
      // panic: Found inode in unallocated block
      assert used;
      if fs.svs[fs.vnodes[i]].ino == ino {
        return i;
      }
      i := i + 1;
    }
    return -1;
  }

  // Vnode ino with its type forced, as for a new object.
  ghost function Typed(v: Vol, ino: nat, t: Half): Vol
    requires ino in v.tab && ino in v.files
  {
    v.(tab := v.tab[ino := v.tab[ino].(inode := v.tab[ino].inode.(typ := t), dirty := true)],
       files := v.files[ino := v.files[ino].(typ := t)])
  }

  lemma TypedKeeps(v: Vol, ino: nat, t: Half)
    requires v.Inv() && ino in v.tab && ino in v.files
    ensures Typed(v, ino, t).Inv()
    ensures SameContent(v, Typed(v, ino, t))
  {
    hide Vol.Inv, ContentOf;
    LoadedFacts(v, ino);
    var vn := v.tab[ino].(inode := v.tab[ino].inode.(typ := t), dirty := true);
    SetVnodeKeeps(v, vn);
    assert SetVnode(v, vn) == Typed(v, ino, t);
  }

  // What sfs_loadvnode does to the volume: another reference to a loaded
  // vnode, or a clean copy of the inode on disk, given a type if it is new.
  ghost function LoadedVol(v: Vol, ino: nat, forcetype: Half): Vol
    requires ino in v.files && ino in v.saved
  {
    if ino in v.tab then SetRefs(v, ino, v.tab[ino].refs + 1)
    else if forcetype != TYPE_INVAL then Typed(Load(v, ino), ino, forcetype)
    else Load(v, ino)
  }

  // sfs_loadvnode. The inode must be allocated; a type is forced only on a
  // new inode, and the type in force must be a file or a directory.
  method LoadVnode(fs: Sfs, ino: nat, forcetype: Half)
    requires fs.Valid() && ino in fs.files && ino in fs.saved
    requires forcetype != TYPE_INVAL ==> ino !in fs.svs && fs.saved[ino].typ == TYPE_INVAL
    requires (if forcetype != TYPE_INVAL then forcetype else fs.files[ino].typ) in {TYPE_FILE, TYPE_DIR}
    modifies fs
    ensures fs.Valid() && fs.V() == LoadedVol(old(fs.V()), ino, forcetype)
  {
    hide Vol.Inv, MetaOk, TableOk, Bitmap.Valid, Bitmap.Bits, InodeOf, Records, SameContent;
    ghost var v0 := fs.V();
    InodeFacts(v0, ino);
    var ix := FindVnode(fs, ino);
    if ix >= 0 {
      assert forcetype == TYPE_INVAL;
      ChangeRefs(fs, ino, fs.svs[ino].refs + 1);
      return;
    }
    var used := fs.Bused(ino);
    // panic: Tried to load inode from unallocated block
    assert used;
    LoadKeeps(v0, ino);
    LoadedFacts(Load(v0, ino), ino);
    var sv := Vnode(ino, InodeOf(fs.disk[ino]), false, 1);
    if forcetype != TYPE_INVAL {
      assert sv.inode.typ == TYPE_INVAL;
      TypedKeeps(Load(v0, ino), ino, forcetype);
      sv := sv.(inode := sv.inode.(typ := forcetype), dirty := true);
      fs.files := fs.files[ino := fs.files[ino].(typ := forcetype)];
    }
    // panic: loadvnode: Invalid inode type
    RecordsType(v0.files[ino], Load(v0, ino).tab[ino].inode);
    assert sv.inode.typ == TYPE_FILE || sv.inode.typ == TYPE_DIR;
    TableAdd(fs.vnodes, fs.svs.Keys, ino);
    fs.svs := fs.svs[ino := sv];
    fs.vnodes := fs.vnodes + [ino];
    assert fs.svs.Keys == v0.tab.Keys + {ino};
    assert fs.V() == LoadedVol(v0, ino, forcetype);
  }

  lemma RecordsType(f: File, c: Inode)
    requires Records(f, c)
    ensures f.typ == c.typ
  {}

  ghost function Synced(v: Vol, ino: nat): Vol
    requires ino in v.tab && ino < |v.disk| && v.tab[ino].inode.Shape()
  {
    if v.tab[ino].dirty then SyncInode(v, ino) else v
  }

  // sfs_sync_inode
  method SyncVnode(fs: Sfs, ino: nat)
    requires fs.Valid() && ino in fs.svs && fs.svs[ino].inode.Shape() && ino < |fs.disk|
    modifies fs
    ensures fs.Valid() && fs.V() == Synced(old(fs.V()), ino)
    ensures fs.vnodes == old(fs.vnodes) && fs.freemapdirty == old(fs.freemapdirty)
  {
    hide Vol.Inv, MetaOk, TableOk, Bitmap.Valid, Bitmap.Bits, BlockOfInode, Records, SameContent;
    if fs.svs[ino].dirty {
      ghost var v0 := fs.V();
      LoadedFacts(v0, ino);
      InodeFacts(v0, ino);
      SyncInodeKeeps(v0, ino);
      fs.ValidSizes();
      var c := fs.svs[ino].inode;
      MetaFrame(fs.nblocks, fs.disk, fs.freemapdirty, fs.freemap.v[..], ino, BlockOfInode(c));
      fs.disk := fs.disk[ino := BlockOfInode(c)];
      fs.saved := fs.saved[ino := c];
      fs.svs := fs.svs[ino := fs.svs[ino].(dirty := false)];
      assert fs.svs.Keys == v0.tab.Keys;
      assert fs.V() == SyncInode(v0, ino);
    }
  }

  // ---------- reclaiming ----------

  ghost predicate BelongsTo(r: Ref, ino: nat) {
    (r.RefInode? || r.RefIndirect? || r.RefData?) && r.ino == ino
  }

  // What sfs_reclaim leaves: a linked file is only forgotten in memory; an
  // unlinked one is gone, and every block that belonged to it is free.
  ghost predicate Reclaimed(v: Vol, v': Vol, ino: nat) {
    && ino in v.files && ino in v.tab
    && v'.nblocks == v.nblocks && v'.tab == v.tab - {ino}
    && (v.files[ino].links > 0 ==> v'.files == v.files && v'.owner == v.owner && SameContent(v, v'))
    && (v.files[ino].links == 0 ==>
          && v'.files == v.files - {ino}
          && (forall i :: i in v'.files ==> v'.Content(i) == v.Content(i))
          && (forall b :: b in v'.owner <==> b in v.owner && !BelongsTo(v.owner[b], ino))
          && (forall b :: b in v'.owner ==> v'.owner[b] == v.owner[b]))
  }

  lemma SyncedFacts(v: Vol, ino: nat)
    requires v.Inv() && ino in v.tab && ino < |v.disk| && v.tab[ino].inode.Shape()
    ensures Synced(v, ino).Inv() && SameContent(v, Synced(v, ino))
    ensures Synced(v, ino).files == v.files && Synced(v, ino).owner == v.owner && Synced(v, ino).bits == v.bits
    ensures Synced(v, ino).tab == v.tab[ino := v.tab[ino].(dirty := false)] && Synced(v, ino).nblocks == v.nblocks
  {
    hide Vol.Inv, BlockOfInode, ContentOf;
    if v.tab[ino].dirty {
      SyncInodeKeeps(v, ino);
    } else {
      assert v.tab[ino := v.tab[ino].(dirty := false)] == v.tab;
    }
  }

  // Forgetting a linked file
  lemma ForgetKeeps(v: Vol, ino: nat)
    requires v.Inv() && ino in v.tab && ino in v.files && v.files[ino].links > 0
    requires ino < |v.disk| && v.tab[ino].inode.Shape()
    ensures Drop(Synced(v, ino), ino).Inv()
    ensures Reclaimed(v, Drop(Synced(v, ino), ino), ino)
  {
    hide Vol.Inv, BlockOfInode, ContentOf, Synced;
    SyncedFacts(v, ino);
    DropKeeps(Synced(v, ino), ino);
    assert v.tab[ino := v.tab[ino].(dirty := false)] - {ino} == v.tab - {ino};
  }

  // Truncation to zero takes exactly the file's data and indirect blocks.
  lemma ErasedOwners(owner: Owners, files: Files, ino: nat)
    requires Forward(owner, files) && Backward(owner, files) && ino in files && 0 in owner && owner[0].RefSuper?
    ensures forall b :: b in owner - AllGone(files[ino], 0) - {ino} <==> b in owner && !BelongsTo(owner[b], ino)
  {
    var f := files[ino];
    TruncateToZero(f);
    forall b | b in owner && (owner[b].RefData? || owner[b].RefIndirect?) && owner[b].ino == ino
      ensures b in AllGone(f, 0)
    {
      if owner[b].RefData? {
        assert f.bmap[owner[b].k] == b;
      }
    }
  }

  lemma SuperOwned(v: Vol)
    requires v.Inv()
    ensures 0 in v.owner && v.owner[0].RefSuper?
  {}

  lemma EraseKeeps(v: Vol, ino: nat)
    requires v.Inv() && ino in v.tab && ino in v.files && v.files[ino].links == 0 && ino != ROOT_LOCATION
    requires |v.files[ino].bmap| == MAXBLOCKS && v.files[ino].ind < |v.disk| && ino < |v.disk| && ino < |v.bits|
    requires v.tab[ino].inode.Shape() && |CutMap(v.files[ino].bmap, 0)| == MAXBLOCKS
    ensures var v1 := Truncated(v, ino, 0, 0);
            && v1.Inv() && ino in v1.tab && ino < |v1.disk| && v1.tab[ino].inode.Shape() && ino < |Synced(v1, ino).bits|
            && FreeInode(Synced(v1, ino), ino).Inv()
            && Reclaimed(v, FreeInode(Synced(v1, ino), ino), ino)
  {
    hide Vol.Inv, BlockOfInode, ContentOf, Synced, AllGone, IndirectGone, CutMap, BitsWithout, Pack, Forward,
      Backward, BelongsTo, Kept;
    var v1 := Truncated(v, ino, 0, 0);
    TruncatedKeeps(v, ino, 0, 0);
    TruncatedContent(v, ino, 0, 0);
    LoadedFacts(v1, ino);
    SyncedFacts(v1, ino);
    var v2 := Synced(v1, ino);
    TruncateToZero(v.files[ino]);
    FreeInodeKeeps(v2, ino);
    var v3 := FreeInode(v2, ino);
    InvForward(v);
    SuperOwned(v);
    ErasedOwners(v.owner, v.files, ino);
    assert v3.files == v.files - {ino};
    assert v3.tab == v.tab - {ino};
  }

  // The end of sfs_reclaim: discard the inode if it has no links, and take
  // the vnode out of the table
  method Discard(fs: Sfs, ino: nat)
    requires fs.Valid() && ino in fs.svs && ino in fs.files && ino < |fs.V().bits|
    requires fs.svs[ino].inode.links == 0 ==> FreeInode(fs.V(), ino).Inv()
    requires fs.svs[ino].inode.links != 0 ==> Drop(fs.V(), ino).Inv()
    modifies fs, fs.freemap.v
    ensures fs.Valid()
    ensures fs.V() == if old(fs.svs[ino].inode.links) == 0 then FreeInode(old(fs.V()), ino) else Drop(old(fs.V()), ino)
  {
    hide Vol.Inv, MetaOk, TableOk, Bitmap.Valid, Bitmap.Bits;
    InodeFacts(fs.V(), ino);
    var ix := FindVnode(fs, ino);
    // panic: reclaim vnode not in vnode pool
    assert ix >= 0;
    if fs.svs[ino].inode.links == 0 {
      MetaDirty(fs.nblocks, fs.disk, fs.freemapdirty, fs.freemap.v[..]);
      fs.Bfree(ino);
      fs.saved, fs.owner, fs.files := fs.saved - {ino}, fs.owner - {ino}, fs.files - {ino};
    }
    TableRemove(fs.vnodes, fs.svs.Keys, ix);
    fs.vnodes := fs.vnodes[..ix] + fs.vnodes[ix + 1..];
    ghost var keys := fs.svs.Keys;
    fs.svs := fs.svs - {ino};
    assert fs.svs.Keys == keys - {ino};
  }

  // sfs_reclaim, called with the last reference
  method Reclaim(fs: Sfs, ino: nat)
    requires fs.Valid() && ino in fs.svs && ino in fs.files
    requires ino == ROOT_LOCATION ==> fs.files[ino].links > 0
    modifies fs, fs.freemap.v
    ensures fs.Valid() && Reclaimed(old(fs.V()), fs.V(), ino)
  {
    hide Vol.Inv, MetaOk, TableOk, Bitmap.Valid, Bitmap.Bits, Reclaimed, Synced, CutMap, AllGone, IndirectGone,
      BitsWithout, Pack;
    ghost var v0 := fs.V();
    LoadedFacts(v0, ino);
    InodeFacts(v0, ino);
    if fs.svs[ino].inode.links == 0 {
      EraseKeeps(v0, ino);
      Truncate(fs, ino, 0);
    } else {
      ForgetKeeps(v0, ino);
    }
    ghost var v1 := fs.V();
    SyncedFacts(v1, ino);
    SyncVnode(fs, ino);
    Discard(fs, ino);
  }
}
