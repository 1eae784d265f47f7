/**
 kern/fs/sfs/sfs_fs.c and sbin/mksfs: writing everything back, mounting a
 device, and making a fresh filesystem. What sync leaves on the device is
 enough to mount the same filesystem again.
 */
module SfsMount {
  import opened Bytes
  import opened Errno
  import opened SfsVolume
  import opened SfsSteps
  import opened SfsFs
  import opened SfsVnodes
  import opened SfsDirectory
  import opened SfsLinks
  import opened SfsOps
  import opened BitmapLib

  // ---------- the freemap on disk ----------

  // The freemap bytes in the first n map blocks.
  function MapBytes(disk: seq<Block>, n: nat): (bytes: seq<bv8>)
    requires MAP_LOCATION + n <= |disk|
    ensures |bytes| == BLOCKSIZE * n
  {
    seq(BLOCKSIZE * n, j requires 0 <= j < BLOCKSIZE * n => Cooked(disk[MAP_LOCATION + j / BLOCKSIZE][j % BLOCKSIZE]))
  }

  lemma SavedIsMapBytes(disk: seq<Block>, bytes: seq<bv8>, n: nat)
    requires MAP_LOCATION + n <= |disk| && |bytes| == BLOCKSIZE * n
    ensures MapSaved(disk, bytes) <==> MapBytes(disk, n) == bytes
  {
    if MapSaved(disk, bytes) {
      assert forall j :: 0 <= j < |bytes| ==> MapBytes(disk, n)[j] == bytes[j];
    }
  }

  // Block b holds chunk j of the freemap bytes.
  predicate IsMapBlock(b: Block, bytes: seq<bv8>, j: nat)
    requires BLOCKSIZE * j + BLOCKSIZE <= |bytes|
  {
    forall i :: 0 <= i < BLOCKSIZE ==> Cooked(b[i]) == bytes[BLOCKSIZE * j + i]
  }

  // Map block j holds chunk j.
  predicate StoredChunk(disk: seq<Block>, bytes: seq<bv8>, j: nat) {
    MAP_LOCATION + j < |disk| && BLOCKSIZE * j + BLOCKSIZE <= |bytes| && IsMapBlock(disk[MAP_LOCATION + j], bytes, j)
  }

  // The sector of bitmap data that starts at byte BLOCKSIZE * j
  method MapSector(v: array<bv8>, j: nat) returns (b: Block)
    requires BLOCKSIZE * j + BLOCKSIZE <= v.Length
    ensures IsMapBlock(b, v[..], j)
  {
    var s: seq<Byte> := [];
    while |s| < BLOCKSIZE
      invariant |s| <= BLOCKSIZE
      invariant forall i :: 0 <= i < |s| ==> Cooked(s[i]) == v[BLOCKSIZE * j + i]
    {
      CookedRaw(v[BLOCKSIZE * j + |s|]);
      s := s + [Raw(v[BLOCKSIZE * j + |s|])];
    }
    b := s;
  }

  lemma MapBlocksSaved(disk: seq<Block>, bytes: seq<bv8>, n: nat)
    requires MAP_LOCATION + n <= |disk| && |bytes| == BLOCKSIZE * n
    requires forall j :: 0 <= j < n ==> StoredChunk(disk, bytes, j)
    ensures MapSaved(disk, bytes)
  {
    forall j | 0 <= j < |bytes|
      ensures Cooked(disk[MAP_LOCATION + j / BLOCKSIZE][j % BLOCKSIZE]) == bytes[j]
    {
      assert StoredChunk(disk, bytes, j / BLOCKSIZE);
    }
  }

  // ---------- a device holding a filesystem ----------

  // The volume a device describes when nothing is loaded.
  ghost function DeviceVol(dev: seq<Block>, saved: map<nat, Inode>, owner: Owners, files: Files): Vol
    requires |dev| > 0 && MAP_LOCATION + BitBlocks(Unpack(dev[0])[1]) <= |dev|
  {
    var n := Unpack(dev[0])[1];
    Vol(n, dev, BitsOf(MapBytes(dev, BitBlocks(n)), BLOCKBITS * BitBlocks(n)), map[], saved, owner, files)
  }

  // The device holds a filesystem in order.
  ghost predicate OnDevice(dev: seq<Block>, saved: map<nat, Inode>, owner: Owners, files: Files) {
    && |dev| > 0 && Unpack(dev[0])[0] == SFS_MAGIC
    && MAP_LOCATION + BitBlocks(Unpack(dev[0])[1]) <= |dev|
    && DeviceVol(dev, saved, owner, files).Inv()
    && DirOk(DeviceVol(dev, saved, owner, files))
  }

  // A clean filesystem with nothing loaded is all on the device.
  lemma CleanOnDevice(fs: Sfs)
    requires Good(fs) && fs.svs == map[] && !fs.freemapdirty
    ensures OnDevice(fs.disk, fs.saved, fs.owner, fs.files)
    ensures DeviceVol(fs.disk, fs.saved, fs.owner, fs.files) == fs.V()
  {
    hide Vol.Inv, DirOff, MapBytes, MapSaved, BitsOf;
    var n := BitBlocks(fs.nblocks);
    VolFacts(fs.V());
    MapFits(fs.V());
    SavedIsMapBytes(fs.disk, fs.freemap.v[..], n);
  }

  lemma MapFits(v: Vol)
    requires v.Inv()
    ensures MAP_LOCATION + BitBlocks(v.nblocks) <= |v.disk|
  {}

  // ---------- sync ----------

  // Nothing but the disk copies changed.
  ghost predicate SameMeaning(v: Vol, v': Vol) {
    && v'.nblocks == v.nblocks && v'.bits == v.bits && v'.owner == v.owner && v'.files == v.files
    && v'.tab.Keys == v.tab.Keys
    && (forall i :: i in v.tab ==> v'.tab[i].inode == v.tab[i].inode && v'.tab[i].refs == v.tab[i].refs)
    && (forall i :: i in v.files ==> v'.Content(i) == v.Content(i))
  }

  lemma MeaningTwice(a: Vol, b: Vol, c: Vol)
    requires SameMeaning(a, b) && SameMeaning(b, c)
    ensures SameMeaning(a, c)
  {
    hide ContentOf;
  }

  lemma MeaningDir(v: Vol, v': Vol)
    requires DirOk(v) && SameMeaning(v, v')
    ensures DirOk(v') && Dir(v') == Dir(v)
  {
    hide ContentOf, Flat, Ents, NamesUnique, Count;
    RootLinked(v);
    DirFrame(v, v', 0, 0);
  }

  lemma SyncedMeaning(v: Vol, ino: nat)
    requires v.Inv() && ino in v.tab && ino < |v.disk| && v.tab[ino].inode.Shape()
    ensures SameMeaning(v, Synced(v, ino))
  {
    hide Vol.Inv, ContentOf, Synced;
    SyncedFacts(v, ino);
    assert Synced(v, ino).tab.Keys == v.tab.Keys;
  }

  // sfs_sync, first part: write back every loaded inode
  method SyncVnodes(fs: Sfs)
    requires fs.Valid()
    modifies fs
    ensures fs.Valid() && SameMeaning(old(fs.V()), fs.V())
    ensures forall i :: i in fs.svs ==> !fs.svs[i].dirty
    ensures fs.vnodes == old(fs.vnodes) && fs.freemapdirty == old(fs.freemapdirty)
  {
    hide Vol.Inv, MetaOk, Bitmap.Valid, Bitmap.Bits, SameMeaning, Synced;
    ghost var v0 := fs.V();
    MeaningSelf(v0);
    var i := 0;
    while i < |fs.vnodes|
      invariant 0 <= i <= |fs.vnodes| && fs.vnodes == old(fs.vnodes)
      invariant fs.Valid() && SameMeaning(v0, fs.V())
      invariant fs.freemapdirty == old(fs.freemapdirty)
      invariant forall j :: 0 <= j < i && fs.vnodes[j] in fs.svs ==> !fs.svs[fs.vnodes[j]].dirty
      decreases |fs.vnodes| - i
    {
      var ino := fs.vnodes[i];
      ghost var v1 := fs.V();
      LoadedFacts(v1, ino);
      InodeFacts(v1, ino);
      SyncedMeaning(v1, ino);
      SyncedFacts(v1, ino);
      SyncVnode(fs, ino);
      MeaningTwice(v0, v1, fs.V());
      i := i + 1;
    }
  }

  lemma MeaningSelf(v: Vol)
    ensures SameMeaning(v, v)
  {}

  lemma WriteMapBlock(v: Vol, b: nat, x: Block)
    requires v.Inv() && MAP_LOCATION <= b < MAP_LOCATION + BitBlocks(v.nblocks)
    ensures b < |v.disk| && v.(disk := v.disk[b := x]).Inv() && SameMeaning(v, v.(disk := v.disk[b := x]))
  {
    hide Inodes, Indirects, Mirrors, ContentOf, SfsVolume.Struct;
    MapApart(v.nblocks, v.bits, v.owner, v.files, b);
    SavedKeysOf(v.tab, v.saved, v.files);
    InodesFrame(v.disk, v.saved, b, x);
    IndirectsFrame(v.disk, v.files, b, x);
    forall i | i in v.files
      ensures ContentOf(v.disk[b := x], v.files[i]) == ContentOf(v.disk, v.files[i])
    {
      WriteAside(v.disk, v.files[i], b, x);
    }
  }

  lemma SavedKeysOf(tab: map<nat, Vnode>, saved: map<nat, Inode>, files: Files)
    requires Mirrors(tab, saved, files)
    ensures saved.Keys == files.Keys
  {}

  lemma WriteAside(disk: seq<Block>, f: File, b: nat, x: Block)
    requires b < |disk| && forall k :: 0 <= k < |f.bmap| ==> f.bmap[k] != b
    ensures ContentOf(disk[b := x], f) == ContentOf(disk, f)
  {}

  lemma MapApart(n: nat, bits: seq<bool>, owner: Owners, files: Files, b: nat)
    requires Struct(n, bits, owner, files) && MAP_LOCATION <= b < MAP_LOCATION + BitBlocks(n)
    ensures b < n
    ensures forall i :: i in files ==> i != b && files[i].ind != b && forall k :: 0 <= k < |files[i].bmap| ==>
              files[i].bmap[k] != b
  {
    assert owner[b].RefMap?;
  }

  // sfs_mapio for writing, after which the freemap is clean
  method WriteMap(fs: Sfs)
    requires fs.Valid() && fs.freemapdirty
    modifies fs
    ensures fs.Valid() && SameMeaning(old(fs.V()), fs.V()) && !fs.freemapdirty
    ensures fs.svs == old(fs.svs) && fs.vnodes == old(fs.vnodes)
  {
    hide Vol.Inv, TableOk, Bitmap.Valid, Bitmap.Bits, SameMeaning, IsMapBlock, MapSaved, SuperOk;
    ghost var v0 := fs.V();
    MeaningSelf(v0);
    fs.ValidSizes();
    MapFits(v0);
    ghost var bytes := fs.freemap.v[..];
    var mapsize := BitBlocks(fs.nblocks);
    var j := 0;
    while j < mapsize
      invariant 0 <= j <= mapsize && fs.freemapdirty
      invariant fs.Valid() && SameMeaning(v0, fs.V()) && |fs.disk| == |v0.disk|
      invariant fs.svs == old(fs.svs) && fs.vnodes == old(fs.vnodes)
      invariant fs.freemap.v[..] == bytes
      invariant forall k :: 0 <= k < j ==> StoredChunk(fs.disk, bytes, k)
    {
      var b := MapSector(fs.freemap.v, j);
      ghost var v1 := fs.V();
      WriteMapBlock(v1, MAP_LOCATION + j, b);
      fs.disk := fs.disk[MAP_LOCATION + j := b];
      forall k | 0 <= k <= j
        ensures StoredChunk(fs.disk, bytes, k)
      {
        if k < j {
          assert StoredChunk(v1.disk, bytes, k);
        }
      }
      assert fs.V() == v1.(disk := v1.disk[MAP_LOCATION + j := b]);
      MeaningTwice(v0, v1, fs.V());
      j := j + 1;
    }
    MapBlocksSaved(fs.disk, fs.freemap.v[..], mapsize);
    fs.freemapdirty := false;
  }

  // sfs_sync
  method Sync(fs: Sfs)
    requires Good(fs)
    modifies fs
    ensures Good(fs) && SameMeaning(old(fs.V()), fs.V()) && Dir(fs.V()) == old(Dir(fs.V()))
    ensures !fs.freemapdirty && fs.vnodes == old(fs.vnodes)
    ensures forall i :: i in fs.svs ==> !fs.svs[i].dirty
  {
    hide Vol.Inv, MetaOk, TableOk, Bitmap.Valid, Bitmap.Bits, SameMeaning, DirOff, Ents;
    ghost var v0 := fs.V();
    SyncVnodes(fs);
    ghost var v1 := fs.V();
    if fs.freemapdirty {
      WriteMap(fs);
      MeaningTwice(v0, v1, fs.V());
    }
    MeaningDir(v0, fs.V());
  }

  // sfs_unmount
  method Unmount(fs: Sfs) returns (err: Err)
    requires Good(fs) && !fs.freemapdirty
    ensures err == OK || err == EBUSY
    ensures err == EBUSY <==> fs.svs != map[]
    ensures err == OK ==> OnDevice(fs.disk, fs.saved, fs.owner, fs.files)
    ensures err == OK ==> DeviceVol(fs.disk, fs.saved, fs.owner, fs.files) == fs.V()
  {
    hide Vol.Inv, MetaOk, DirOff, Bitmap.Valid, Bitmap.Bits, OnDevice, DeviceVol;
    if |fs.vnodes| > 0 {
      assert fs.vnodes[0] in fs.svs;
      return EBUSY;
    }
    assert fs.svs == map[];
    CleanOnDevice(fs);
    return OK;
  }

  // ---------- mount ----------

  // sfs_mapio for reading
  method ReadMap(dev: seq<Block>, map_: Bitmap, mapsize: nat)
    requires MAP_LOCATION + mapsize <= |dev| && map_.v.Length == BLOCKSIZE * mapsize
    modifies map_.v
    ensures map_.v[..] == MapBytes(dev, mapsize)
  {
    hide Cooked;
    var j := 0;
    while j < BLOCKSIZE * mapsize
      invariant 0 <= j <= BLOCKSIZE * mapsize
      invariant forall i :: 0 <= i < j ==> map_.v[i] == MapBytes(dev, mapsize)[i]
    {
      map_.v[j] := Cooked(dev[MAP_LOCATION + j / BLOCKSIZE][j % BLOCKSIZE]);
      j := j + 1;
    }
  }

  // sfs_domount. saved, owner and files describe the device if it holds a
  // filesystem in order.
  method Mount(dev: seq<Block>, ghost saved: map<nat, Inode>, ghost owner: Owners, ghost files: Files)
    returns (err: Err, fs: Sfs?)
    requires |dev| > 0
    requires Unpack(dev[0])[0] == SFS_MAGIC ==> MAP_LOCATION + BitBlocks(Unpack(dev[0])[1]) <= |dev|
    ensures err == EINVAL || err == OK
    ensures err == EINVAL <==> Unpack(dev[0])[0] != SFS_MAGIC
    ensures err == OK ==> fs != null && fresh(fs) && fresh(fs.freemap.v) && fs.disk == dev && fs.svs == map[]
    ensures err == OK && OnDevice(dev, saved, owner, files) ==>
              Good(fs) && fs.V() == DeviceVol(dev, saved, owner, files)
  {
    hide Vol.Inv, DirOff, Unpack;
    var super := Unpack(dev[0]);
    if super[0] != SFS_MAGIC {
      return EINVAL, null;
    }
    var n := super[1];
    var bb := BitBlocks(n);
    var freemap := new Bitmap(BLOCKBITS * bb);
    ReadMap(dev, freemap, bb);
    fs := new Sfs(n, dev, freemap, saved, owner, files);
    err := OK;
    SavedIsMapBytes(dev, freemap.v[..], bb);
  }

  // Unmounting after a sync and mounting the device again gives back the same
  // files, names, link counts and free blocks.
  method Remount(fs: Sfs) returns (err: Err, fs2: Sfs?)
    requires Good(fs)
    modifies fs
    ensures err == OK || err == EBUSY
    ensures err == EBUSY <==> old(fs.svs) != map[]
    ensures err == OK ==> fs2 != null && Good(fs2) && fs2.svs == map[]
    ensures err == OK ==> SameMeaning(old(fs.V()), fs2.V()) && Dir(fs2.V()) == old(Dir(fs.V()))
  {
    hide Vol.Inv, MetaOk, TableOk, Bitmap.Valid, Bitmap.Bits, DirOff, Ents, DeviceVol;
    fs2 := null;
    Sync(fs);
    assert fs.svs.Keys == old(fs.svs).Keys;
    err := Unmount(fs);
    if err != OK {
      return;
    }
    err, fs2 := Mount(fs.disk, fs.saved, fs.owner, fs.files);
    assert fs2.V() == fs.V();
  }
}
