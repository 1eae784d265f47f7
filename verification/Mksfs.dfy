/**
 sbin/mksfs: the filesystem it writes satisfies the invariant the kernel
 relies on, with exactly the blocks outside the metadata free.
 */
module Mksfs {
  import opened Bytes
  import opened SfsVolume
  import opened SfsDirectory
  import opened SfsMount
  import opened BitmapLib

  const MAXBITBLOCKS := 32
  const VOLNAME_SIZE := 32

  // struct sfs_super as written: magic, size, volume name, zeros
  function SuperBlock(n: Word, volname: seq<Byte>): (b: Block)
    requires |volname| < VOLNAME_SIZE
  {
    [ByteOf(SFS_MAGIC, 0), ByteOf(SFS_MAGIC, 1), ByteOf(SFS_MAGIC, 2), ByteOf(SFS_MAGIC, 3)] +
    [ByteOf(n, 0), ByteOf(n, 1), ByteOf(n, 2), ByteOf(n, 3)] +
    volname + Zeros(BLOCKSIZE - 8 - |volname|)
  }

  lemma SuperBlockOk(n: Word, volname: seq<Byte>)
    requires |volname| < VOLNAME_SIZE
    ensures Unpack(SuperBlock(n, volname))[0] == SFS_MAGIC && Unpack(SuperBlock(n, volname))[1] == n
    ensures SuperBlock(n, volname)[8..8 + |volname|] == volname
    ensures forall k :: 8 + |volname| <= k < BLOCKSIZE ==> SuperBlock(n, volname)[k] == 0
  {
    var b := SuperBlock(n, volname);
    WordRoundTrip(SFS_MAGIC);
    WordRoundTrip(n);
    assert WordAt(b, 0) == WordOf(b[0], b[1], b[2], b[3]);
    assert WordAt(b, 1) == WordOf(b[4], b[5], b[6], b[7]);
  }

  function RootInode(): (c: Inode) {
    Inode(0, TYPE_DIR, 1, ZeroWords(NDIRECT), 0, ZeroWords(WORDS - 3 - NDIRECT))
  }

  function RootFile(): (f: File) {
    File(0, TYPE_DIR, 1, 0, ZeroWords(MAXBLOCKS))
  }

  // The blocks mksfs marks: superblock, root inode, map, and past the end.
  predicate Reserved(n: nat, b: nat) {
    b < MAP_LOCATION + BitBlocks(n) || n <= b
  }

  ghost function FreshOwners(n: nat): Owners {
    map b | 0 <= b < BLOCKBITS * BitBlocks(n) && Reserved(n, b) ::
      if b == 0 then RefSuper
      else if b == ROOT_LOCATION then RefInode(ROOT_LOCATION)
      else if b < MAP_LOCATION + BitBlocks(n) then RefMap
      else RefPast
  }

  lemma FreshStruct(n: nat, bits: seq<bool>)
    requires MAP_LOCATION + BitBlocks(n) <= n < 0x40_0000 && |bits| == BLOCKBITS * BitBlocks(n)
    requires forall b :: 0 <= b < |bits| ==> (bits[b] <==> Reserved(n, b))
    ensures Struct(n, bits, FreshOwners(n), map[ROOT_LOCATION := RootFile()])
  {}

  // A volume laid out by mksfs is in order, and its directory is empty.
  lemma FreshInv(v: Vol)
    requires MAP_LOCATION + BitBlocks(v.nblocks) <= v.nblocks <= |v.disk| && v.nblocks < 0x40_0000
    requires |v.bits| == BLOCKBITS * BitBlocks(v.nblocks)
    requires forall b :: 0 <= b < |v.bits| ==> (v.bits[b] <==> Reserved(v.nblocks, b))
    requires v.disk[ROOT_LOCATION] == BlockOfInode(RootInode())
    requires v.tab == map[] && v.saved == map[ROOT_LOCATION := RootInode()]
    requires v.owner == FreshOwners(v.nblocks) && v.files == map[ROOT_LOCATION := RootFile()]
    ensures v.Inv()
  {
    hide SfsVolume.Struct, FreshOwners, InodeOf, BlockOfInode, Unpack;
    FreshStruct(v.nblocks, v.bits);
    InodeRoundTrip(RootInode());
    UnpackZero();
    assert RootFile().bmap[NDIRECT..] == ZeroWords(WORDS);
    assert IndirectSlots(RootFile(), ZeroBlock);
    assert Records(RootFile(), RootInode());
  }

  lemma FreshDir(v: Vol)
    requires v.files == map[ROOT_LOCATION := RootFile()]
    ensures DirOk(v) && Dir(v) == []
  {
    hide ContentOf, Flat;
  }

  // mksfs on a device of |dev0| blocks. doallocbit insists that no bit is
  // marked twice, so the device must hold its own metadata.
  method Mkfs(dev0: seq<Block>, volname: seq<Byte>)
    returns (ok: bool, dev: seq<Block>, ghost saved: map<nat, Inode>, ghost owner: Owners, ghost files: Files)
    requires MAP_LOCATION + BitBlocks(|dev0|) <= |dev0|
    ensures ok <==> |volname| < 32 && |dev0| <= 32 * 4096
    ensures ok ==> |dev| == |dev0| && OnDevice(dev, saved, owner, files)
    ensures ok ==> dev[0][8..8 + |volname|] == volname && forall k :: 8 + |volname| <= k < 512 ==> dev[0][k] == 0
    ensures ok ==> var v := DeviceVol(dev, saved, owner, files);
              && v.nblocks == |dev| && v.files == map[ROOT_LOCATION := RootFile()] && Dir(v) == []
              && forall b :: 0 <= b < |v.bits| ==> (v.bits[b] <==> Reserved(|dev|, b))
  {
    hide Vol.Inv, DirOff, Unpack, BlockOfInode, MapBytes, BitsOf, FreshOwners, DirOk, SuperBlock, StoredChunk;
    saved, owner, files := map[], map[], map[];
    dev := dev0;
    var fsblocks := |dev0|;
    if |volname| >= VOLNAME_SIZE {
      return false, dev, saved, owner, files;
    }
    var nblocks := BitBlocks(fsblocks);
    if nblocks > MAXBITBLOCKS {
      return false, dev, saved, owner, files;
    }
    ok := true;
    SuperBlockOk(fsblocks, volname);
    dev := dev[0 := SuperBlock(fsblocks, volname)];
    dev := dev[ROOT_LOCATION := BlockOfInode(RootInode())];
    var bitbuf := BuildBitmap(fsblocks);
    ghost var bytes, bits := bitbuf.v[..], bitbuf.Bits();
    var i := 0;
    while i < nblocks
      invariant 0 <= i <= nblocks && |dev| == fsblocks
      invariant dev[0] == SuperBlock(fsblocks, volname) && dev[ROOT_LOCATION] == BlockOfInode(RootInode())
      invariant bitbuf.v[..] == bytes
      invariant forall k :: 0 <= k < i ==> StoredChunk(dev, bytes, k)
    {
      var b := MapSector(bitbuf.v, i);
      ghost var dev1 := dev;
      dev := dev[MAP_LOCATION + i := b];
      ChunkStored(dev1, dev, bytes, i, b);
      i := i + 1;
    }
    saved, owner, files := map[ROOT_LOCATION := RootInode()], FreshOwners(fsblocks), map[ROOT_LOCATION := RootFile()];
    MapBlocksSaved(dev, bytes, nblocks);
    SavedIsMapBytes(dev, bytes, nblocks);
    ghost var v := DeviceVol(dev, saved, owner, files);
    assert v.bits == bits;
    FreshInv(v);
    FreshDir(v);
  }

  lemma ChunkStored(dev: seq<Block>, dev': seq<Block>, bytes: seq<bv8>, i: nat, b: Block)
    requires MAP_LOCATION + i < |dev| && dev' == dev[MAP_LOCATION + i := b]
    requires BLOCKSIZE * i + BLOCKSIZE <= |bytes| && IsMapBlock(b, bytes, i)
    requires forall k :: 0 <= k < i ==> StoredChunk(dev, bytes, k)
    ensures forall k :: 0 <= k < i + 1 ==> StoredChunk(dev', bytes, k)
  {
    forall k | 0 <= k < i + 1
      ensures StoredChunk(dev', bytes, k)
    {
      if k < i {
        assert StoredChunk(dev, bytes, k);
      }
    }
  }

  // writebitmap: mark the superblock, the root inode, the map and every bit
  // past the end of the device
  method BuildBitmap(fsblocks: nat) returns (bitbuf: Bitmap)
    requires MAP_LOCATION + BitBlocks(fsblocks) <= fsblocks
    ensures fresh(bitbuf.v) && bitbuf.Valid() && bitbuf.nbits == BLOCKBITS * BitBlocks(fsblocks)
    ensures bitbuf.v.Length == BLOCKSIZE * BitBlocks(fsblocks)
    ensures forall b :: 0 <= b < bitbuf.nbits ==> (bitbuf.Bits()[b] <==> Reserved(fsblocks, b))
  {
    hide BitmapLib.BitsOf;
    var nblocks := BitBlocks(fsblocks);
    var nbits := BLOCKBITS * nblocks;
    bitbuf := new Bitmap(nbits);
    bitbuf.Mark(0);
    bitbuf.Mark(ROOT_LOCATION);
    var i := 0;
    while i < nblocks
      invariant 0 <= i <= nblocks && bitbuf.Valid()
      invariant forall b :: 0 <= b < nbits ==> (bitbuf.Bits()[b] <==> b < MAP_LOCATION + i)
    {
      bitbuf.Mark(MAP_LOCATION + i);
      i := i + 1;
    }
    i := fsblocks;
    while i < nbits
      invariant fsblocks <= i <= nbits && bitbuf.Valid()
      invariant forall b :: 0 <= b < nbits ==> (bitbuf.Bits()[b] <==> b < MAP_LOCATION + nblocks || fsblocks <= b < i)
    {
      bitbuf.Mark(i);
      i := i + 1;
    }
  }
}
