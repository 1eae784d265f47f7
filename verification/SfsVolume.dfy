/**
 The state of a mounted SFS volume as one value, and the invariant that every
 operation keeps: each block marked in the freemap has exactly one owner.

 The disk, the freemap, the dirty flag and the table of loaded vnodes are what
 kern/fs/sfs keeps; `owner`, `files` and `saved` are the bookkeeping of the proof
 (who owns each marked block, the block map of each live inode, and the inode
 each inode block holds).
 */
module SfsVolume {
  import opened Bytes

  const BLOCKBITS := 4096

  // SFS_BITBLOCKS
  function BitBlocks(nblocks: nat): nat {
    (nblocks + BLOCKBITS - 1) / BLOCKBITS
  }

  // struct sfs_vnode: the in-memory inode, its dirty flag and reference count
  datatype Vnode = Vnode(ino: nat, inode: Inode, dirty: bool, refs: nat)

  // The places from which a block can be used.
  datatype Ref =
    | RefSuper
    | RefMap
    | RefPast                       // a freemap bit beyond the end of the device
    | RefInode(ino: nat)
    | RefIndirect(ino: nat)
    | RefData(ino: nat, k: nat)     // slot k of the block map, direct slots first

  // An inode with its whole block map spelled out; 0 is a hole.
  datatype File = File(size: Word, typ: Half, links: Half, ind: Word, bmap: seq<Word>)

  function BlockAt(disk: seq<Block>, b: nat): Block {
    if 0 < b < |disk| then disk[b] else ZeroBlock
  }

  function ContentOf(disk: seq<Block>, f: File): (s: seq<Block>)
    ensures |s| == |f.bmap|
  {
    seq(|f.bmap|, k requires 0 <= k < |f.bmap| => BlockAt(disk, f.bmap[k]))
  }

  type Owners = map<nat, Ref>
  type Files = map<nat, File>

  // A block is marked exactly when it has an owner.
  ghost predicate Marked(bits: seq<bool>, owner: Owners) {
    && (forall b :: 0 <= b < |bits| ==> (bits[b] <==> b in owner))
    && (forall b :: b in owner ==> b < |bits|)
  }

  // The superblock, the freemap and the bits past the device are taken, and
  // nothing else claims them.
  ghost predicate Fixed(nblocks: nat, bits: seq<bool>, owner: Owners) {
    && 0 in owner
    && (forall b :: MAP_LOCATION <= b < MAP_LOCATION + BitBlocks(nblocks) ==> b in owner)
    && (forall b :: nblocks <= b < |bits| ==> b in owner)
    && (forall b :: b in owner ==>
          && (owner[b].RefSuper? <==> b == 0)
          && (owner[b].RefMap? <==> MAP_LOCATION <= b < MAP_LOCATION + BitBlocks(nblocks))
          && (owner[b].RefPast? <==> b >= nblocks))
  }

  // Every use of a block is recorded by its owner...
  ghost predicate Forward(owner: Owners, files: Files) {
    && (forall i :: i in files ==> i in owner && owner[i] == RefInode(i))
    && (forall i :: i in files ==> |files[i].bmap| == MAXBLOCKS)
    && (forall i :: i in files && files[i].ind != 0 ==>
          files[i].ind in owner && owner[files[i].ind] == RefIndirect(i))
    && (forall i, k :: i in files && 0 <= k < MAXBLOCKS && files[i].bmap[k] != 0 ==>
          files[i].bmap[k] in owner && owner[files[i].bmap[k]] == RefData(i, k))
  }

  // ... and every owner really uses its block.
  ghost predicate Backward(owner: Owners, files: Files) {
    && (forall b :: b in owner && owner[b].RefInode? ==> owner[b].ino == b && b in files)
    && (forall b :: b in owner && owner[b].RefIndirect? ==>
          owner[b].ino in files && files[owner[b].ino].ind == b)
    && (forall b :: b in owner && owner[b].RefData? ==>
          && owner[b].ino in files && owner[b].k < |files[owner[b].ino].bmap|
          && files[owner[b].ino].bmap[owner[b].k] == b)
  }

  ghost predicate Struct(nblocks: nat, bits: seq<bool>, owner: Owners, files: Files) {
    && MAP_LOCATION + BitBlocks(nblocks) <= nblocks < 0x40_0000
    && |bits| == BLOCKBITS * BitBlocks(nblocks)
    && ROOT_LOCATION in files
    && Marked(bits, owner) && Fixed(nblocks, bits, owner)
    && Forward(owner, files) && Backward(owner, files)
  }

  // The inode in force: the loaded copy if there is one, else the disk copy.
  ghost function Cur(tab: map<nat, Vnode>, saved: map<nat, Inode>, i: nat): Inode
    requires i in tab || i in saved
  {
    if i in tab then tab[i].inode else saved[i]
  }

  // f records inode c; the indirect slots are the indirect block's business.
  ghost predicate Records(f: File, c: Inode) {
    && c.Shape() && |f.bmap| == MAXBLOCKS
    && f.size == c.size && f.typ == c.typ && f.links == c.links && f.ind == c.indirect
    && forall k :: 0 <= k < NDIRECT ==> f.bmap[k] == c.direct[k]
  }

  // Every live inode is recorded; loaded ones are live, and a clean loaded
  // inode equals its disk copy.
  ghost predicate Mirrors(tab: map<nat, Vnode>, saved: map<nat, Inode>, files: Files) {
    && saved.Keys == files.Keys
    && (forall i :: i in files ==> Records(files[i], Cur(tab, saved, i)))
    && (forall i :: i in tab ==>
          i in files && tab[i].ino == i && tab[i].refs > 0 && (!tab[i].dirty ==> tab[i].inode == saved[i]))
  }

  // saved is what the inode blocks on disk say...
  ghost predicate Inodes(disk: seq<Block>, saved: map<nat, Inode>) {
    forall i :: i in saved ==> i < |disk| && InodeOf(disk[i]) == saved[i]
  }

  // ... and the upper slots of each block map are what its indirect block says.
  ghost predicate Indirects(disk: seq<Block>, files: Files) {
    forall i :: i in files ==> files[i].ind < |disk| && IndirectSlots(files[i], BlockAt(disk, files[i].ind))
  }

  ghost predicate IndirectSlots(f: File, idb: Block) {
    |f.bmap| == MAXBLOCKS && f.bmap[NDIRECT..] == Unpack(idb)
  }

  datatype Vol = Vol(nblocks: nat, disk: seq<Block>, bits: seq<bool>, tab: map<nat, Vnode>,
                     saved: map<nat, Inode>, owner: Owners, files: Files)
  {
    function Content(ino: nat): (s: seq<Block>)
      requires ino in files
    {
      ContentOf(disk, files[ino])
    }

    ghost predicate Inv() {
      && nblocks <= |disk|
      && Struct(nblocks, bits, owner, files)
      && Mirrors(tab, saved, files)
      && Inodes(disk, saved)
      && Indirects(disk, files)
    }
  }
}
