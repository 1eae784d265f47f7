/**
 The elementary changes SFS makes to a volume, each a function on volume
 values, with a proof that it keeps the invariant and leaves every file's
 bytes alone except where it says so.
 */
module SfsSteps {
  import opened Bytes
  import opened SfsVolume

  // ---------- changes of ownership ----------

  lemma GiveData(n: nat, bits: seq<bool>, owner: Owners, files: Files, ino: nat, k: nat, b: Word)
    requires Struct(n, bits, owner, files)
    requires b < n && b !in owner
    requires ino in files && k < MAXBLOCKS && files[ino].bmap[k] == 0
    ensures Struct(n, bits[b := true], owner[b := RefData(ino, k)],
                   files[ino := files[ino].(bmap := files[ino].bmap[k := b])])
  {
    GiveDataUse(owner, files, ino, k, b);
    GiveMark(n, bits, owner, b, RefData(ino, k));
  }

  lemma GiveDataUse(owner: Owners, files: Files, ino: nat, k: nat, b: Word)
    requires Forward(owner, files) && Backward(owner, files) && b !in owner && 0 in owner && owner[0].RefSuper?
    requires ino in files && k < MAXBLOCKS && files[ino].bmap[k] == 0
    ensures var owner', files' := owner[b := RefData(ino, k)],
            files[ino := files[ino].(bmap := files[ino].bmap[k := b])];
            Forward(owner', files') && Backward(owner', files')
  {}

  // Marking a free block and naming its owner.
  lemma GiveMark(n: nat, bits: seq<bool>, owner: Owners, b: nat, r: Ref)
    requires Marked(bits, owner) && Fixed(n, bits, owner) && |bits| == BLOCKBITS * BitBlocks(n)
    requires b < n && b !in owner && !r.RefSuper? && !r.RefMap? && !r.RefPast?
    ensures Marked(bits[b := true], owner[b := r]) && Fixed(n, bits[b := true], owner[b := r])
  {}

  lemma GiveIndirect(n: nat, bits: seq<bool>, owner: Owners, files: Files, ino: nat, b: Word)
    requires Struct(n, bits, owner, files)
    requires b < n && b !in owner
    requires ino in files && files[ino].ind == 0
    ensures Struct(n, bits[b := true], owner[b := RefIndirect(ino)], files[ino := files[ino].(ind := b)])
  {
    GiveIndirectUse(owner, files, ino, b);
    GiveMark(n, bits, owner, b, RefIndirect(ino));
  }

  lemma GiveIndirectUse(owner: Owners, files: Files, ino: nat, b: Word)
    requires Forward(owner, files) && Backward(owner, files) && b !in owner && 0 in owner && owner[0].RefSuper?
    requires ino in files && files[ino].ind == 0
    ensures var owner', files' := owner[b := RefIndirect(ino)], files[ino := files[ino].(ind := b)];
            Forward(owner', files') && Backward(owner', files')
  {}

  lemma GiveInode(n: nat, bits: seq<bool>, owner: Owners, files: Files, b: Word, f: File)
    requires Struct(n, bits, owner, files)
    requires b < n && b !in owner
    requires f.ind == 0 && f.bmap == ZeroWords(MAXBLOCKS)
    ensures Struct(n, bits[b := true], owner[b := RefInode(b)], files[b := f])
  {}

  lemma ChangeMeta(n: nat, bits: seq<bool>, owner: Owners, files: Files, ino: nat, f: File)
    requires Struct(n, bits, owner, files)
    requires ino in files && f.ind == files[ino].ind && f.bmap == files[ino].bmap
    ensures Struct(n, bits, owner, files[ino := f])
  {}

  lemma TakeInode(n: nat, bits: seq<bool>, owner: Owners, files: Files, ino: nat)
    requires Struct(n, bits, owner, files)
    requires ino in files && ino != ROOT_LOCATION
    requires files[ino].ind == 0 && forall k :: 0 <= k < MAXBLOCKS ==> files[ino].bmap[k] == 0
    ensures Struct(n, bits[ino := false], owner - {ino}, files - {ino})
  {}

  // f is old with every block in `gone` turned into a hole.
  ghost predicate Without(f: File, old_: File, gone: set<nat>) {
    && |f.bmap| == |old_.bmap| == MAXBLOCKS
    && f.ind == (if old_.ind in gone then 0 else old_.ind)
    && forall k :: 0 <= k < MAXBLOCKS ==> f.bmap[k] == if old_.bmap[k] in gone then 0 else old_.bmap[k]
  }

  // All of `gone` belongs to file ino.
  ghost predicate OnlyOf(owner: Owners, ino: nat, gone: set<nat>) {
    forall b :: b in gone ==>
      b in owner && ((owner[b].RefData? && owner[b].ino == ino) || owner[b] == RefIndirect(ino))
  }

  // Blocks of one file are given back together.
  lemma TakeBlocks(n: nat, bits: seq<bool>, bits': seq<bool>, owner: Owners, files: Files,
                   ino: nat, f: File, gone: set<nat>)
    requires Struct(n, bits, owner, files)
    requires ino in files && OnlyOf(owner, ino, gone) && Without(f, files[ino], gone)
    requires |bits'| == |bits| && forall b :: 0 <= b < |bits| ==> bits'[b] == (bits[b] && b !in gone)
    ensures Struct(n, bits', owner - gone, files[ino := f])
  {
    TakeUse(owner, files, ino, f, gone);
    assert Fixed(n, bits', owner - gone);
  }

  lemma TakeUse(owner: Owners, files: Files, ino: nat, f: File, gone: set<nat>)
    requires Forward(owner, files) && Backward(owner, files)
    requires ino in files && OnlyOf(owner, ino, gone) && Without(f, files[ino], gone)
    ensures Forward(owner - gone, files[ino := f]) && Backward(owner - gone, files[ino := f])
  {
    var owner', files' := owner - gone, files[ino := f];
    forall i, k | i in files' && 0 <= k < MAXBLOCKS && files'[i].bmap[k] != 0
      ensures files'[i].bmap[k] in owner' && owner'[files'[i].bmap[k]] == RefData(i, k)
    {
      assert files[i].bmap[k] == files'[i].bmap[k];
    }
  }

  // ---------- changes of the disk ----------

  // A block that no inode or indirect block lives in.
  ghost predicate Passive(owner: Owners, b: nat) {
    b in owner ==> owner[b].RefData?
  }

  lemma PassiveApart(n: nat, bits: seq<bool>, owner: Owners, files: Files, b: nat)
    requires Struct(n, bits, owner, files) && Passive(owner, b)
    ensures b != 0
    ensures forall i :: i in files ==> i != b && files[i].ind != b
  {
    forall i | i in files
      ensures i != b
    {
      assert owner[i] == RefInode(i);
    }
  }

  lemma InodesFrame(disk: seq<Block>, saved: map<nat, Inode>, b: nat, x: Block)
    requires Inodes(disk, saved) && b < |disk| && b !in saved
    ensures Inodes(disk[b := x], saved)
  {}

  lemma IndirectsFrame(disk: seq<Block>, files: Files, b: nat, x: Block)
    requires Indirects(disk, files) && b < |disk| && forall i :: i in files ==> files[i].ind != b
    ensures Indirects(disk[b := x], files)
  {
    forall i | i in files
      ensures BlockAt(disk[b := x], files[i].ind) == BlockAt(disk, files[i].ind)
    {
    }
  }

  lemma WritePassive(v: Vol, b: nat, x: Block)
    requires v.Inv() && b < v.nblocks && Passive(v.owner, b)
    ensures Inodes(v.disk[b := x], v.saved)
    ensures Indirects(v.disk[b := x], v.files)
  {
    PassiveApart(v.nblocks, v.bits, v.owner, v.files, b);
    InodesFrame(v.disk, v.saved, b, x);
    IndirectsFrame(v.disk, v.files, b, x);
  }

  // Writing a data block changes one block of one file.
  lemma WriteDataContent(disk: seq<Block>, owner: Owners, files: Files, ino: nat, k: nat, x: Block, i: nat)
    requires Forward(owner, files)
    requires ino in files && k < MAXBLOCKS && 0 < files[ino].bmap[k] < |disk|
    requires i in files
    ensures ContentOf(disk[files[ino].bmap[k] := x], files[i]) ==
            if i == ino then ContentOf(disk, files[ino])[k := x] else ContentOf(disk, files[i])
  {
    var b := files[ino].bmap[k];
    forall j | 0 <= j < MAXBLOCKS && files[i].bmap[j] == b
      ensures i == ino && j == k
    {
      assert owner[files[i].bmap[j]] == RefData(i, j);
    }
  }

  // Clearing a free block changes no file.
  lemma WriteFreeContent(disk: seq<Block>, owner: Owners, files: Files, b: nat, x: Block, i: nat)
    requires Forward(owner, files) && b < |disk| && b !in owner && i in files
    ensures ContentOf(disk[b := x], files[i]) == ContentOf(disk, files[i])
  {}

  // ---------- changes of a loaded inode ----------

  lemma ChangeVnode(tab: map<nat, Vnode>, saved: map<nat, Inode>, files: Files, vn: Vnode, f: File)
    requires Mirrors(tab, saved, files)
    requires vn.ino in files && vn.refs > 0 && Records(f, vn.inode)
    requires !vn.dirty ==> vn.inode == saved[vn.ino]
    ensures Mirrors(tab[vn.ino := vn], saved, files[vn.ino := f])
  {
    var tab', files' := tab[vn.ino := vn], files[vn.ino := f];
    assert saved.Keys == files'.Keys;
    forall i | i in files' && i != vn.ino
      ensures Records(files'[i], Cur(tab', saved, i))
    {
      assert Records(files[i], Cur(tab, saved, i));
    }
  }

  lemma LoadedRecords(tab: map<nat, Vnode>, saved: map<nat, Inode>, files: Files, ino: nat)
    requires Mirrors(tab, saved, files) && ino in tab
    ensures ino in files && tab[ino].ino == ino && tab[ino].refs > 0 && Records(files[ino], tab[ino].inode)
    ensures !tab[ino].dirty ==> tab[ino].inode == saved[ino]
  {}

  // The files of v are still there in v', with the same bytes.
  ghost predicate SameContent(v: Vol, v': Vol) {
    && v'.files.Keys == v.files.Keys
    && forall i :: i in v.files ==> v'.Content(i) == v.Content(i)
  }

  // ---------- sfs_bmap: a direct slot gets a fresh block ----------

  ghost function AllocDirect(v: Vol, ino: nat, k: nat, b: Word): Vol
    requires ino in v.tab && ino in v.files && b < |v.disk| && b < |v.bits|
    requires k < |v.tab[ino].inode.direct| && k < |v.files[ino].bmap|
  {
    var vn, f := v.tab[ino], v.files[ino];
    v.(disk := v.disk[b := ZeroBlock], bits := v.bits[b := true],
       tab := v.tab[ino := vn.(inode := vn.inode.(direct := vn.inode.direct[k := b]), dirty := true)],
       owner := v.owner[b := RefData(ino, k)],
       files := v.files[ino := f.(bmap := f.bmap[k := b])])
  }

  lemma AllocDirectKeeps(v: Vol, ino: nat, k: nat, b: Word)
    requires v.Inv() && ino in v.tab && k < NDIRECT && b < v.nblocks && b !in v.owner
    requires ino in v.files && |v.tab[ino].inode.direct| == NDIRECT && |v.files[ino].bmap| == MAXBLOCKS
    requires v.files[ino].bmap[k] == 0 && b < |v.bits|
    ensures AllocDirect(v, ino, k, b).Inv()
  {
    WritePassive(v, b, ZeroBlock);
    GiveData(v.nblocks, v.bits, v.owner, v.files, ino, k, b);
    ChangeDirect(v.disk[b := ZeroBlock], v.files, ino, k, b);
    LoadedRecords(v.tab, v.saved, v.files, ino);
    RecordsDirect(v.files[ino], v.tab[ino].inode, k, b);
    var v' := AllocDirect(v, ino, k, b);
    ChangeVnode(v.tab, v.saved, v.files, v'.tab[ino], v'.files[ino]);
  }

  lemma RecordsDirect(f: File, c: Inode, k: nat, b: Word)
    requires Records(f, c) && k < NDIRECT
    ensures Records(f.(bmap := f.bmap[k := b]), c.(direct := c.direct[k := b]))
  {}

  // A direct slot is no business of the indirect blocks.
  lemma ChangeDirect(disk: seq<Block>, files: Files, ino: nat, k: nat, b: Word)
    requires Indirects(disk, files) && ino in files && k < NDIRECT && k < |files[ino].bmap|
    ensures Indirects(disk, files[ino := files[ino].(bmap := files[ino].bmap[k := b])])
  {
    assert files[ino].bmap[k := b][NDIRECT..] == files[ino].bmap[NDIRECT..];
  }

  lemma AllocDirectContent(v: Vol, ino: nat, k: nat, b: Word)
    requires Forward(v.owner, v.files) && ino in v.tab && ino in v.files && k < NDIRECT
    requires |v.tab[ino].inode.direct| == NDIRECT && v.files[ino].bmap[k] == 0
    requires 0 < b < |v.disk| && b < |v.bits| && b !in v.owner
    ensures SameContent(v, AllocDirect(v, ino, k, b))
  {
    HoleFilled(v.disk, v.owner, v.files, ino, k, b);
  }

  // A hole and a cleared block read the same.
  lemma HoleFilled(disk: seq<Block>, owner: Owners, files: Files, ino: nat, k: nat, b: Word)
    requires Forward(owner, files) && ino in files && k < MAXBLOCKS && files[ino].bmap[k] == 0
    requires 0 < b < |disk| && b !in owner
    ensures var files' := files[ino := files[ino].(bmap := files[ino].bmap[k := b])];
            forall i :: i in files ==> ContentOf(disk[b := ZeroBlock], files'[i]) == ContentOf(disk, files[i])
  {
    forall i | i in files
      ensures ContentOf(disk[b := ZeroBlock], files[i]) == ContentOf(disk, files[i])
    {
      WriteFreeContent(disk, owner, files, b, ZeroBlock, i);
    }
    var f := files[ino];
    assert ContentOf(disk[b := ZeroBlock], f.(bmap := f.bmap[k := b])) == ContentOf(disk[b := ZeroBlock], f);
  }

  // ---------- sfs_bmap: the file gets its indirect block ----------

  ghost function AllocIndirect(v: Vol, ino: nat, b: Word): Vol
    requires ino in v.tab && ino in v.files && b < |v.disk| && b < |v.bits|
  {
    var vn, f := v.tab[ino], v.files[ino];
    v.(disk := v.disk[b := ZeroBlock], bits := v.bits[b := true],
       tab := v.tab[ino := vn.(inode := vn.inode.(indirect := b), dirty := true)],
       owner := v.owner[b := RefIndirect(ino)],
       files := v.files[ino := f.(ind := b)])
  }

  lemma AllocIndirectKeeps(v: Vol, ino: nat, b: Word)
    requires v.Inv() && ino in v.tab && b < v.nblocks && b !in v.owner
    requires ino in v.files && v.files[ino].ind == 0 && b < |v.bits|
    ensures AllocIndirect(v, ino, b).Inv()
  {
    WritePassive(v, b, ZeroBlock);
    PassiveApart(v.nblocks, v.bits, v.owner, v.files, b);
    GiveIndirect(v.nblocks, v.bits, v.owner, v.files, ino, b);
    LoadedRecords(v.tab, v.saved, v.files, ino);
    FreshIndirect(v.disk, v.files, ino, b);
    var v' := AllocIndirect(v, ino, b);
    assert Records(v'.files[ino], v'.tab[ino].inode);
    ChangeVnode(v.tab, v.saved, v.files, v'.tab[ino], v'.files[ino]);
  }

  // A cleared indirect block says what no indirect block says: all holes.
  lemma FreshIndirect(disk: seq<Block>, files: Files, ino: nat, b: Word)
    requires Indirects(disk, files) && b < |disk| && forall i :: i in files ==> files[i].ind != b
    requires ino in files && files[ino].ind == 0
    ensures Indirects(disk[b := ZeroBlock], files[ino := files[ino].(ind := b)])
  {
    IndirectsFrame(disk, files, b, ZeroBlock);
  }

  lemma AllocIndirectContent(v: Vol, ino: nat, b: Word)
    requires Forward(v.owner, v.files) && ino in v.tab && ino in v.files
    requires b < |v.disk| && b < |v.bits| && b !in v.owner
    ensures SameContent(v, AllocIndirect(v, ino, b))
  {
    forall i | i in v.files
      ensures ContentOf(v.disk[b := ZeroBlock], v.files[i]) == ContentOf(v.disk, v.files[i])
    {
      WriteFreeContent(v.disk, v.owner, v.files, b, ZeroBlock, i);
    }
    var f := v.files[ino];
    assert ContentOf(v.disk[b := ZeroBlock], f.(ind := b)) == ContentOf(v.disk[b := ZeroBlock], f);
  }

  // ---------- sfs_bmap: a slot of the indirect block gets a fresh block ----------

  ghost function AllocSlot(v: Vol, ino: nat, j: nat, b: Word): Vol
    requires ino in v.files && b < |v.disk| && b < |v.bits| && j < DBPERIDB
    requires |v.files[ino].bmap| == MAXBLOCKS && v.files[ino].ind < |v.disk|
  {
    var f := v.files[ino];
    v.(disk := v.disk[b := ZeroBlock][f.ind := Pack(Unpack(v.disk[f.ind])[j := b])], bits := v.bits[b := true],
       owner := v.owner[b := RefData(ino, NDIRECT + j)],
       files := v.files[ino := f.(bmap := f.bmap[NDIRECT + j := b])])
  }

  // Rewriting an indirect block changes the block map of its owner only.
  lemma WriteIndirect(disk: seq<Block>, files: Files, ino: nat, x: Block, f: File)
    requires Indirects(disk, files) && ino in files && files[ino].ind != 0
    requires forall i :: i in files && i != ino ==> files[i].ind != files[ino].ind
    requires IndirectSlots(f, x) && f.ind == files[ino].ind
    ensures Indirects(disk[files[ino].ind := x], files[ino := f])
  {
    var disk', files' := disk[files[ino].ind := x], files[ino := f];
    forall i | i in files' && i != ino
      ensures BlockAt(disk', files[i].ind) == BlockAt(disk, files[i].ind)
    {
    }
  }

  lemma IndirectApart(n: nat, bits: seq<bool>, owner: Owners, files: Files, ino: nat)
    requires Struct(n, bits, owner, files) && ino in files && files[ino].ind != 0
    ensures forall i :: i in files ==> i != files[ino].ind && (i != ino ==> files[i].ind != files[ino].ind)
  {
    forall i | i in files
      ensures i != files[ino].ind
    {
      assert owner[i] == RefInode(i);
    }
  }

  lemma AllocSlotKeeps(v: Vol, ino: nat, j: nat, b: Word)
    requires v.Inv() && b < v.nblocks && b !in v.owner && b < |v.bits|
    requires ino in v.files && |v.files[ino].bmap| == MAXBLOCKS && j < DBPERIDB
    requires 0 < v.files[ino].ind < |v.disk| && v.files[ino].bmap[NDIRECT + j] == 0
    ensures AllocSlot(v, ino, j, b).Inv()
  {
    var f := v.files[ino];
    var x := Pack(Unpack(v.disk[f.ind])[j := b]);
    WritePassive(v, b, ZeroBlock);
    IndirectApart(v.nblocks, v.bits, v.owner, v.files, ino);
    InodesFrame(v.disk[b := ZeroBlock], v.saved, f.ind, x);
    SlotStored(f, v.disk[f.ind], j, b);
    WriteIndirect(v.disk[b := ZeroBlock], v.files, ino, x, f.(bmap := f.bmap[NDIRECT + j := b]));
    GiveData(v.nblocks, v.bits, v.owner, v.files, ino, NDIRECT + j, b);
    ChangeSlot(v.tab, v.saved, v.files, ino, j, b);
  }

  // An indirect slot is no business of the inode.
  lemma ChangeSlot(tab: map<nat, Vnode>, saved: map<nat, Inode>, files: Files, ino: nat, j: nat, b: Word)
    requires Mirrors(tab, saved, files) && ino in files && j < DBPERIDB && |files[ino].bmap| == MAXBLOCKS
    ensures Mirrors(tab, saved, files[ino := files[ino].(bmap := files[ino].bmap[NDIRECT + j := b])])
  {
    var files' := files[ino := files[ino].(bmap := files[ino].bmap[NDIRECT + j := b])];
    assert saved.Keys == files'.Keys;
    forall i | i in files'
      ensures Records(files'[i], Cur(tab, saved, i))
    {
      assert Records(files[i], Cur(tab, saved, i));
    }
  }

  lemma SlotStored(f: File, idb: Block, j: nat, b: Word)
    requires IndirectSlots(f, idb) && j < DBPERIDB
    ensures IndirectSlots(f.(bmap := f.bmap[NDIRECT + j := b]), Pack(Unpack(idb)[j := b]))
  {
    UnpackPack(Unpack(idb)[j := b]);
    assert f.bmap[NDIRECT + j := b][NDIRECT..] == f.bmap[NDIRECT..][j := b];
  }

  // No file's bytes live in an indirect block.
  lemma WriteIndirectContent(disk: seq<Block>, owner: Owners, files: Files, ino: nat, x: Block, i: nat)
    requires Forward(owner, files) && ino in files && 0 < files[ino].ind < |disk| && i in files
    ensures ContentOf(disk[files[ino].ind := x], files[i]) == ContentOf(disk, files[i])
  {
    assert owner[files[ino].ind] == RefIndirect(ino);
  }

  lemma AllocSlotContent(v: Vol, ino: nat, j: nat, b: Word)
    requires Forward(v.owner, v.files) && Backward(v.owner, v.files) && ino in v.files && j < DBPERIDB
    requires 0 < v.files[ino].ind < |v.disk| && v.files[ino].bmap[NDIRECT + j] == 0
    requires 0 < b < |v.disk| && b < |v.bits| && b !in v.owner
    ensures SameContent(v, AllocSlot(v, ino, j, b))
  {
    var v' := AllocSlot(v, ino, j, b);
    var disk1 := v.disk[b := ZeroBlock];
    HoleFilled(v.disk, v.owner, v.files, ino, NDIRECT + j, b);
    forall i | i in v.files
      ensures v'.Content(i) == ContentOf(disk1, v'.files[i])
    {
      SlotApart(v.owner, v.files, ino, NDIRECT + j, b, i);
    }
  }

  lemma SlotApart(owner: Owners, files: Files, ino: nat, k: nat, b: Word, i: nat)
    requires Forward(owner, files) && ino in files && files[ino].ind != 0 && b !in owner
    requires k < MAXBLOCKS && i in files
    ensures var files' := files[ino := files[ino].(bmap := files[ino].bmap[k := b])];
            forall m :: 0 <= m < MAXBLOCKS ==> files'[i].bmap[m] != files[ino].ind
  {
    assert owner[files[ino].ind] == RefIndirect(ino);
  }

  // ---------- writing one block of one file ----------

  ghost function WriteData(v: Vol, ino: nat, k: nat, x: Block): Vol
    requires ino in v.files && k < |v.files[ino].bmap| && v.files[ino].bmap[k] < |v.disk|
  {
    v.(disk := v.disk[v.files[ino].bmap[k] := x])
  }

  lemma WriteDataKeeps(v: Vol, ino: nat, k: nat, x: Block)
    requires v.Inv() && ino in v.files && k < MAXBLOCKS && |v.files[ino].bmap| == MAXBLOCKS
    requires 0 < v.files[ino].bmap[k] < |v.disk|
    ensures WriteData(v, ino, k, x).Inv()
    ensures forall i :: i in v.files ==>
              WriteData(v, ino, k, x).Content(i) == if i == ino then v.Content(ino)[k := x] else v.Content(i)
  {
    WritePassive(v, v.files[ino].bmap[k], x);
    forall i | i in v.files {
      WriteDataContent(v.disk, v.owner, v.files, ino, k, x, i);
    }
  }

  // ---------- inode fields other than the block map ----------

  ghost function SetVnode(v: Vol, vn: Vnode): Vol
    requires vn.ino in v.files
  {
    var f := v.files[vn.ino];
    v.(tab := v.tab[vn.ino := vn],
       files := v.files[vn.ino := f.(size := vn.inode.size, typ := vn.inode.typ, links := vn.inode.links)])
  }

  // Size, type, link count and reference count may change in memory as long
  // as the inode is marked dirty (or only the reference count changes).
  lemma SetVnodeKeeps(v: Vol, vn: Vnode)
    requires v.Inv() && vn.ino in v.tab && vn.ino in v.files && vn.refs > 0
    requires vn.inode.direct == v.tab[vn.ino].inode.direct && vn.inode.indirect == v.tab[vn.ino].inode.indirect
    requires vn.inode.waste == v.tab[vn.ino].inode.waste
    requires vn.dirty || (vn.inode == v.tab[vn.ino].inode && !v.tab[vn.ino].dirty)
    ensures SetVnode(v, vn).Inv()
    ensures SameContent(v, SetVnode(v, vn))
  {
    var v', ino := SetVnode(v, vn), vn.ino;
    ChangeMeta(v.nblocks, v.bits, v.owner, v.files, ino, v'.files[ino]);
    LoadedRecords(v.tab, v.saved, v.files, ino);
    RecordsMeta(v.files[ino], v.tab[ino].inode, vn.inode);
    ChangeVnode(v.tab, v.saved, v.files, vn, v'.files[ino]);
    MetaIndirects(v.disk, v.files, ino, v'.files[ino]);
  }

  lemma RecordsMeta(f: File, c: Inode, c': Inode)
    requires Records(f, c)
    requires c'.direct == c.direct && c'.indirect == c.indirect && c'.waste == c.waste
    ensures Records(f.(size := c'.size, typ := c'.typ, links := c'.links), c')
  {}

  lemma MetaIndirects(disk: seq<Block>, files: Files, ino: nat, f: File)
    requires Indirects(disk, files) && ino in files && f.ind == files[ino].ind && f.bmap == files[ino].bmap
    ensures Indirects(disk, files[ino := f])
    ensures forall i :: i in files ==> ContentOf(disk, files[ino := f][i]) == ContentOf(disk, files[i])
  {
    assert ContentOf(disk, f) == ContentOf(disk, files[ino]);
  }

  // ---------- sfs_sync_inode ----------

  ghost function SyncInode(v: Vol, ino: nat): Vol
    requires ino in v.tab && ino < |v.disk| && v.tab[ino].inode.Shape()
  {
    v.(disk := v.disk[ino := BlockOfInode(v.tab[ino].inode)],
       saved := v.saved[ino := v.tab[ino].inode],
       tab := v.tab[ino := v.tab[ino].(dirty := false)])
  }

  lemma InodeApart(n: nat, bits: seq<bool>, owner: Owners, files: Files, ino: nat)
    requires Struct(n, bits, owner, files) && ino in files
    ensures 0 < ino < n && ino < |bits| && bits[ino]
    ensures forall i :: i in files ==> files[i].ind != ino
    ensures forall i, k :: i in files && 0 <= k < MAXBLOCKS ==> files[i].bmap[k] != ino
  {
    assert owner[ino] == RefInode(ino);
  }

  lemma StoreAs(disk: seq<Block>, saved: map<nat, Inode>, b: nat, x: Block, c: Inode)
    requires Inodes(disk, saved) && b < |disk| && InodeOf(x) == c
    ensures Inodes(disk[b := x], saved[b := c])
  {}

  lemma StoreInode(disk: seq<Block>, saved: map<nat, Inode>, ino: nat, c: Inode)
    requires Inodes(disk, saved) && ino < |disk| && c.Shape()
    ensures Inodes(disk[ino := BlockOfInode(c)], saved[ino := c])
  {
    InodeRoundTrip(c);
    StoreAs(disk, saved, ino, BlockOfInode(c), c);
  }

  lemma SyncMirrors(tab: map<nat, Vnode>, saved: map<nat, Inode>, files: Files, ino: nat)
    requires Mirrors(tab, saved, files) && ino in tab
    ensures Mirrors(tab[ino := tab[ino].(dirty := false)], saved[ino := tab[ino].inode], files)
  {
    var tab', saved' := tab[ino := tab[ino].(dirty := false)], saved[ino := tab[ino].inode];
    assert saved'.Keys == files.Keys;
    forall i | i in files
      ensures Records(files[i], Cur(tab', saved', i))
    {
      assert Records(files[i], Cur(tab, saved, i));
    }
  }

  // No file's bytes live in an inode block.
  lemma WriteInodeContent(disk: seq<Block>, owner: Owners, files: Files, ino: nat, x: Block)
    requires Forward(owner, files) && ino in files && ino < |disk|
    ensures forall i :: i in files ==> ContentOf(disk[ino := x], files[i]) == ContentOf(disk, files[i])
  {
    assert owner[ino] == RefInode(ino);
  }

  lemma SyncInodeKeeps(v: Vol, ino: nat)
    requires v.Inv() && ino in v.tab && ino < |v.disk| && v.tab[ino].inode.Shape()
    ensures SyncInode(v, ino).Inv()
    ensures SameContent(v, SyncInode(v, ino))
  {
    var c := v.tab[ino].inode;
    LoadedRecords(v.tab, v.saved, v.files, ino);
    InodeApart(v.nblocks, v.bits, v.owner, v.files, ino);
    StoreInode(v.disk, v.saved, ino, c);
    IndirectsFrame(v.disk, v.files, ino, BlockOfInode(c));
    SyncMirrors(v.tab, v.saved, v.files, ino);
    WriteInodeContent(v.disk, v.owner, v.files, ino, BlockOfInode(c));
  }

  // ---------- sfs_makeobj: a free block becomes an inode ----------

  function ZeroFile(): File {
    File(0, 0, 0, 0, ZeroWords(MAXBLOCKS))
  }

  ghost function NewInode(v: Vol, b: nat): Vol
    requires b < |v.disk| && b < |v.bits|
  {
    v.(disk := v.disk[b := ZeroBlock], bits := v.bits[b := true], saved := v.saved[b := ZeroInode],
       owner := v.owner[b := RefInode(b)], files := v.files[b := ZeroFile()])
  }

  lemma ZeroInodeStored(disk: seq<Block>, saved: map<nat, Inode>, b: nat)
    requires Inodes(disk, saved) && b < |disk|
    ensures Inodes(disk[b := ZeroBlock], saved[b := ZeroInode])
  {
    InodeOfZero();
    StoreAs(disk, saved, b, ZeroBlock, ZeroInode);
  }

  lemma ZeroFileStored(disk: seq<Block>, files: Files, b: nat)
    requires Indirects(disk, files) && b < |disk|
    ensures Indirects(disk, files[b := ZeroFile()])
  {
    UnpackZero();
    assert ZeroFile().bmap[NDIRECT..] == ZeroWords(WORDS);
  }

  lemma NewMirrors(tab: map<nat, Vnode>, saved: map<nat, Inode>, files: Files, b: nat)
    requires Mirrors(tab, saved, files) && b !in files
    ensures Mirrors(tab, saved[b := ZeroInode], files[b := ZeroFile()])
  {
    var saved', files' := saved[b := ZeroInode], files[b := ZeroFile()];
    assert saved'.Keys == files'.Keys;
    assert Records(ZeroFile(), ZeroInode);
    forall i | i in files'
      ensures Records(files'[i], Cur(tab, saved', i))
    {
      if i != b {
        assert Records(files[i], Cur(tab, saved, i));
      }
    }
  }

  lemma ClearFreeContent(disk: seq<Block>, owner: Owners, files: Files, b: nat)
    requires Forward(owner, files) && b < |disk| && b !in owner
    ensures forall i :: i in files ==> ContentOf(disk[b := ZeroBlock], files[i]) == ContentOf(disk, files[i])
  {
    forall i | i in files {
      WriteFreeContent(disk, owner, files, b, ZeroBlock, i);
    }
  }

  lemma NewInodeKeeps(v: Vol, b: Word)
    requires v.Inv() && b < v.nblocks && b !in v.owner && b < |v.bits|
    ensures NewInode(v, b).Inv()
    ensures b !in v.files
  {
    PassiveApart(v.nblocks, v.bits, v.owner, v.files, b);
    GiveInode(v.nblocks, v.bits, v.owner, v.files, b, ZeroFile());
    ZeroInodeStored(v.disk, v.saved, b);
    IndirectsFrame(v.disk, v.files, b, ZeroBlock);
    ZeroFileStored(v.disk[b := ZeroBlock], v.files, b);
    NewMirrors(v.tab, v.saved, v.files, b);
  }

  lemma NewInodeContent(v: Vol, b: nat)
    requires Forward(v.owner, v.files) && b < |v.disk| && b < |v.bits| && b !in v.owner
    ensures forall i :: i in v.files ==> i != b && NewInode(v, b).Content(i) == v.Content(i)
  {
    ClearFreeContent(v.disk, v.owner, v.files, b);
  }

  // ---------- sfs_loadvnode and sfs_reclaim ----------

  ghost function Load(v: Vol, ino: nat): Vol
    requires ino in v.saved
  {
    v.(tab := v.tab[ino := Vnode(ino, v.saved[ino], false, 1)])
  }

  lemma LoadKeeps(v: Vol, ino: nat)
    requires v.Inv() && ino in v.saved && ino !in v.tab
    ensures Load(v, ino).Inv()
    ensures SameContent(v, Load(v, ino))
  {
    LoadMirrors(v.tab, v.saved, v.files, ino);
  }

  lemma LoadMirrors(tab: map<nat, Vnode>, saved: map<nat, Inode>, files: Files, ino: nat)
    requires Mirrors(tab, saved, files) && ino in saved && ino !in tab
    ensures Mirrors(tab[ino := Vnode(ino, saved[ino], false, 1)], saved, files)
  {
    assert Records(files[ino], Cur(tab, saved, ino));
    ChangeVnode(tab, saved, files, Vnode(ino, saved[ino], false, 1), files[ino]);
    assert files[ino := files[ino]] == files;
  }

  ghost function Drop(v: Vol, ino: nat): Vol {
    v.(tab := v.tab - {ino})
  }

  lemma DropMirrors(tab: map<nat, Vnode>, saved: map<nat, Inode>, files: Files, ino: nat)
    requires Mirrors(tab, saved, files) && ino in tab && !tab[ino].dirty
    ensures Mirrors(tab - {ino}, saved, files)
  {
    forall i | i in files
      ensures Records(files[i], Cur(tab - {ino}, saved, i))
    {
      assert Records(files[i], Cur(tab, saved, i));
    }
  }

  // A clean vnode can be forgotten: the disk says the same.
  lemma DropKeeps(v: Vol, ino: nat)
    requires v.Inv() && ino in v.tab && !v.tab[ino].dirty
    ensures Drop(v, ino).Inv()
    ensures SameContent(v, Drop(v, ino))
  {
    DropMirrors(v.tab, v.saved, v.files, ino);
  }

  ghost function FreeInode(v: Vol, ino: nat): Vol
    requires ino < |v.bits|
  {
    v.(tab := v.tab - {ino}, bits := v.bits[ino := false], saved := v.saved - {ino},
       owner := v.owner - {ino}, files := v.files - {ino})
  }

  lemma FreeMirrors(tab: map<nat, Vnode>, saved: map<nat, Inode>, files: Files, ino: nat)
    requires Mirrors(tab, saved, files)
    ensures Mirrors(tab - {ino}, saved - {ino}, files - {ino})
  {
    var tab', saved', files' := tab - {ino}, saved - {ino}, files - {ino};
    assert saved'.Keys == files'.Keys;
    forall i | i in files'
      ensures Records(files'[i], Cur(tab', saved', i))
    {
      assert Records(files[i], Cur(tab, saved, i));
    }
  }

  lemma FewerStored(disk: seq<Block>, saved: map<nat, Inode>, files: Files, ino: nat)
    requires Inodes(disk, saved) && Indirects(disk, files)
    ensures Inodes(disk, saved - {ino}) && Indirects(disk, files - {ino})
  {}

  lemma FreeInodeKeeps(v: Vol, ino: nat)
    requires v.Inv() && ino in v.files && ino != ROOT_LOCATION && ino < |v.bits|
    requires v.files[ino].ind == 0 && v.files[ino].bmap == ZeroWords(MAXBLOCKS)
    ensures FreeInode(v, ino).Inv()
  {
    TakeInode(v.nblocks, v.bits, v.owner, v.files, ino);
    FreeMirrors(v.tab, v.saved, v.files, ino);
    FewerStored(v.disk, v.saved, v.files, ino);
  }

  // ---------- what I/O on one file may do to the volume ----------

  // Only file ino may have changed: its bytes, its size and its holes. All
  // other files, the set of files and the loaded vnodes are as they were.
  ghost predicate Evolves(v: Vol, v': Vol, ino: nat) {
    && ino in v.files && ino in v.tab
    && v'.nblocks == v.nblocks && |v'.disk| == |v.disk| && v'.saved == v.saved
    && v'.files.Keys == v.files.Keys && v'.tab.Keys == v.tab.Keys
    && (forall i :: i in v.files && i != ino ==> v'.files[i] == v.files[i] && v'.Content(i) == v.Content(i))
    && (forall i :: i in v.tab && i != ino ==> v'.tab[i] == v.tab[i])
    && v'.tab[ino].refs == v.tab[ino].refs
    && v'.files[ino].typ == v.files[ino].typ && v'.files[ino].links == v.files[ino].links
    && StillMapped(v.files[ino], v'.files[ino])
  }

  // No mapped block is lost.
  ghost predicate StillMapped(f: File, f': File) {
    && |f.bmap| == |f'.bmap| == MAXBLOCKS
    && forall k :: 0 <= k < MAXBLOCKS && f.bmap[k] != 0 ==> f'.bmap[k] == f.bmap[k]
  }

  // Room was made in file ino, and no byte of any file changed.
  ghost predicate Grows(v: Vol, v': Vol, ino: nat) {
    Evolves(v, v', ino) && SameContent(v, v') && v'.files[ino].size == v.files[ino].size
  }

  lemma GrowsTwice(a: Vol, b: Vol, c: Vol, ino: nat)
    requires Grows(a, b, ino) && Grows(b, c, ino)
    ensures Grows(a, c, ino)
  {}

  lemma AllocDirectStep(v: Vol, ino: nat, k: nat, b: Word)
    requires v.Inv() && ino in v.tab && k < NDIRECT && 0 < b < v.nblocks && b !in v.owner && b < |v.bits|
    requires ino in v.files && |v.tab[ino].inode.direct| == NDIRECT && |v.files[ino].bmap| == MAXBLOCKS
    requires v.files[ino].bmap[k] == 0
    ensures AllocDirect(v, ino, k, b).Inv()
    ensures Grows(v, AllocDirect(v, ino, k, b), ino)
  {
    hide SfsVolume.Struct, Mirrors, Inodes, Indirects, Forward, ContentOf;
    AllocDirectKeeps(v, ino, k, b);
    InvForward(v);
    AllocDirectContent(v, ino, k, b);
  }

  lemma AllocIndirectStep(v: Vol, ino: nat, b: Word)
    requires v.Inv() && ino in v.tab && 0 < b < v.nblocks && b !in v.owner && b < |v.bits|
    requires ino in v.files && v.files[ino].ind == 0 && |v.files[ino].bmap| == MAXBLOCKS
    ensures AllocIndirect(v, ino, b).Inv()
    ensures Grows(v, AllocIndirect(v, ino, b), ino)
  {
    hide SfsVolume.Struct, Mirrors, Inodes, Indirects, Forward, ContentOf;
    AllocIndirectKeeps(v, ino, b);
    InvForward(v);
    AllocIndirectContent(v, ino, b);
  }

  lemma AllocSlotStep(v: Vol, ino: nat, j: nat, b: Word)
    requires v.Inv() && ino in v.tab && 0 < b < v.nblocks && b !in v.owner && b < |v.bits|
    requires ino in v.files && |v.files[ino].bmap| == MAXBLOCKS && j < DBPERIDB
    requires 0 < v.files[ino].ind < |v.disk| && v.files[ino].bmap[NDIRECT + j] == 0
    ensures AllocSlot(v, ino, j, b).Inv()
    ensures Grows(v, AllocSlot(v, ino, j, b), ino)
  {
    hide SfsVolume.Struct, Mirrors, Inodes, Indirects, Forward, Backward, ContentOf, Pack, Unpack;
    AllocSlotKeeps(v, ino, j, b);
    InvForward(v);
    AllocSlotContent(v, ino, j, b);
  }

  lemma InvForward(v: Vol)
    requires v.Inv()
    ensures Forward(v.owner, v.files) && Backward(v.owner, v.files) && v.nblocks <= |v.disk|
  {}
}
