/**
 sfs_truncate in kern/fs/sfs/sfs_vnode.c: which blocks it gives back, exactly,
 and that it keeps the volume invariant while doing so.
 */
module SfsTruncate {
  import opened Bytes
  import opened SfsVolume
  import opened SfsSteps
  import opened SfsFs
  import opened BitmapLib

  // The slots that survive truncation to blocklen blocks. The direct loop
  // drops slot i when i >= blocklen; the indirect loop drops slot k only when
  // blocklen < k, so it keeps one slot more.
  predicate Kept(blocklen: nat, k: nat) {
    if k < NDIRECT then k < blocklen else k <= blocklen
  }

  function CutMap(bmap: seq<Word>, blocklen: nat): (r: seq<Word>)
    ensures |r| == |bmap|
  {
    seq(|bmap|, k requires 0 <= k < |bmap| => if Kept(blocklen, k) then bmap[k] else 0)
  }

  // The data blocks among the first n slots that are given back.
  ghost function Gone(bmap: seq<Word>, blocklen: nat, n: nat): (g: set<nat>)
    requires n <= |bmap|
  {
    set k | 0 <= k < n && !Kept(blocklen, k) && bmap[k] != 0 :: bmap[k]
  }

  // The indirect block goes when no slot of it survives; for blocklen >= 142
  // the source does not look.
  ghost predicate IndirectGone(f: File, blocklen: nat) {
    && f.ind != 0 && blocklen < MAXBLOCKS - 1
    && forall k :: NDIRECT <= k < |f.bmap| ==> CutMap(f.bmap, blocklen)[k] == 0
  }

  ghost function AllGone(f: File, blocklen: nat): (g: set<nat>) {
    Gone(f.bmap, blocklen, |f.bmap|) + if IndirectGone(f, blocklen) then {f.ind} else {}
  }

  ghost function CutFile(f: File, blocklen: nat, len: Word): File {
    f.(size := len, ind := if IndirectGone(f, blocklen) then 0 else f.ind, bmap := CutMap(f.bmap, blocklen))
  }

  ghost function BitsWithout(bits: seq<bool>, gone: set<nat>): (r: seq<bool>)
    ensures |r| == |bits|
  {
    seq(|bits|, b requires 0 <= b < |bits| => bits[b] && b !in gone)
  }

  // The inode after truncation.
  ghost function CutInode(c: Inode, f: File, blocklen: nat, len: Word): Inode
    requires |f.bmap| == MAXBLOCKS
  {
    c.(size := len, indirect := CutFile(f, blocklen, len).ind, direct := CutMap(f.bmap, blocklen)[..NDIRECT])
  }

  ghost function Truncated(v: Vol, ino: nat, blocklen: nat, len: Word): Vol
    requires ino in v.files && ino in v.tab && |v.files[ino].bmap| == MAXBLOCKS && v.files[ino].ind < |v.disk|
  {
    var f, vn := v.files[ino], v.tab[ino];
    var f' := CutFile(f, blocklen, len);
    v.(disk := if f'.ind != 0 then v.disk[f.ind := Pack(f'.bmap[NDIRECT..])] else v.disk,
       bits := BitsWithout(v.bits, AllGone(f, blocklen)),
       tab := v.tab[ino := vn.(inode := CutInode(vn.inode, f, blocklen, len), dirty := true)],
       owner := v.owner - AllGone(f, blocklen),
       files := v.files[ino := f'])
  }

  // ---------- the invariant ----------

  lemma GoneIsOwn(owner: Owners, files: Files, ino: nat, blocklen: nat)
    requires Forward(owner, files) && ino in files
    ensures OnlyOf(owner, ino, AllGone(files[ino], blocklen))
  {}

  lemma CutWithout(owner: Owners, files: Files, ino: nat, blocklen: nat, len: Word)
    requires Forward(owner, files) && ino in files && 0 in owner && owner[0].RefSuper?
    ensures Without(CutFile(files[ino], blocklen, len), files[ino], AllGone(files[ino], blocklen))
  {
    var f := files[ino];
    var gone := AllGone(f, blocklen);
    forall k | 0 <= k < MAXBLOCKS
      ensures CutMap(f.bmap, blocklen)[k] == if f.bmap[k] in gone then 0 else f.bmap[k]
    {
      if f.bmap[k] != 0 {
        assert owner[f.bmap[k]] == RefData(ino, k);
        if !Kept(blocklen, k) {
          assert f.bmap[k] in Gone(f.bmap, blocklen, MAXBLOCKS);
        }
      }
    }
    if f.ind != 0 {
      assert owner[f.ind] == RefIndirect(ino);
    }
  }

  lemma CutRecords(f: File, c: Inode, blocklen: nat, len: Word)
    requires Records(f, c)
    ensures Records(CutFile(f, blocklen, len), CutInode(c, f, blocklen, len))
  {}

  lemma CutIndirects(disk: seq<Block>, files: Files, ino: nat, blocklen: nat, len: Word)
    requires Indirects(disk, files) && ino in files && |files[ino].bmap| == MAXBLOCKS
    requires files[ino].ind != 0 ==> forall i :: i in files && i != ino ==> files[i].ind != files[ino].ind
    ensures var f' := CutFile(files[ino], blocklen, len);
            var disk' := if f'.ind != 0 then disk[files[ino].ind := Pack(f'.bmap[NDIRECT..])] else disk;
            Indirects(disk', files[ino := f'])
  {
    var f := files[ino];
    var f' := CutFile(f, blocklen, len);
    if f'.ind != 0 {
      UnpackPack(f'.bmap[NDIRECT..]);
      WriteIndirect(disk, files, ino, Pack(f'.bmap[NDIRECT..]), f');
    } else {
      CutHoles(f, BlockAt(disk, f.ind), blocklen, len);
    }
  }

  lemma CutHoles(f: File, idb: Block, blocklen: nat, len: Word)
    requires IndirectSlots(f, idb) && (f.ind == 0 ==> idb == ZeroBlock)
    requires CutFile(f, blocklen, len).ind == 0
    ensures IndirectSlots(CutFile(f, blocklen, len), ZeroBlock)
  {
    var f' := CutFile(f, blocklen, len);
    UnpackZero();
    forall k | NDIRECT <= k < MAXBLOCKS
      ensures f'.bmap[k] == 0
    {
      if f.ind == 0 {
        assert f.bmap[k] == f.bmap[NDIRECT..][k - NDIRECT];
      }
    }
    assert f'.bmap[NDIRECT..] == ZeroWords(WORDS);
  }

  lemma TruncatedKeeps(v: Vol, ino: nat, blocklen: nat, len: Word)
    requires v.Inv() && ino in v.tab
    requires ino in v.files && |v.files[ino].bmap| == MAXBLOCKS && v.files[ino].ind < |v.disk|
    ensures Truncated(v, ino, blocklen, len).Inv()
  {
    hide SfsVolume.Struct, Mirrors, Inodes, Indirects, Forward, Backward, Marked, Fixed, Records, CutMap, Gone, Pack,
      Unpack;
    var v' := Truncated(v, ino, blocklen, len);
    var f := v.files[ino];
    var f' := CutFile(f, blocklen, len);
    StructFacts(v.nblocks, v.bits, v.owner, v.files);
    GoneIsOwn(v.owner, v.files, ino, blocklen);
    CutWithout(v.owner, v.files, ino, blocklen, len);
    TakeBlocks(v.nblocks, v.bits, v'.bits, v.owner, v.files, ino, f', AllGone(f, blocklen));
    LoadedRecords(v.tab, v.saved, v.files, ino);
    CutRecords(f, v.tab[ino].inode, blocklen, len);
    ChangeVnode(v.tab, v.saved, v.files, v'.tab[ino], f');
    if f.ind != 0 {
      IndirectApart(v.nblocks, v.bits, v.owner, v.files, ino);
    }
    CutIndirects(v.disk, v.files, ino, blocklen, len);
    if f'.ind != 0 {
      SavedKeys(v.tab, v.saved, v.files);
      InodesFrame(v.disk, v.saved, f.ind, Pack(f'.bmap[NDIRECT..]));
    }
  }

  lemma StructFacts(n: nat, bits: seq<bool>, owner: Owners, files: Files)
    requires Struct(n, bits, owner, files)
    ensures Forward(owner, files) && 0 in owner && owner[0].RefSuper?
  {}

  lemma SavedKeys(tab: map<nat, Vnode>, saved: map<nat, Inode>, files: Files)
    requires Mirrors(tab, saved, files)
    ensures saved.Keys == files.Keys
  {}

  // ---------- the contents ----------

  lemma TruncatedContent(v: Vol, ino: nat, blocklen: nat, len: Word)
    requires v.Inv() && ino in v.tab
    requires ino in v.files && |v.files[ino].bmap| == MAXBLOCKS && v.files[ino].ind < |v.disk|
    ensures var v' := Truncated(v, ino, blocklen, len);
            && (forall i :: i in v.files && i != ino ==> v'.Content(i) == v.Content(i))
            && forall k :: 0 <= k < MAXBLOCKS ==>
                 v'.Content(ino)[k] == if Kept(blocklen, k) then v.Content(ino)[k] else ZeroBlock
  {
    hide Vol.Inv, Forward, ContentOf, Pack, Unpack;
    var v', f := Truncated(v, ino, blocklen, len), v.files[ino];
    InvForward(v);
    if v'.files[ino].ind != 0 {
      var x := Pack(v'.files[ino].bmap[NDIRECT..]);
      forall i | i in v.files
        ensures ContentOf(v'.disk, v.files[i]) == v.Content(i)
      {
        WriteIndirectContent(v.disk, v.owner, v.files, ino, x, i);
      }
    }
    CutContent(v'.disk, f, blocklen, len);
  }

  lemma CutContent(disk: seq<Block>, f: File, blocklen: nat, len: Word)
    requires |f.bmap| == MAXBLOCKS
    ensures forall k :: 0 <= k < MAXBLOCKS ==>
              ContentOf(disk, CutFile(f, blocklen, len))[k] == if Kept(blocklen, k) then ContentOf(disk, f)[k]
                else ZeroBlock
  {}

  // ---------- what truncation releases ----------

  // Truncating to a length gives back every block at or past it, except that
  // a mapped block number blocklen in the indirect range stays: that is
  // exactly when it fails to.
  lemma TruncateReleasesTail(f: File, blocklen: nat, len: Word)
    requires |f.bmap| == MAXBLOCKS
    ensures (forall k :: blocklen <= k < MAXBLOCKS ==> CutFile(f, blocklen, len).bmap[k] == 0)
            <==> (blocklen < NDIRECT || blocklen >= MAXBLOCKS || f.bmap[blocklen] == 0)
  {
    var g := CutFile(f, blocklen, len).bmap;
    if NDIRECT <= blocklen < MAXBLOCKS {
      assert g[blocklen] == f.bmap[blocklen];
    }
  }

  // Truncating to zero empties the block map.
  lemma TruncateToZero(f: File)
    requires |f.bmap| == MAXBLOCKS
    ensures CutFile(f, 0, 0).bmap == ZeroWords(MAXBLOCKS) && CutFile(f, 0, 0).ind == 0
  {
    assert forall k :: 0 <= k < MAXBLOCKS ==> !Kept(0, k);
  }

  // ---------- the method ----------

  lemma NotGoneYet(owner: Owners, files: Files, ino: nat, blocklen: nat, n: nat)
    requires Forward(owner, files) && ino in files && n < MAXBLOCKS && files[ino].bmap[n] != 0
    ensures files[ino].bmap[n] !in Gone(files[ino].bmap, blocklen, n)
    ensures files[ino].bmap[n] in owner
  {
    assert owner[files[ino].bmap[n]] == RefData(ino, n);
  }

  // What bit b is worth after slot n has been given back or passed over.
  lemma GoneStep(bits: seq<bool>, bmap: seq<Word>, blocklen: nat, n: nat)
    requires n < |bmap| && bmap[n] < |bits|
    ensures BitsWithout(bits, Gone(bmap, blocklen, n + 1)) ==
            if !Kept(blocklen, n) && bmap[n] != 0
            then BitsWithout(bits, Gone(bmap, blocklen, n))[bmap[n] := false]
            else BitsWithout(bits, Gone(bmap, blocklen, n))
  {
    assert Gone(bmap, blocklen, n + 1) ==
           Gone(bmap, blocklen, n) + if !Kept(blocklen, n) && bmap[n] != 0 then {bmap[n] as nat} else {};
  }

  lemma NothingGone(bits: seq<bool>, bmap: seq<Word>, blocklen: nat)
    ensures BitsWithout(bits, Gone(bmap, blocklen, 0)) == bits
  {}

  lemma SlotFacts(v: Vol, ino: nat, blocklen: nat, n: nat)
    requires v.Inv() && ino in v.files && n < MAXBLOCKS
    ensures |v.files[ino].bmap| == MAXBLOCKS && v.files[ino].bmap[n] < |v.bits|
    ensures v.files[ino].bmap[n] != 0 ==>
              BitsWithout(v.bits, Gone(v.files[ino].bmap, blocklen, n))[v.files[ino].bmap[n]]
  {
    hide Gone;
    if v.files[ino].bmap[n] != 0 {
      NotGoneYet(v.owner, v.files, ino, blocklen, n);
    }
  }

  // Vnode vn after some of its direct slots were cleared.
  ghost predicate DirectIs(vn: Vnode, vn0: Vnode, direct: seq<Word>) {
    vn == vn0.(dirty := vn.dirty, inode := vn0.inode.(direct := direct))
  }

  // The freemap has lost exactly the blocks in `gone`.
  twostate predicate Freed(fs: Sfs, gone: set<nat>)
    requires old(fs.freemap.Valid())
    reads fs, fs.freemap.v
  {
    && fs.freemap.Valid()
    && MetaOk(fs.nblocks, fs.disk, fs.freemapdirty, fs.freemap.v[..])
    && fs.freemap.Bits() == BitsWithout(old(fs.freemap.Bits()), gone)
  }

  // The first loop of sfs_truncate: the direct blocks
  method CutDirect(fs: Sfs, ino: nat, blocklen: nat, ghost bmap: seq<Word>)
    requires fs.Valid() && ino in fs.svs && ino in fs.files && bmap == fs.files[ino].bmap && |bmap| == MAXBLOCKS
    modifies fs`svs, fs`freemapdirty, fs.freemap.v
    ensures Freed(fs, Gone(bmap, blocklen, NDIRECT))
    ensures ino in fs.svs && fs.svs == old(fs.svs)[ino := fs.svs[ino]]
    ensures DirectIs(fs.svs[ino], old(fs.svs)[ino], CutMap(bmap, blocklen)[..NDIRECT])
  {
    hide Vol.Inv, MetaOk, TableOk, Bitmap.Valid, Bitmap.Bits, BitsWithout, Gone;
    ghost var v0, vn0 := fs.V(), fs.svs[ino];
    LoadedFacts(v0, ino);
    fs.ValidSizes();
    NothingGone(v0.bits, bmap, blocklen);
    var i := 0;
    while i < NDIRECT
      invariant 0 <= i <= NDIRECT
      invariant Freed(fs, Gone(bmap, blocklen, i))
      invariant ino in fs.svs && fs.svs == v0.tab[ino := fs.svs[ino]]
      invariant DirectIs(fs.svs[ino], vn0, fs.svs[ino].inode.direct)
      invariant |fs.svs[ino].inode.direct| == NDIRECT
      invariant forall k :: 0 <= k < NDIRECT ==>
                  fs.svs[ino].inode.direct[k] == if k < i && !Kept(blocklen, k) then 0 else bmap[k]
    {
      SlotFacts(v0, ino, blocklen, i);
      GoneStep(v0.bits, bmap, blocklen, i);
      var block := fs.svs[ino].inode.direct[i];
      if i >= blocklen && block != 0 {
        MetaDirty(fs.nblocks, fs.disk, fs.freemapdirty, fs.freemap.v[..]);
        fs.Bfree(block);
        fs.svs := fs.svs[ino := fs.svs[ino].(inode := fs.svs[ino].inode.(direct := fs.svs[ino].inode.direct[i := 0]),
          dirty := true)];
      }
      i := i + 1;
    }
    assert fs.svs[ino].inode.direct == CutMap(bmap, blocklen)[..NDIRECT];
  }

  // A dirty freemap need not match the disk.
  lemma MetaDirty(nblocks: nat, disk: seq<Block>, dirty: bool, bytes: seq<bv8>)
    requires MetaOk(nblocks, disk, dirty, bytes)
    ensures forall bytes' :: MetaOk(nblocks, disk, true, bytes')
  {}

  // The second loop of sfs_truncate: the slots of the indirect block, held in
  // a buffer. v0 is the volume when truncation began.
  method CutSlots(fs: Sfs, idbuf0: seq<Word>, blocklen: nat, ghost v0: Vol, ghost ino: nat, ghost bmap: seq<Word>)
    returns (idbuf: seq<Word>, hasnonzero: bool, iddirty: bool)
    requires v0.Inv() && ino in v0.files && bmap == v0.files[ino].bmap && |bmap| == MAXBLOCKS &&
             idbuf0 == bmap[NDIRECT..]
    requires fs.freemap.Valid() && MetaOk(fs.nblocks, fs.disk, fs.freemapdirty, fs.freemap.v[..])
    requires fs.freemap.Bits() == BitsWithout(v0.bits, Gone(bmap, blocklen, NDIRECT))
    modifies fs`freemapdirty, fs.freemap.v
    ensures fs.freemap.Valid() && MetaOk(fs.nblocks, fs.disk, fs.freemapdirty, fs.freemap.v[..])
    ensures fs.freemap.Bits() == BitsWithout(v0.bits, Gone(bmap, blocklen, MAXBLOCKS))
    ensures idbuf == CutMap(bmap, blocklen)[NDIRECT..]
    ensures !hasnonzero <==> forall k :: NDIRECT <= k < MAXBLOCKS ==> CutMap(bmap, blocklen)[k] == 0
    ensures !iddirty ==> idbuf == idbuf0
  {
    hide Vol.Inv, MetaOk, Bitmap.Valid, Bitmap.Bits, BitsWithout, Gone;
    idbuf, hasnonzero, iddirty := idbuf0, false, false;
    var baseblock := NDIRECT;
    ghost var seen := 0;
    var j := 0;
    while j < DBPERIDB
      invariant 0 <= j <= DBPERIDB && |idbuf| == DBPERIDB
      invariant fs.freemap.Valid() && MetaOk(fs.nblocks, fs.disk, fs.freemapdirty, fs.freemap.v[..])
      invariant fs.freemap.Bits() == BitsWithout(v0.bits, Gone(bmap, blocklen, NDIRECT + j))
      invariant forall k :: 0 <= k < DBPERIDB ==>
                  idbuf[k] == if k < j && !Kept(blocklen, NDIRECT + k) then 0 else bmap[NDIRECT + k]
      invariant hasnonzero ==> 0 <= seen < j && idbuf[seen] != 0
      invariant !hasnonzero ==> forall k :: 0 <= k < j ==> idbuf[k] == 0
      invariant !iddirty ==> idbuf == idbuf0
    {
      SlotFacts(v0, ino, blocklen, NDIRECT + j);
      GoneStep(v0.bits, bmap, blocklen, NDIRECT + j);
      if blocklen < baseblock + j && idbuf[j] != 0 {
        MetaDirty(fs.nblocks, fs.disk, fs.freemapdirty, fs.freemap.v[..]);
        fs.Bfree(idbuf[j]);
        idbuf := idbuf[j := 0];
        iddirty := true;
      }
      if idbuf[j] != 0 {
        hasnonzero, seen := true, j;
      }
      j := j + 1;
    }
    SlotsCut(bmap, idbuf, blocklen);
  }

  lemma SlotsCut(bmap: seq<Word>, idbuf: seq<Word>, blocklen: nat)
    requires |bmap| == MAXBLOCKS && |idbuf| == DBPERIDB
    requires forall k :: 0 <= k < DBPERIDB ==> idbuf[k] == if !Kept(blocklen, NDIRECT + k) then 0 else bmap[NDIRECT + k]
    ensures idbuf == CutMap(bmap, blocklen)[NDIRECT..]
    ensures (forall k :: 0 <= k < DBPERIDB ==> idbuf[k] == 0) <==>
            (forall k :: NDIRECT <= k < MAXBLOCKS ==> CutMap(bmap, blocklen)[k] == 0)
  {
    var g := CutMap(bmap, blocklen);
    if forall k :: 0 <= k < DBPERIDB ==> idbuf[k] == 0 {
      forall k | NDIRECT <= k < MAXBLOCKS
        ensures g[k] == 0
      {
        assert g[k] == idbuf[k - NDIRECT];
      }
    }
    if forall k :: NDIRECT <= k < MAXBLOCKS ==> g[k] == 0 {
      forall k | 0 <= k < DBPERIDB
        ensures idbuf[k] == 0
      {
        assert idbuf[k] == g[NDIRECT + k];
      }
    }
  }

  // When the source leaves the indirect block alone, nothing in it was to go.
  lemma NothingInIndirect(f: File, blocklen: nat)
    requires |f.bmap| == MAXBLOCKS && (f.ind == 0 || blocklen >= MAXBLOCKS - 1)
    requires forall k :: NDIRECT <= k < MAXBLOCKS ==> Kept(blocklen, k) || f.bmap[k] == 0
    ensures !IndirectGone(f, blocklen)
    ensures AllGone(f, blocklen) == Gone(f.bmap, blocklen, NDIRECT)
    ensures CutMap(f.bmap, blocklen)[NDIRECT..] == f.bmap[NDIRECT..]
  {}

  lemma IndirectUntouched(v: Vol, ino: nat, blocklen: nat)
    requires v.Inv() && ino in v.files && |v.files[ino].bmap| == MAXBLOCKS
    requires blocklen >= MAXBLOCKS - 1 || v.files[ino].ind == 0
    ensures !IndirectGone(v.files[ino], blocklen)
    ensures AllGone(v.files[ino], blocklen) == Gone(v.files[ino].bmap, blocklen, NDIRECT)
    ensures v.files[ino].ind != 0 ==>
              v.files[ino].ind < |v.disk| &&
                v.disk[v.files[ino].ind] == Pack(CutMap(v.files[ino].bmap, blocklen)[NDIRECT..])
  {
    hide Vol.Inv, IndirectGone, AllGone, Gone, CutMap, Pack, Unpack;
    var f := v.files[ino];
    forall k | NDIRECT <= k < MAXBLOCKS
      ensures Kept(blocklen, k) || f.bmap[k] == 0
    {
      NoIndirect(v, ino, k - NDIRECT);
    }
    NothingInIndirect(f, blocklen);
    if f.ind != 0 {
      IndirectFacts(v, ino);
      PackUnpack(v.disk[f.ind]);
    }
  }

  lemma IndirectNotData(owner: Owners, files: Files, ino: nat, blocklen: nat)
    requires Forward(owner, files) && ino in files && files[ino].ind != 0
    ensures files[ino].ind as nat !in Gone(files[ino].bmap, blocklen, MAXBLOCKS)
  {
    assert owner[files[ino].ind] == RefIndirect(ino);
  }

  // The bits after the indirect block has gone too.
  lemma IndirectBit(v: Vol, ino: nat, blocklen: nat)
    requires v.Inv() && ino in v.files && |v.files[ino].bmap| == MAXBLOCKS && v.files[ino].ind != 0
    ensures var f := v.files[ino];
            var bits := BitsWithout(v.bits, Gone(f.bmap, blocklen, MAXBLOCKS));
            && f.ind < |v.bits| && bits[f.ind]
            && BitsWithout(v.bits, AllGone(f, blocklen)) == if IndirectGone(f, blocklen) then bits[f.ind := false]
               else bits
  {
    hide Vol.Inv, IndirectGone, Gone, Forward;
    var f := v.files[ino];
    IndirectFacts(v, ino);
    BlockMarked(v, f.ind);
    InvForward(v);
    IndirectNotData(v.owner, v.files, ino, blocklen);
  }

  // The part of sfs_truncate that deals with the indirect block
  method CutIndirect(fs: Sfs, ino: nat, blocklen: nat, ghost v0: Vol, ghost f: File)
    requires v0.Inv() && ino in v0.files && f == v0.files[ino] && |f.bmap| == MAXBLOCKS
    requires fs.freemap.Valid() && MetaOk(fs.nblocks, fs.disk, fs.freemapdirty, fs.freemap.v[..])
    requires fs.freemap.Bits() == BitsWithout(v0.bits, Gone(f.bmap, blocklen, NDIRECT))
    requires fs.disk == v0.disk && fs.nblocks == v0.nblocks && |fs.freemap.v[..]| == BLOCKSIZE * BitBlocks(fs.nblocks)
    requires ino in fs.svs && fs.svs[ino].inode.indirect == f.ind
    modifies fs`svs, fs`disk, fs`freemapdirty, fs.freemap.v
    ensures fs.freemap.Valid() && MetaOk(fs.nblocks, fs.disk, fs.freemapdirty, fs.freemap.v[..])
    ensures fs.freemap.Bits() == BitsWithout(v0.bits, AllGone(f, blocklen))
    ensures ino in fs.svs && fs.svs == old(fs.svs)[ino := fs.svs[ino]]
    ensures fs.svs[ino] == old(fs.svs)[ino].(dirty := fs.svs[ino].dirty,
              inode := old(fs.svs)[ino].inode.(indirect := if IndirectGone(f, blocklen) then 0 else f.ind))
    ensures fs.disk == if f.ind != 0 && !IndirectGone(f, blocklen)
                       then v0.disk[f.ind := Pack(CutMap(f.bmap, blocklen)[NDIRECT..])] else v0.disk
  {
    hide Vol.Inv, MetaOk, Bitmap.Valid, Bitmap.Bits, BitsWithout, Gone, AllGone, CutMap, Pack, Unpack;
    var idblock := fs.svs[ino].inode.indirect;
    var highblock := NDIRECT + DBPERIDB - 1;
    if blocklen < highblock && idblock != 0 {
      IndirectFacts(v0, ino);
      IndirectBit(v0, ino, blocklen);
      var idbuf0 := Unpack(fs.disk[idblock]);
      PackUnpack(fs.disk[idblock]);
      var idbuf, hasnonzero, iddirty := CutSlots(fs, idbuf0, blocklen, v0, ino, f.bmap);
      if !hasnonzero {
        MetaDirty(fs.nblocks, fs.disk, fs.freemapdirty, fs.freemap.v[..]);
        fs.Bfree(idblock);
        fs.svs := fs.svs[ino := fs.svs[ino].(inode := fs.svs[ino].inode.(indirect := 0), dirty := true)];
      } else if iddirty {
        MetaFrame(fs.nblocks, fs.disk, fs.freemapdirty, fs.freemap.v[..], idblock, Pack(idbuf));
        fs.disk := fs.disk[idblock := Pack(idbuf)];
      }
    } else {
      IndirectUntouched(v0, ino, blocklen);
    }
  }

  // DIVROUNDUP(len, SFS_BLOCKSIZE), a signed sum and division, stored in an
  // unsigned word
  function BlockLen(len: Word): nat {
    var x := OffT(len) + BLOCKSIZE - 1;
    var y := if x < 0x8000_0000 then x else x - 0x1_0000_0000;
    if y >= 0 then y / BLOCKSIZE else (0x1_0000_0000 - (-y) / BLOCKSIZE) % 0x1_0000_0000
  }

  // The length in blocks rounds up, except that a length from -1022 to -1
  // counts as none, and a lower one, or one within 511 of the largest, as
  // more blocks than a file can have.
  lemma BlockLenCases(len: Word)
    ensures 0 <= OffT(len) < 0x8000_0000 - (BLOCKSIZE - 1) ==> BlockLen(len) == (len + BLOCKSIZE - 1) / BLOCKSIZE
    ensures -2 * (BLOCKSIZE - 1) <= OffT(len) <= 0 ==> BlockLen(len) == 0
    ensures OffT(len) < -2 * (BLOCKSIZE - 1) || OffT(len) >= 0x8000_0000 - (BLOCKSIZE - 1) ==> BlockLen(len) > MAXBLOCKS
  {}

  // sfs_truncate
  method Truncate(fs: Sfs, ino: nat, len: Word)
    requires fs.Valid() && ino in fs.svs
    requires ino in fs.files && |fs.files[ino].bmap| == MAXBLOCKS && fs.files[ino].ind < |fs.disk|
    modifies fs, fs.freemap.v
    ensures fs.Valid()
    ensures fs.V() == Truncated(old(fs.V()), ino, BlockLen(len), len)
    ensures ino in fs.files && fs.files[ino].size == len && ino in fs.svs && fs.svs[ino].inode.size == len
  {
    hide Vol.Inv, MetaOk, TableOk, Bitmap.Valid, Bitmap.Bits, BitsWithout, Gone, AllGone, IndirectGone, CutMap, Pack,
      Unpack, Truncated;
    var blocklen := BlockLen(len);
    ghost var v0, f, vn0 := fs.V(), fs.files[ino], fs.svs[ino];
    LoadedFacts(v0, ino);
    fs.ValidSizes();
    TruncatedKeeps(v0, ino, blocklen, len);
    CutDirect(fs, ino, blocklen, f.bmap);
    CutIndirect(fs, ino, blocklen, v0, f);
    fs.svs := fs.svs[ino := fs.svs[ino].(inode := fs.svs[ino].inode.(size := len), dirty := true)];
    fs.owner := fs.owner - AllGone(f, blocklen);
    fs.files := fs.files[ino := CutFile(f, blocklen, len)];
    assert fs.svs[ino] == vn0.(inode := CutInode(vn0.inode, f, blocklen, len), dirty := true);
    assert fs.svs.Keys == v0.tab.Keys;
    IsTruncated(v0, fs.V(), ino, blocklen, len);
  }

  lemma IsTruncated(v: Vol, v': Vol, ino: nat, blocklen: nat, len: Word)
    requires ino in v.files && ino in v.tab && |v.files[ino].bmap| == MAXBLOCKS && v.files[ino].ind < |v.disk|
    requires var f, vn := v.files[ino], v.tab[ino];
             var f' := CutFile(f, blocklen, len);
             && v'.disk == (if f'.ind != 0 then v.disk[f.ind := Pack(f'.bmap[NDIRECT..])] else v.disk)
             && v'.bits == BitsWithout(v.bits, AllGone(f, blocklen))
             && v'.tab == v.tab[ino := vn.(inode := CutInode(vn.inode, f, blocklen, len), dirty := true)]
             && v'.owner == v.owner - AllGone(f, blocklen) && v'.files == v.files[ino := f']
    requires v'.nblocks == v.nblocks && v'.saved == v.saved
    ensures v' == Truncated(v, ino, blocklen, len)
  {
    hide BitsWithout, AllGone, IndirectGone, CutMap, Pack;
  }
}
