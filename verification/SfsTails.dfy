/**
 What truncation in kern/fs/sfs/sfs_vnode.c leaves behind: the bytes past the
 new length that come back when the file grows again, exactly, and a run from
 a fresh filesystem in which a block past the new length stays mapped.
 */
module SfsTails {
  import opened Bytes
  import opened Errno
  import opened SfsVolume
  import opened SfsSpace
  import opened SfsFs
  import opened SfsIo
  import opened SfsTruncate
  import opened SfsDirectory
  import opened SfsDirIo
  import opened SfsOps
  import opened SfsRuns
  import opened SfsMount
  import opened Mksfs
  import opened BitmapLib
  import opened UioLib

  // ---------- bytes past the end ----------

  // The flat image after truncation: the blocks that stay, stay whole.
  lemma TruncatedBytes(v: Vol, ino: nat, len: Word, j: nat)
    requires v.Inv() && ino in v.tab && j < FILEMAX
    requires ino in v.files && |v.files[ino].bmap| == MAXBLOCKS && v.files[ino].ind < |v.disk|
    ensures Flat(Truncated(v, ino, BlockLen(len), len).Content(ino))[j] ==
            if Kept(BlockLen(len), j / BLOCKSIZE) then Flat(v.Content(ino))[j] else 0
  {
    hide Vol.Inv, ContentOf, CutMap, AllGone, IndirectGone, BitsWithout, Pack, Kept, BlockLen;
    TruncatedContent(v, ino, BlockLen(len), len);
    assert j / BLOCKSIZE < MAXBLOCKS;
  }

  // The first byte at or past len that truncation to len bytes clears: the
  // end of the block len falls in, or of the next one where the indirect loop
  // keeps one more.
  function TailEnd(len: Word): nat {
    BLOCKSIZE * (BlockLen(len) + if NDIRECT <= BlockLen(len) < MAXBLOCKS then 1 else 0)
  }

  lemma KeptIsTail(len: Word, j: nat)
    requires len <= j < FILEMAX
    ensures Kept(BlockLen(len), j / BLOCKSIZE) <==> j < TailEnd(len)
  {
    var q, r := j / BLOCKSIZE, j % BLOCKSIZE;
    assert j == BLOCKSIZE * q + r;
    BlockLenCases(len);
    assert BLOCKSIZE * BlockLen(len) < len + BLOCKSIZE;
  }

  // After truncation, everything past the new length reads as zero if and
  // only if the bytes from there to TailEnd were zero before.
  lemma TailReadsZero(v: Vol, ino: nat, len: Word)
    requires v.Inv() && ino in v.tab
    requires ino in v.files && |v.files[ino].bmap| == MAXBLOCKS && v.files[ino].ind < |v.disk|
    ensures var after, before := Flat(Truncated(v, ino, BlockLen(len), len).Content(ino)), Flat(v.Content(ino));
            (forall j :: len <= j < FILEMAX ==> after[j] == 0) <==>
            (forall j :: len <= j < FILEMAX && j < TailEnd(len) ==> before[j] == 0)
  {
    hide Vol.Inv, ContentOf, CutMap, AllGone, IndirectGone, BitsWithout, Pack, Kept, BlockLen, TailEnd, Flat;
    forall j | len <= j < FILEMAX
      ensures Flat(Truncated(v, ino, BlockLen(len), len).Content(ino))[j] == if j < TailEnd(len)
              then Flat(v.Content(ino))[j] else 0
    {
      TruncatedBytes(v, ino, len, j);
      KeptIsTail(len, j);
    }
  }

  // A later write at o past the new length makes the file longer, and what
  // lies between the two are the old bytes up to TailEnd, then zeros.
  lemma GrownShowsTail(v: Vol, v2: Vol, ino: nat, len: Word, mem: seq<Byte>, base: nat, o: nat, t: nat, j: nat)
    requires v.Inv() && ino in v.tab
    requires ino in v.files && |v.files[ino].bmap| == MAXBLOCKS && v.files[ino].ind < |v.disk|
    requires Performed(Truncated(v, ino, BlockLen(len), len), v2, ino, true, mem, mem, base, o, t) && t > 0
    requires len <= j < o
    ensures ino in v2.files && v2.files[ino].size == o + t <= FILEMAX && |v2.files[ino].bmap| == MAXBLOCKS
    ensures Flat(v2.Content(ino))[j] == if j < TailEnd(len) then Flat(v.Content(ino))[j] else 0
  {
    hide Vol.Inv, ContentOf, Kept, BlockLen, TailEnd, Flat, CutMap, AllGone, IndirectGone, BitsWithout, Pack;
    TruncatedBytes(v, ino, len, j);
    KeptIsTail(len, j);
  }

  // A negative length is not refused: nothing can be read any more, and the
  // blocks are given back from -1022 on and kept below.
  lemma TruncatedBelowZero(f: File, len: Word, o: nat, n: nat)
    requires |f.bmap| == MAXBLOCKS && OffT(len) < 0
    ensures var f' := CutFile(f, BlockLen(len), len);
            && Wanted(false, n, o, OffT(f'.size)) == 0
            && f'.bmap == if OffT(len) >= -2 * (BLOCKSIZE - 1) then ZeroWords(MAXBLOCKS) else f.bmap
  {
    hide BlockLen;
    BlockLenCases(len);
  }

  // ---------- what stays ----------

  // A read of a whole file is its image up to its size.
  lemma ReadsImage(v: Vol, v': Vol, ino: nat, n: nat, mem': seq<Byte>)
    requires Performed(v, v', ino, false, Zeros(n), mem', 0, 0, n)
    ensures ino in v.files && |v.files[ino].bmap| == MAXBLOCKS && n <= FILEMAX && mem' == Flat(v.Content(ino))[..n]
  {
    hide ContentOf, Flat;
    if n > 0 {
      SpliceWhole(Zeros(n), Flat(v.Content(ino))[0..n]);
    }
  }

  lemma TruncatedPrefix(v: Vol, ino: nat, len: Word)
    requires v.Inv() && ino in v.tab && len <= FILEMAX
    requires ino in v.files && |v.files[ino].bmap| == MAXBLOCKS && v.files[ino].ind < |v.disk|
    ensures var v' := Truncated(v, ino, BlockLen(len), len);
            Flat(v'.Content(ino))[..len] == Flat(v.Content(ino))[..len]
  {
    hide Vol.Inv, ContentOf, CutMap, AllGone, IndirectGone, BitsWithout, Pack, Kept, BlockLen, Flat;
    forall j: nat | j < len
      ensures Flat(Truncated(v, ino, BlockLen(len), len).Content(ino))[j] == Flat(v.Content(ino))[j]
    {
      TruncatedBytes(v, ino, len, j);
      KeptBelow(len, j);
    }
  }

  lemma KeptBelow(len: Word, j: nat)
    requires j < len <= FILEMAX
    ensures Kept(BlockLen(len), j / BLOCKSIZE)
  {
    BlockLenCases(len);
  }

  // Truncating a file to no more than it holds and reading it from the start
  // gives exactly its first len bytes.
  method TruncateThenRead(fs: Sfs, ino: nat, len: Word) returns (data: seq<Byte>)
    requires Good(fs) && ino in fs.svs && ino != ROOT_LOCATION
    requires ino in fs.files && |fs.files[ino].bmap| == MAXBLOCKS && fs.files[ino].ind < |fs.disk|
    requires len <= fs.files[ino].size <= FILEMAX
    modifies fs, fs.freemap.v
    ensures Good(fs) && |data| == len && data == Flat(old(fs.V().Content(ino)))[..len]
  {
    hide Vol.Inv, MetaOk, TableOk, Bitmap.Valid, Bitmap.Bits, DirOff, Ents, Performed, Others, Flat, ContentOf,
      Finished, Truncated;
    TruncatedPrefix(fs.V(), ino, len);
    TruncateFile(fs, ino, len);
    ghost var v1 := fs.V();
    var u := new Uio(Zeros(len), 0, false);
    var err;
    ghost var t;
    err, t := FileIo(fs, ino, u);
    ReadsImage(v1, fs.V(), ino, len, u.mem);
    data := u.mem;
  }

  // ---------- a run ----------

  const TEN_K: Word := 10240

  lemma {:induction false} FreeAtLeast(bits: seq<bool>, lo: nat, m: nat)
    requires lo + m <= |bits| && forall b :: lo <= b < lo + m ==> !bits[b]
    ensures Free(bits) >= m
  {
    if m > 0 {
      var n := |bits| - 1;
      FreeAtLeast(bits[..n], lo, if lo + m <= n then m else m - 1);
    }
  }

  lemma FreshSpace(n: nat, bits: seq<bool>)
    requires 64 <= n && |bits| == BLOCKBITS * BitBlocks(n)
    requires forall b :: 0 <= b < |bits| ==> (bits[b] <==> Reserved(n, b))
    ensures Free(bits) >= 4
  {
    FreeAtLeast(bits, MAP_LOCATION + BitBlocks(n), 4);
  }

  // The first file of an empty directory
  lemma FirstName(free: nat, name: seq<Byte>, excl: bool)
    requires |name| + 1 <= NAMELEN && free >= 4
    ensures CreatResult(RootFile(), free, [], name, excl) == OK && !Used([], name)
    ensures LinkSlot([]) == 0 && SlotBlock(0) == 0 && Need(RootFile(), 0, 1) == 1
  {
    hide Holes;
    NeedOne(RootFile(), 0);
  }

  // The first indirect block of an empty file
  lemma FirstFar(f: File, free: nat)
    requires f.bmap == ZeroWords(MAXBLOCKS) && f.ind == 0 && free >= 2
    ensures IoResult(f, free, true, TEN_K, 1) == OK
  {
    hide Holes;
    NeedOne(f, 20);
  }

  // A byte that is not zero lies in a mapped block.
  lemma ByteIsMapped(v: Vol, ino: nat, j: nat)
    requires v.Inv() && ino in v.files && j < FILEMAX && |v.files[ino].bmap| == MAXBLOCKS
    requires Flat(v.Content(ino))[j] != 0
    ensures v.files[ino].bmap[j / BLOCKSIZE] != 0
  {
    hide Vol.Inv, ContentOf;
    ContentFacts(v, ino, j / BLOCKSIZE);
  }

  // A fresh filesystem, mounted, with its root open: at least four blocks
  // are free.
  method FreshMount(dev0: seq<Block>, volname: seq<Byte>) returns (fs: Sfs)
    requires 64 <= |dev0| && BitBlocks(|dev0|) <= MAXBITBLOCKS && |volname| < VOLNAME_SIZE
    ensures fresh(fs) && fresh(fs.freemap.v) && Good(fs) && Dir(fs.V()) == [] && ROOT_LOCATION in fs.svs
    ensures fs.files == map[ROOT_LOCATION := RootFile()] && Free(fs.V().bits) >= 4
  {
    hide Vol.Inv, MetaOk, TableOk, Bitmap.Valid, Bitmap.Bits, DirOff, Ents, PickedUp, Unpack, MapBytes, BitsOf, Free,
      Reserved;
    var ok, dev, saved, owner, files := Mkfs(dev0, volname);
    var err, mounted := Mount(dev, saved, owner, files);
    fs := mounted;
    ghost var v0 := fs.V();
    FreshSpace(|dev|, v0.bits);
    PickUp(fs, ROOT_LOCATION);
    PickedLoaded(v0, fs.V(), ROOT_LOCATION);
  }

  // On any fresh filesystem of 64 blocks or more: create a file, write one
  // byte at offset 10240, truncate to 10240 bytes, which is 20 blocks. The
  // byte and its block, number 20, are still there.
  method KeepsOneTooMany(dev0: seq<Block>, volname: seq<Byte>, name: seq<Byte>) returns (fs: Sfs, ino: Word)
    requires 64 <= |dev0| && BitBlocks(|dev0|) <= MAXBITBLOCKS && |volname| < VOLNAME_SIZE
    requires IsName(name) && |name| + 1 <= NAMELEN
    ensures fresh(fs) && Good(fs) && ino in fs.files && |fs.files[ino].bmap| == MAXBLOCKS
    ensures fs.files[ino].size == TEN_K == BLOCKSIZE * 20
    ensures fs.files[ino].bmap[20] != 0 && Flat(fs.V().Content(ino))[TEN_K] == 7
  {
    hide Vol.Inv, MetaOk, TableOk, Bitmap.Valid, Bitmap.Bits, DirOff, Ents, PickedUp, CreatAnswer, Created, Finished,
      Performed, Others, Truncated, ContentOf, Flat, Free, Used, NameAdded;
    fs := FreshMount(dev0, volname);
    ghost var v0 := fs.V();
    var err;
    err, ino := Creat(fs, name, true, []);
    ghost var v1 := fs.V();
    CreatedFirst(v0, v1, name, ino, err);
    var u := new Uio([7], TEN_K, true);
    ghost var t;
    err, t := FileIo(fs, ino, u);
    ghost var v2 := fs.V();
    WrittenFar(v1, v2, ino, u.mem, t, err);
    TruncateFile(fs, ino, TEN_K);
    CutKeeps(v2, ino);
  }

  lemma CreatedFirst(v: Vol, v': Vol, name: seq<Byte>, ino: nat, err: Err)
    requires v.files == map[ROOT_LOCATION := RootFile()] && Free(v.bits) >= 4 && |name| + 1 <= NAMELEN
    requires CreatAnswer(v, v', [], name, true, err) && (err == OK && !Used([], name) ==> Created(v, v', ino))
    ensures err == OK && ino != ROOT_LOCATION && ino in v'.files && ino in v'.tab
    ensures v'.files[ino].bmap == ZeroWords(MAXBLOCKS) && v'.files[ino].ind == 0 && v'.files[ino].size == 0
    ensures Free(v'.bits) >= 2
  {
    hide Free, Used, Need, LinkSlot, Others;
    FirstName(Free(v.bits), name, true);
  }

  lemma WrittenFar(v: Vol, v': Vol, ino: nat, mem': seq<Byte>, t: nat, err: Err)
    requires v'.Inv() && ino in v.files && ino in v.tab && Free(v.bits) >= 2
    requires v.files[ino].bmap == ZeroWords(MAXBLOCKS) && v.files[ino].ind == 0
    requires Performed(v, v', ino, true, [7], mem', 0, TEN_K, t) && Finished(v, v', ino, true, TEN_K, 1, err)
    requires err == OK ==> t == 1
    ensures ino in v'.files && |v'.files[ino].bmap| == MAXBLOCKS && v'.files[ino].ind < |v'.disk| && ino in v'.tab
    ensures v'.files[ino].bmap[20] != 0 && Flat(v'.Content(ino))[TEN_K] == 7
  {
    hide Vol.Inv, ContentOf, Flat, Free, Written, IoResult;
    FirstFar(v.files[ino], Free(v.bits));
    assert Flat(v'.Content(ino))[TEN_K] == [7][0..0 + t][0];
    ByteIsMapped(v', ino, TEN_K);
    LoadedFacts(v', ino);
  }

  lemma CutKeeps(v: Vol, ino: nat)
    requires v.Inv() && ino in v.tab && ino in v.files && |v.files[ino].bmap| == MAXBLOCKS &&
             v.files[ino].ind < |v.disk|
    ensures var v' := Truncated(v, ino, BlockLen(TEN_K), TEN_K);
            && ino in v'.files && |v'.files[ino].bmap| == MAXBLOCKS
            && v'.files[ino].size == TEN_K && v'.files[ino].bmap[20] == v.files[ino].bmap[20]
            && Flat(v'.Content(ino))[TEN_K] == Flat(v.Content(ino))[TEN_K]
  {
    hide Vol.Inv, ContentOf, Flat, AllGone, IndirectGone, BitsWithout, Pack;
    TruncatedBytes(v, ino, TEN_K, TEN_K);
  }
}
