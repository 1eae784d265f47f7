/**
 File I/O in kern/fs/sfs/sfs_vnode.c: a transfer of any length at any offset,
 done as a leading partial block, whole blocks and a trailing partial block,
 is one transfer on the file's flat byte image.
 */
module SfsIo {
  import opened Bytes
  import opened Errno
  import opened SfsVolume
  import opened SfsSteps
  import opened SfsSpace
  import opened SfsFs
  import opened BitmapLib
  import opened UioLib

  // The largest file the block map can describe.
  const FILEMAX := BLOCKSIZE * MAXBLOCKS

  // t bytes of file ino at offset o were moved to or from mem[base..]: the
  // flat image or the memory changed there and nowhere else, and no other
  // file changed at all.
  ghost predicate MovedBytes(v: Vol, v': Vol, ino: nat, write: bool, mem: seq<Byte>, mem': seq<Byte>, base: nat,
                             o: nat, t: nat) {
    && Evolves(v, v', ino)
    && |mem'| == |mem| && base + t <= |mem|
    && (!write ==> v' == v)
    && (write ==> mem' == mem)
    && if t == 0
       then mem' == mem && SameContent(v, v')
       else
         && o + t <= FILEMAX
         && if write
            then Flat(v'.Content(ino)) == Splice(Flat(v.Content(ino)), o, mem[base..base + t])
            else mem' == Splice(mem, base, Flat(v.Content(ino))[o..o + t])
  }

  ghost predicate Transfer(v: Vol, v': Vol, ino: nat, write: bool, mem: seq<Byte>, mem': seq<Byte>, base: nat, o: nat,
                           t: nat) {
    MovedBytes(v, v', ino, write, mem, mem', base, o, t) && v'.files[ino].size == v.files[ino].size
  }

  // What sfs_io leaves behind: the bytes moved, and for a write the size
  // raised to the end of what was written.
  ghost predicate Performed(v: Vol, v': Vol, ino: nat, write: bool, mem: seq<Byte>, mem': seq<Byte>, base: nat,
                            o: nat, t: nat) {
    && MovedBytes(v, v', ino, write, mem, mem', base, o, t)
    && v'.files[ino].size == if write && o + t > OffT(v.files[ino].size) then o + t else v.files[ino].size
  }

  // How many bytes a request for n bytes at offset o is for.
  function Wanted(write: bool, n: nat, o: nat, size: int): nat {
    if write then n else if o >= size then 0 else Min(n, size - o)
  }

  lemma TransferTwice(a: Vol, b: Vol, c: Vol, ino: nat, write: bool,
                      m0: seq<Byte>, m1: seq<Byte>, m2: seq<Byte>, base: nat, o: nat, t1: nat, t2: nat)
    requires Transfer(a, b, ino, write, m0, m1, base, o, t1)
    requires Transfer(b, c, ino, write, m1, m2, base + t1, o + t1, t2)
    ensures Transfer(a, c, ino, write, m0, m2, base, o, t1 + t2)
  {
    hide ContentOf, Flat, Splice;
    EvolvesTwice(a, b, c, ino);
    if t1 != 0 && t2 != 0 {
      if write {
        SpliceAppend(Flat(a.Content(ino)), o, m0, base, t1, t2);
      } else {
        SpliceAppend(m0, base, Flat(a.Content(ino)), o, t1, t2);
      }
    }
  }

  lemma EvolvesTwice(a: Vol, b: Vol, c: Vol, ino: nat)
    requires Evolves(a, b, ino) && Evolves(b, c, ino)
    ensures Evolves(a, c, ino)
  {
    hide ContentOf;
  }

  // Moving two adjacent pieces of src is moving them at once.
  lemma SpliceAppend(s: seq<Byte>, off: nat, src: seq<Byte>, lo: nat, a: nat, b: nat)
    requires lo + a + b <= |src| && off + a + b <= |s|
    ensures Splice(Splice(s, off, src[lo..lo + a]), off + a, src[lo + a..lo + a + b]) ==
            Splice(s, off, src[lo..lo + (a + b)])
  {
    SpliceAdjacent(s, off, src[lo..lo + a], src[lo + a..lo + a + b]);
    assert src[lo..lo + a] + src[lo + a..lo + a + b] == src[lo..lo + (a + b)];
  }

  lemma GrowsIsTransfer(v: Vol, v': Vol, ino: nat, write: bool, mem: seq<Byte>, base: nat, o: nat)
    requires Grows(v, v', ino) && base <= |mem| && (!write ==> v' == v)
    ensures Transfer(v, v', ino, write, mem, mem, base, o, 0)
  {}

  lemma GrowsEvolves(v: Vol, v': Vol, ino: nat)
    requires Grows(v, v', ino)
    ensures Evolves(v, v', ino) && ino in v.files && ino in v'.files
    ensures v'.files[ino].size == v.files[ino].size && v'.Content(ino) == v.Content(ino)
  {}

  lemma SpliceWhole(p: seq<Byte>, d: seq<Byte>)
    requires |d| == |p|
    ensures Splice(p, 0, d) == d
  {}

  // ---------- one block ----------

  lemma WriteDataStep(v: Vol, ino: nat, k: nat, x: Block)
    requires v.Inv() && ino in v.tab && ino in v.files && k < MAXBLOCKS && |v.files[ino].bmap| == MAXBLOCKS
    requires 0 < v.files[ino].bmap[k] < |v.disk|
    ensures WriteData(v, ino, k, x).Inv()
    ensures Evolves(v, WriteData(v, ino, k, x), ino)
    ensures WriteData(v, ino, k, x).Content(ino) == v.Content(ino)[k := x]
  {
    hide Vol.Inv, ContentOf;
    WriteDataKeeps(v, ino, k, x);
  }

  // Overwriting part of block k is overwriting part of the flat image.
  lemma WritePart(v: Vol, v': Vol, ino: nat, k: nat, off: nat, mem: seq<Byte>, base: nat, t: nat, q: seq<Byte>)
    requires Evolves(v, v', ino) && v'.files[ino].size == v.files[ino].size
    requires k < MAXBLOCKS && off + t <= BLOCKSIZE && base + t <= |mem| && q == mem[base..base + t]
    requires |v.Content(ino)| == MAXBLOCKS
    requires v'.Content(ino) == v.Content(ino)[k := Splice(v.Content(ino)[k], off, q)]
    ensures Transfer(v, v', ino, true, mem, mem, base, BLOCKSIZE * k + off, t)
  {
    hide ContentOf;
    FlatSplice(v.Content(ino), k, off, q);
    if t == 0 {
      assert Splice(v.Content(ino)[k], off, q) == v.Content(ino)[k];
      assert v'.Content(ino) == v.Content(ino);
    }
  }

  lemma ReadPart(v: Vol, ino: nat, k: nat, off: nat, mem: seq<Byte>, mem': seq<Byte>, base: nat, t: nat)
    requires Evolves(v, v, ino) && k < MAXBLOCKS && off + t <= BLOCKSIZE && base + t <= |mem|
    requires |v.Content(ino)| == MAXBLOCKS
    requires mem' == Splice(mem, base, v.Content(ino)[k][off..off + t])
    ensures Transfer(v, v, ino, false, mem, mem', base, BLOCKSIZE * k + off, t)
  {
    hide ContentOf;
    FlatSlice(v.Content(ino), k, off, t);
    if t == 0 {
      assert mem' == mem;
    }
  }

  lemma ContentFacts(v: Vol, ino: nat, k: nat)
    requires v.Inv() && ino in v.files && k < MAXBLOCKS
    ensures |v.files[ino].bmap| == MAXBLOCKS && |v.Content(ino)| == MAXBLOCKS
    ensures v.Content(ino)[k] == BlockAt(v.disk, v.files[ino].bmap[k])
    ensures v.files[ino].bmap[k] != 0 ==>
              && 0 < v.files[ino].bmap[k] < v.nblocks <= |v.disk|
              && !(MAP_LOCATION <= v.files[ino].bmap[k] < MAP_LOCATION + BitBlocks(v.nblocks))
  {
    if v.files[ino].bmap[k] != 0 {
      assert v.owner[v.files[ino].bmap[k]] == RefData(ino, k);
    }
  }

  // sfs_wblock onto disk block b, which is block k of file ino
  method WriteFileBlock(fs: Sfs, b: nat, x: Block, ghost ino: nat, ghost k: nat)
    requires fs.Valid() && ino in fs.svs && k < MAXBLOCKS
    requires ino in fs.files && |fs.files[ino].bmap| == MAXBLOCKS && b == fs.files[ino].bmap[k] != 0
    modifies fs`disk
    ensures fs.Valid() && Evolves(old(fs.V()), fs.V(), ino)
    ensures fs.V().Content(ino) == old(fs.V().Content(ino))[k := x]
  {
    hide Vol.Inv, ContentOf, MetaOk, TableOk, Evolves, Bitmap.Valid, Bitmap.Bits;
    ContentFacts(fs.V(), ino, k);
    WriteDataStep(fs.V(), ino, k, x);
    fs.ValidSizes();
    MetaFrame(fs.nblocks, fs.disk, fs.freemapdirty, fs.freemap.v[..], b, x);
    fs.disk := fs.disk[b := x];
    assert fs.V() == WriteData(old(fs.V()), ino, k, x);
  }

  // sfs_partialio: part of one block, read-modify-write
  method PartialIo(fs: Sfs, ino: nat, u: Uio, skip: nat, len: nat) returns (err: Err)
    requires fs.Valid() && ino in fs.svs && u.Valid()
    requires skip == u.offset % BLOCKSIZE && skip + len <= BLOCKSIZE && len <= u.resid
    modifies fs, fs.freemap.v, u
    ensures fs.Valid()
    ensures u.Advanced(if err == OK then len else 0)
    ensures Transfer(old(fs.V()), fs.V(), ino, u.write, old(u.mem), u.mem, old(u.base), old(u.offset),
            if err == OK then len else 0)
    ensures err != OK ==> Blocked(old(fs.V()), ino, u.write, old(u.offset) / BLOCKSIZE)
    ensures Answered(old(fs.V()), fs.V(), ino, u.write, old(u.offset) / BLOCKSIZE, old(u.offset) / BLOCKSIZE + 1, err)
  {
    hide Vol.Inv, ContentOf, MetaOk, TableOk, Evolves, Grows, Transfer, Bitmap.Valid, Bitmap.Bits, Flat, Splice,
      Mapped, Answered, Blocked;
    var doalloc := u.write;
    var fileblock := u.offset / BLOCKSIZE;
    ghost var v0 := fs.V();
    var diskblock;
    err, diskblock := fs.Bmap(ino, fileblock, doalloc);
    ghost var v1 := fs.V();
    AnsweredByBmap(v0, v1, ino, u.write, fileblock, err);
    GrowsIsTransfer(v0, v1, ino, u.write, u.mem, u.base, u.offset);
    if err != OK {
      return;
    }
    GrowsFacts(v0, v1, ino);
    ContentFacts(v1, ino, fileblock);
    var iobuf := BlockAt(fs.disk, diskblock);
    ghost var mem0, base0 := u.mem, u.base;
    var q := u.Move(iobuf[skip..skip + len]);
    if u.write {
      SpliceWhole(iobuf[skip..skip + len], mem0[base0..base0 + len]);
      WriteFileBlock(fs, diskblock, Splice(iobuf, skip, q), ino, fileblock);
      GrowsEvolves(v0, v1, ino);
      EvolvesTwice(v0, v1, fs.V(), ino);
      WritePart(v0, fs.V(), ino, fileblock, skip, mem0, base0, len, q);
      AnsweredAside(v0, v1, fs.V(), ino, u.write, fileblock, fileblock + 1, err);
    } else {
      assert iobuf[skip..skip + len][0..len] == iobuf[skip..skip + len];
      GrowsEvolves(v0, v1, ino);
      ReadPart(v0, ino, fileblock, skip, mem0, u.mem, base0, len);
    }
  }

  // sfs_rwblock on a reliable device: one block, addressed by the uio offset
  method DeviceIo(fs: Sfs, u: Uio, ghost ino: nat, ghost k: nat)
    requires fs.Valid() && ino in fs.svs && k < MAXBLOCKS && u.Valid()
    requires ino in fs.files && |fs.files[ino].bmap| == MAXBLOCKS && fs.files[ino].bmap[k] != 0
    requires u.offset == BLOCKSIZE * fs.files[ino].bmap[k] && u.resid == BLOCKSIZE
    modifies fs`disk, u
    ensures fs.Valid() && u.Advanced(BLOCKSIZE)
    ensures Transfer(old(fs.V()), fs.V(), ino, u.write, old(u.mem), u.mem, old(u.base), BLOCKSIZE * k, BLOCKSIZE)
  {
    hide Vol.Inv, ContentOf, MetaOk, TableOk, Evolves, Transfer, Bitmap.Valid, Bitmap.Bits, Flat, Splice;
    ghost var v0, mem0, base0 := fs.V(), u.mem, u.base;
    ContentFacts(v0, ino, k);
    EvolvesSelf(v0, ino);
    var b := u.offset / BLOCKSIZE;
    var buf: Block := fs.disk[b];
    var q := u.Move(buf);
    if u.write {
      SpliceWhole(buf, mem0[base0..base0 + BLOCKSIZE]);
      WriteFileBlock(fs, b, q, ino, k);
      SpliceWhole(v0.Content(ino)[k], q);
      WritePart(v0, fs.V(), ino, k, 0, mem0, base0, BLOCKSIZE, q);
    } else {
      assert buf[0..BLOCKSIZE] == buf;
      ReadPart(v0, ino, k, 0, mem0, u.mem, base0, BLOCKSIZE);
    }
  }

  // sfs_blockio: one whole block, straight between the device and the caller
  method BlockIo(fs: Sfs, ino: nat, u: Uio) returns (err: Err)
    requires fs.Valid() && ino in fs.svs && u.Valid()
    requires u.offset % BLOCKSIZE == 0 && u.resid >= BLOCKSIZE
    modifies fs, fs.freemap.v, u
    ensures fs.Valid()
    ensures u.Advanced(if err == OK then BLOCKSIZE else 0)
    ensures Transfer(old(fs.V()), fs.V(), ino, u.write, old(u.mem), u.mem, old(u.base), old(u.offset),
            if err == OK then BLOCKSIZE else 0)
    ensures err != OK ==> Blocked(old(fs.V()), ino, u.write, old(u.offset) / BLOCKSIZE)
    ensures Answered(old(fs.V()), fs.V(), ino, u.write, old(u.offset) / BLOCKSIZE, old(u.offset) / BLOCKSIZE + 1, err)
  {
    hide Vol.Inv, ContentOf, MetaOk, TableOk, Evolves, Grows, Transfer, Bitmap.Valid, Bitmap.Bits, Flat, Splice,
      Mapped, Answered, Blocked;
    var fileblock := u.offset / BLOCKSIZE;
    ghost var v0, mem0 := fs.V(), u.mem;
    var diskblock;
    err, diskblock := fs.Bmap(ino, fileblock, u.write);
    ghost var v1 := fs.V();
    AnsweredByBmap(v0, v1, ino, u.write, fileblock, err);
    GrowsIsTransfer(v0, v1, ino, u.write, u.mem, u.base, u.offset);
    if err != OK {
      return;
    }
    GrowsFacts(v0, v1, ino);
    ContentFacts(v1, ino, fileblock);
    if diskblock == 0 {
      assert !u.write;
      u.MoveZeros(BLOCKSIZE);
      EvolvesSelf(v1, ino);
      assert Zeros(BLOCKSIZE) == v1.Content(ino)[fileblock][0..BLOCKSIZE];
      ReadPart(v1, ino, fileblock, 0, mem0, u.mem, old(u.base), BLOCKSIZE);
      return;
    }
    var saveoff, diskoff := u.offset, diskblock * BLOCKSIZE;
    u.offset := diskoff;
    var saveres, diskres := u.resid, BLOCKSIZE;
    u.resid := diskres;
    DeviceIo(fs, u, ino, fileblock);
    u.offset := (u.offset - diskoff) + saveoff;
    u.resid := (u.resid - diskres) + saveres;
    TransferTwice(v0, v1, fs.V(), ino, u.write, mem0, mem0, u.mem, old(u.base), saveoff, 0, BLOCKSIZE);
    AnsweredAside(v0, v1, fs.V(), ino, u.write, fileblock, fileblock + 1, err);
  }

  lemma AnsweredByBmap(v: Vol, v': Vol, ino: nat, write: bool, k: nat, err: Err)
    requires v.Inv() && ino in v.tab && (err == EINVAL <==> k >= MAXBLOCKS) && (err == EINVAL ==> v' == v) &&
             (!write ==> err == OK || err == EINVAL)
    requires write && k < MAXBLOCKS ==> Mapped(v, v', ino, k, err)
    requires err == OK || err == EINVAL || (ino in v.files && k < |v.files[ino].bmap| ==> v.files[ino].bmap[k] == 0)
    ensures Answered(v, v', ino, write, k, k + 1, err) && (err != OK ==> Blocked(v, ino, write, k))
  {
    hide Vol.Inv, Mapped, Written;
    LoadedFacts(v, ino);
    if write && k < MAXBLOCKS {
      WrittenBlock(v, v', ino, k, err);
    } else if write {
      WrittenPast(v, ino, k);
    }
  }

  lemma EvolvesSelf(v: Vol, ino: nat)
    requires v.Inv() && ino in v.tab
    ensures Evolves(v, v, ino)
  {}

  // A file block that sfs_bmap can fail on.
  ghost predicate Blocked(v: Vol, ino: nat, write: bool, k: nat) {
    k >= MAXBLOCKS || (write && ino in v.files && k < |v.files[ino].bmap| && v.files[ino].bmap[k] == 0)
  }

  // The first block that a request for n bytes at offset o does not touch
  function EndBlock(o: nat, n: nat): nat {
    (o + n + BLOCKSIZE - 1) / BLOCKSIZE
  }

  // A request for n bytes that stopped short after t: it moved nothing or
  // ended on a block boundary, before a block that sfs_bmap can fail on.
  ghost predicate StoppedAt(v: Vol, ino: nat, write: bool, o: nat, n: nat, t: nat) {
    && (t < n || n == 0)
    && Blocked(v, ino, write, (o + t) / BLOCKSIZE)
    && (t == 0 || (o + t) % BLOCKSIZE == 0)
  }

  // A request for n bytes at offset o of file ino, of which t were moved
  // before the answer err.
  ghost predicate Phase(v: Vol, v': Vol, ino: nat, write: bool, mem: seq<Byte>, mem': seq<Byte>, base: nat,
                        o: nat, n: nat, t: nat, err: Err) {
    && Transfer(v, v', ino, write, mem, mem', base, o, t)
    && Answered(v, v', ino, write, o / BLOCKSIZE, EndBlock(o, n), err)
    && t <= n && (err == OK ==> t == n)
    && (err != OK ==> StoppedAt(v, ino, write, o, n, t))
  }

  lemma PhaseNothing(v: Vol, ino: nat, write: bool, mem: seq<Byte>, base: nat, o: nat)
    requires v.Inv() && ino in v.tab && o % BLOCKSIZE == 0 && base <= |mem|
    ensures Phase(v, v, ino, write, mem, mem, base, o, 0, 0, OK)
  {
    hide Vol.Inv, Transfer, Answered;
    LoadedFacts(v, ino);
    GrowsSelf(v, ino);
    GrowsIsTransfer(v, v, ino, write, mem, base, o);
    AnsweredNothing(v, ino, write, o / BLOCKSIZE);
  }

  // One block, all of it or part of it
  lemma PhaseBlock(v: Vol, v': Vol, ino: nat, write: bool, mem: seq<Byte>, mem': seq<Byte>, base: nat, o: nat, n: nat,
                   err: Err)
    requires Transfer(v, v', ino, write, mem, mem', base, o, if err == OK then n else 0)
    requires Answered(v, v', ino, write, o / BLOCKSIZE, o / BLOCKSIZE + 1, err)
    requires o % BLOCKSIZE + n <= BLOCKSIZE && (n > 0 || o % BLOCKSIZE > 0)
    requires err != OK ==> Blocked(v, ino, write, o / BLOCKSIZE)
    ensures Phase(v, v', ino, write, mem, mem', base, o, n, if err == OK then n else 0, err)
  {
    hide Transfer, Answered;
  }

  lemma PhaseTwice(a: Vol, b: Vol, c: Vol, ino: nat, write: bool, m0: seq<Byte>, m1: seq<Byte>, m2: seq<Byte>,
                   base: nat,
                   o: nat, n1: nat, n2: nat, t2: nat, err: Err)
    requires Phase(a, b, ino, write, m0, m1, base, o, n1, n1, OK)
    requires Phase(b, c, ino, write, m1, m2, base + n1, o + n1, n2, t2, err)
    requires (o + n1) % BLOCKSIZE == 0 && n2 > 0
    ensures Phase(a, c, ino, write, m0, m2, base, o, n1 + n2, n1 + t2, err)
  {
    hide Transfer, Answered;
    TransferTwice(a, b, c, ino, write, m0, m1, m2, base, o, n1, t2);
    TransferFacts(a, b, ino, write, m0, m1, base, o, n1);
    AnsweredTwice(a, b, c, ino, write, o / BLOCKSIZE, EndBlock(o, n1), EndBlock(o, n1 + n2), err);
  }

  // What stops part of a request stops the request.
  lemma PhaseStops(v: Vol, v': Vol, ino: nat, write: bool, mem: seq<Byte>, mem': seq<Byte>, base: nat,
                   o: nat, n: nat, more: nat, t: nat, err: Err)
    requires Phase(v, v', ino, write, mem, mem', base, o, n, t, err) && err != OK
    ensures Phase(v, v', ino, write, mem, mem', base, o, n + more, t, err)
  {
    hide Transfer, Answered;
    AnsweredStops(v, v', ino, write, o / BLOCKSIZE, EndBlock(o, n), EndBlock(o, n + more), err);
  }

  lemma PhaseFacts(v: Vol, v': Vol, ino: nat, write: bool, mem: seq<Byte>, mem': seq<Byte>, base: nat, o: nat, n: nat,
                   t: nat, err: Err)
    requires Phase(v, v', ino, write, mem, mem', base, o, n, t, err)
    ensures ino in v'.tab && |mem'| == |mem| && (err == OK ==> t == n)
  {
    hide Answered, StoppedAt;
  }

  // The middle of sfs_io: n whole blocks
  method IoBlocks(fs: Sfs, ino: nat, u: Uio, n: nat) returns (err: Err, ghost t: nat)
    requires fs.Valid() && ino in fs.svs && u.Valid()
    requires u.offset % BLOCKSIZE == 0 && u.resid >= n * BLOCKSIZE
    modifies fs, fs.freemap.v, u
    ensures fs.Valid() && u.Advanced(t)
    ensures Phase(old(fs.V()), fs.V(), ino, u.write, old(u.mem), u.mem, old(u.base), old(u.offset), n * BLOCKSIZE, t,
            err)
  {
    hide Vol.Inv, ContentOf, MetaOk, TableOk, Transfer, Phase, Bitmap.Valid, Bitmap.Bits, Answered;
    ghost var v0, mem0, base0, o := fs.V(), u.mem, u.base, u.offset;
    PhaseNothing(v0, ino, u.write, mem0, base0, o);
    t := 0;
    err := OK;
    var i := 0;
    while i < n
      invariant 0 <= i <= n && t == i * BLOCKSIZE && err == OK
      invariant fs.Valid() && u.Advanced(t) && ino in fs.svs
      invariant Phase(v0, fs.V(), ino, u.write, mem0, u.mem, base0, o, t, t, OK)
    {
      ghost var v1, mem1 := fs.V(), u.mem;
      err := BlockIo(fs, ino, u);
      ghost var m := if err == OK then BLOCKSIZE else 0;
      PhaseBlock(v1, fs.V(), ino, u.write, mem1, u.mem, base0 + t, o + t, BLOCKSIZE, err);
      PhaseTwice(v0, v1, fs.V(), ino, u.write, mem0, mem1, u.mem, base0, o, t, BLOCKSIZE, m, err);
      PhaseFacts(v0, fs.V(), ino, u.write, mem0, u.mem, base0, o, t + BLOCKSIZE, t + m, err);
      if err != OK {
        PhaseStops(v0, fs.V(), ino, u.write, mem0, u.mem, base0, o, t + BLOCKSIZE, (n - i - 1) * BLOCKSIZE, t, err);
        return;
      }
      t := t + m;
      i := i + 1;
    }
  }

  lemma TransferFacts(v: Vol, v': Vol, ino: nat, write: bool, mem: seq<Byte>, mem': seq<Byte>, base: nat, o: nat,
                      t: nat)
    requires Transfer(v, v', ino, write, mem, mem', base, o, t)
    ensures ino in v.files && ino in v.tab && ino in v'.files && ino in v'.tab && |mem'| == |mem|
    ensures |v.files[ino].bmap| == |v'.files[ino].bmap| == MAXBLOCKS && v'.files[ino].size == v.files[ino].size
    ensures t > 0 ==> o + t <= FILEMAX
    ensures forall k :: Blocked(v', ino, write, k) ==> Blocked(v, ino, write, k)
  {}

  // The rest of sfs_io once the offset is block-aligned: whole blocks, then
  // the trailing partial block
  method IoAligned(fs: Sfs, ino: nat, u: Uio) returns (err: Err, ghost t: nat)
    requires fs.Valid() && ino in fs.svs && u.Valid() && u.offset % BLOCKSIZE == 0
    modifies fs, fs.freemap.v, u
    ensures fs.Valid() && u.Advanced(t)
    ensures Phase(old(fs.V()), fs.V(), ino, u.write, old(u.mem), u.mem, old(u.base), old(u.offset), old(u.resid), t,
            err)
  {
    hide Vol.Inv, ContentOf, MetaOk, TableOk, Transfer, Phase, Bitmap.Valid, Bitmap.Bits, Answered;
    ghost var v0, mem0, base0, o := fs.V(), u.mem, u.base, u.offset;
    var nblocks := u.resid / BLOCKSIZE;
    ghost var whole, rest := nblocks * BLOCKSIZE, u.resid % BLOCKSIZE;
    err, t := IoBlocks(fs, ino, u, nblocks);
    PhaseFacts(v0, fs.V(), ino, u.write, mem0, u.mem, base0, o, whole, t, err);
    if err != OK {
      PhaseStops(v0, fs.V(), ino, u.write, mem0, u.mem, base0, o, whole, rest, t, err);
      return;
    }
    assert u.resid == rest < BLOCKSIZE;
    if u.resid > 0 {
      ghost var v1, mem1 := fs.V(), u.mem;
      err := PartialIo(fs, ino, u, 0, u.resid);
      ghost var m := if err == OK then rest else 0;
      PhaseBlock(v1, fs.V(), ino, u.write, mem1, u.mem, base0 + whole, o + whole, rest, err);
      PhaseTwice(v0, v1, fs.V(), ino, u.write, mem0, mem1, u.mem, base0, o, whole, rest, m, err);
      t := t + m;
    }
  }

  // The three phases of sfs_io
  method IoPhases(fs: Sfs, ino: nat, u: Uio) returns (err: Err, ghost t: nat)
    requires fs.Valid() && ino in fs.svs && u.Valid()
    modifies fs, fs.freemap.v, u
    ensures fs.Valid() && u.Advanced(t)
    ensures Phase(old(fs.V()), fs.V(), ino, u.write, old(u.mem), u.mem, old(u.base), old(u.offset), old(u.resid), t,
            err)
  {
    hide Vol.Inv, ContentOf, MetaOk, TableOk, Transfer, Phase, Bitmap.Valid, Bitmap.Bits, Answered;
    ghost var v0, mem0, base0, o := fs.V(), u.mem, u.base, u.offset;
    ghost var first := 0;
    t := 0;
    var blkoff := u.offset % BLOCKSIZE;
    if blkoff != 0 {
      var len := Min(BLOCKSIZE - blkoff, u.resid);
      first := len;
      err := PartialIo(fs, ino, u, blkoff, len);
      t := if err == OK then len else 0;
      PhaseBlock(v0, fs.V(), ino, u.write, mem0, u.mem, base0, o, len, err);
      PhaseFacts(v0, fs.V(), ino, u.write, mem0, u.mem, base0, o, len, t, err);
      if err != OK {
        PhaseStops(v0, fs.V(), ino, u.write, mem0, u.mem, base0, o, len, u.resid - len, t, err);
        return;
      }
    } else {
      PhaseNothing(v0, ino, u.write, mem0, base0, o);
    }
    if u.resid == 0 {
      return OK, t;
    }
    assert u.offset % BLOCKSIZE == 0;
    ghost var v1, mem1, rest := fs.V(), u.mem, u.resid;
    ghost var more;
    err, more := IoAligned(fs, ino, u);
    PhaseTwice(v0, v1, fs.V(), ino, u.write, mem0, mem1, u.mem, base0, o, first, rest, more, err);
    t := t + more;
  }

  lemma SetSizeStep(v: Vol, ino: nat, n: Word)
    requires v.Inv() && ino in v.tab && ino in v.files
    ensures var v' := SetVnode(v, v.tab[ino].(inode := v.tab[ino].inode.(size := n), dirty := true));
            v'.Inv() && Evolves(v, v', ino) && SameContent(v, v') && v'.files[ino].size == n
  {
    hide Vol.Inv, ContentOf;
    LoadedFacts(v, ino);
    SetVnodeKeeps(v, v.tab[ino].(inode := v.tab[ino].inode.(size := n), dirty := true));
  }

  method SetSize(fs: Sfs, ino: nat, n: Word)
    requires fs.Valid() && ino in fs.svs && ino in fs.files
    modifies fs
    ensures fs.Valid()
    ensures Evolves(old(fs.V()), fs.V(), ino) && SameContent(old(fs.V()), fs.V()) && fs.files[ino].size == n
    ensures fs.files[ino] == old(fs.files[ino]).(size := n)
  {
    hide Vol.Inv, ContentOf, MetaOk, TableOk, Evolves, Bitmap.Valid, Bitmap.Bits;
    ghost var v0 := fs.V();
    LoadedFacts(v0, ino);
    SetSizeStep(v0, ino, n);
    var sv := fs.svs[ino].(inode := fs.svs[ino].inode.(size := n), dirty := true);
    fs.svs := fs.svs[ino := sv];
    fs.files := fs.files[ino := fs.files[ino].(size := n)];
    assert fs.files[ino] == v0.files[ino].(size := n, typ := sv.inode.typ, links := sv.inode.links);
    assert fs.V() == SetVnode(v0, sv);
    assert fs.svs.Keys == v0.tab.Keys;
  }

  // What a request for n bytes at offset o of file ino answers, and so how
  // much of the free space a write leaves: a read stops at the end of the file.
  ghost predicate Finished(v: Vol, v': Vol, ino: nat, write: bool, o: nat, n: nat, err: Err) {
    && ino in v.files && |v.files[ino].bmap| == MAXBLOCKS
    && err == IoResult(v.files[ino], Free(v.bits), write, o, n)
    && (write ==> Written(v, v', ino, o / BLOCKSIZE, EndBlock(o, n), err))
  }

  ghost function IoResult(f: File, free: nat, write: bool, o: nat, n: nat): Err
    requires |f.bmap| == MAXBLOCKS
  {
    var lo, hi := o / BLOCKSIZE, EndBlock(o, Wanted(write, n, o, OffT(f.size)));
    if write then Outcome(f, free, lo, hi)
    else if o < OffT(f.size) && lo < hi && hi > MAXBLOCKS then EINVAL
    else OK
  }

  // A write within the largest file succeeds if there is a free block for
  // each block it touches and one more.
  lemma PlentyOfRoom(f: File, free: nat, o: nat, n: nat)
    requires |f.bmap| == MAXBLOCKS && o + n <= FILEMAX && free > (o + n) / BLOCKSIZE - o / BLOCKSIZE + 1
    ensures IoResult(f, free, true, o, n) == OK
  {
    hide Holes;
    var lo, hi := o / BLOCKSIZE, EndBlock(o, n);
    HolesAtMost(f.bmap[Cap(lo)..Cap(hi)]);
  }

  // sfs_io. Offsets are off_t, a 32-bit signed integer.
  method Io(fs: Sfs, ino: nat, u: Uio) returns (err: Err, ghost t: nat)
    requires fs.Valid() && ino in fs.svs && u.Valid()
    requires u.offset + u.resid < 0x8000_0000
    modifies fs, fs.freemap.v, u
    ensures fs.Valid() && u.Advanced(t)
    ensures Performed(old(fs.V()), fs.V(), ino, u.write, old(u.mem), u.mem, old(u.base), old(u.offset), t)
    ensures Finished(old(fs.V()), fs.V(), ino, u.write, old(u.offset), old(u.resid), err)
    ensures u.write && err == OK ==> t == old(u.resid)
    ensures !u.write && old(u.offset) >= old(OffT(fs.files[ino].size)) ==> err == OK && t == 0
    ensures !u.write && old(u.offset) < old(OffT(fs.files[ino].size)) ==>
              && old(u.offset) + t <= old(OffT(fs.files[ino].size))
              && (err == OK ==> t == old(u.resid) || old(u.offset) + t == old(OffT(fs.files[ino].size)))
              && (err == OK || old(u.offset) + old(u.resid) > FILEMAX)
    ensures err == OK ==> t == Wanted(u.write, old(u.resid), old(u.offset), old(OffT(fs.files[ino].size)))
    ensures err != OK ==>
              StoppedAt(old(fs.V()), ino, u.write, old(u.offset),
                Wanted(u.write, old(u.resid), old(u.offset), old(OffT(fs.files[ino].size))), t)
  {
    hide Vol.Inv, ContentOf, MetaOk, TableOk, Transfer, Phase, Answered, Bitmap.Valid, Bitmap.Bits, Performed,
      Finished, StoppedAt;
    ghost var v0, mem0, base0, o := fs.V(), u.mem, u.base, u.offset;
    LoadedFacts(v0, ino);
    var extraresid := 0;
    if !u.write {
      var size := OffT(fs.svs[ino].inode.size);
      var endpos := u.offset + u.resid;
      if u.offset >= size {
        NothingPerformed(v0, ino, mem0, base0, o, u.resid);
        return OK, 0;
      }
      if endpos > size {
        extraresid := endpos - size;
        assert u.resid > extraresid;
        u.resid := u.resid - extraresid;
      }
    }
    err, t := IoPhases(fs, ino, u);
    ghost var v1 := fs.V();
    PhaseDone(v0, v1, ino, u.write, mem0, u.mem, base0, o, old(u.resid), t, err);
    LoadedFacts(v1, ino);
    if u.write && u.offset > OffT(fs.svs[ino].inode.size) {
      SetSize(fs, ino, u.offset);
    }
    SizePerformed(v0, v1, fs.V(), ino, u.write, mem0, u.mem, base0, o, old(u.resid), t, err);
    u.resid := u.resid + extraresid;
  }

  lemma NothingPerformed(v: Vol, ino: nat, mem: seq<Byte>, base: nat, o: nat, n: nat)
    requires v.Inv() && ino in v.tab && ino in v.files && o >= OffT(v.files[ino].size) && base <= |mem|
    ensures Performed(v, v, ino, false, mem, mem, base, o, 0) && Finished(v, v, ino, false, o, n, OK)
  {
    hide Vol.Inv, ContentOf, Flat, Splice, Written;
    LoadedFacts(v, ino);
    GrowsSelf(v, ino);
    GrowsIsTransfer(v, v, ino, false, mem, base, o);
  }

  lemma PhaseDone(v: Vol, v': Vol, ino: nat, write: bool, mem: seq<Byte>, mem': seq<Byte>, base: nat, o: nat, n: nat,
                  t: nat, err: Err)
    requires ino in v.files && Phase(v, v', ino, write, mem, mem', base, o,
             Wanted(write, n, o, OffT(v.files[ino].size)), t, err)
    requires write || o < OffT(v.files[ino].size)
    ensures Transfer(v, v', ino, write, mem, mem', base, o, t) && Finished(v, v', ino, write, o, n, err)
    ensures ino in v'.files && ino in v'.tab && v'.files[ino].size == v.files[ino].size
    ensures t <= Wanted(write, n, o, OffT(v.files[ino].size))
    ensures err == OK ==> t == Wanted(write, n, o, OffT(v.files[ino].size))
    ensures err != OK ==> StoppedAt(v, ino, write, o, Wanted(write, n, o, OffT(v.files[ino].size)), t)
    ensures !write && err != OK ==> o + n > FILEMAX
  {
    hide Spent, Outcome, Free, Transfer;
    TransferFacts(v, v', ino, write, mem, mem', base, o, t);
  }

  // With the size raised, or left alone
  lemma SizePerformed(v: Vol, v1: Vol, v2: Vol, ino: nat, write: bool, mem: seq<Byte>, mem': seq<Byte>, base: nat,
                      o: nat, n: nat, t: nat, err: Err)
    requires Transfer(v, v1, ino, write, mem, mem', base, o, t) && Finished(v, v1, ino, write, o, n, err)
    requires (v2 == v1 && (write ==> o + t <= OffT(v.files[ino].size))) ||
             (write && o + t > OffT(v.files[ino].size) && Evolves(v1, v2, ino) && SameContent(v1, v2) &&
              v2.bits == v1.bits && v2.files[ino].bmap == v1.files[ino].bmap &&
                v2.files[ino].ind == v1.files[ino].ind &&
              v2.files[ino].size == o + t)
    ensures Performed(v, v2, ino, write, mem, mem', base, o, t) && Finished(v, v2, ino, write, o, n, err)
  {
    hide ContentOf, Flat, Splice, Written, Outcome;
    if v2 != v1 {
      EvolvesTwice(v, v1, v2, ino);
      WrittenAside(v, v1, v2, ino, o / BLOCKSIZE, EndBlock(o, n), err);
    }
  }
}
