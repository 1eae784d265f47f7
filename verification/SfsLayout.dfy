/**
 What the bytes on an SFS device mean (kern/include/kern/sfs.h), said of the
 bytes themselves, and that they are all there is: a device describes at most
 one filesystem.
 */
module SfsLayout {
  import opened Bytes
  import opened SfsVolume
  import opened SfsDirectory
  import opened SfsFs
  import opened SfsMount
  import opened SfsOps
  import opened BitmapLib

  // ---------- bytes ----------

  // The 32-bit and 16-bit numbers at byte j, most significant byte first.
  function Big(b: seq<Byte>, j: nat): int
    requires j + 4 <= |b|
  {
    var b0: int, b1: int, b2: int := b[j], b[j + 1], b[j + 2];
    b0 * 0x100_0000 + b1 * 0x1_0000 + b2 * 0x100 + b[j + 3]
  }

  function BigHalf(b: seq<Byte>, j: nat): int
    requires j + 2 <= |b|
  {
    var b0: int := b[j];
    b0 * 0x100 + b[j + 1]
  }

  lemma WordLayout(b: Block, i: nat)
    requires i < 128
    ensures Unpack(b)[i] == Big(b, 4 * i)
  {}

  lemma HalfLayout(b: Block, t: Half, l: Half)
    requires Big(b, 4) == t * 0x1_0000 + l
    ensures BigHalf(b, 4) == t && BigHalf(b, 6) == l
  {
    assert (BigHalf(b, 4) - t) * 0x1_0000 == l - BigHalf(b, 6);
  }

  // An inode block: size, type and link count, 15 block numbers and that of
  // the indirect block.
  lemma InodeLayout(c: Inode)
    requires c.Shape()
    ensures var b := BlockOfInode(c);
            && Big(b, 0) == c.size && BigHalf(b, 4) == c.typ && BigHalf(b, 6) == c.links
            && (forall k :: 0 <= k < 15 ==> Big(b, 8 + 4 * k) == c.direct[k]) && Big(b, 68) == c.indirect
  {
    hide Pack, Unpack;
    var ws := WordsOfInode(c);
    var b := BlockOfInode(c);
    UnpackPack(ws);
    WordLayout(b, 0);
    WordLayout(b, 1);
    HalfLayout(b, c.typ, c.links);
    forall k | 0 <= k < 15
      ensures Big(b, 8 + 4 * k) == c.direct[k]
    {
      WordLayout(b, 2 + k);
    }
    WordLayout(b, 17);
  }

  // A directory entry: inode number, name, and zeros up to 64 bytes.
  lemma EntryLayout(e: Ent)
    requires |e.name| < 60
    ensures var b := EntBytes(e);
            && |b| == 64 && Big(b, 0) == e.ino && b[4..4 + |e.name|] == e.name
            && forall j :: 4 + |e.name| <= j < 64 ==> b[j] == 0
  {
    WordRoundTrip(e.ino);
  }

  // The superblock starts with the magic number and the size in blocks.
  lemma SuperLayout(b: Block, n: nat)
    ensures SuperOk(b, n) <==> Big(b, 0) == 0xabad_f001 && Big(b, 4) == n
  {
    WordLayout(b, 0);
    WordLayout(b, 1);
  }

  // ---------- the freemap ----------

  lemma BitShifts(x: bv8, o: nat)
    requires o < 8
    ensures Bit(x, o) <==> (x >> o) & 1 == 1
  {
    if o == 0 {
      assert x >> 0 == x;
    }
  }

  // Bit b % 8 of byte b / 8 of the blocks from the third on
  predicate StoredBit(disk: seq<Block>, b: nat) {
    2 + b / 4096 < |disk| && (Cooked(disk[2 + b / 4096][b % 4096 / 8]) >> (b % 8)) & 1 == 1
  }

  lemma SavedBit(disk: seq<Block>, bytes: seq<bv8>, b: nat)
    requires MapSaved(disk, bytes) && b < 8 * |bytes|
    ensures BitAt(bytes, b) <==> StoredBit(disk, b)
  {
    hide Bit, Cooked;
    assert b / 8 < |bytes|;
    assert b / 8 / 512 == b / 4096 && b / 8 % 512 == b % 4096 / 8;
    BitShifts(bytes[b / 8], b % 8);
  }

  // Once written back, the freemap on the device is the one in memory.
  lemma FreemapLayout(fs: Sfs, b: nat)
    requires Good(fs) && !fs.freemapdirty && b < |fs.V().bits|
    ensures fs.V().bits[b] <==> StoredBit(fs.disk, b)
  {
    hide DirOk, Bit, Cooked, Vol.Inv, StoredBit, MapSaved;
    SavedBit(fs.disk, fs.freemap.v[..], b);
  }

  // ---------- one device, one filesystem ----------

  // Two descriptions of one device with nothing loaded
  ghost predicate Same(v: Vol, w: Vol) {
    && v.Inv() && w.Inv() && DirOk(v) && DirOk(w)
    && v.nblocks == w.nblocks && v.disk == w.disk && v.bits == w.bits && v.tab == map[] && w.tab == map[]
  }

  // A file is what its inode and indirect block say.
  lemma FileSame(v: Vol, w: Vol, i: nat)
    requires Same(v, w) && i in v.files && i in w.files
    ensures v.files[i] == w.files[i] && v.saved[i] == w.saved[i]
  {
    hide SfsVolume.Struct, DirOk, InodeOf, Unpack;
    assert Records(v.files[i], v.saved[i]) && Records(w.files[i], w.saved[i]);
    assert IndirectSlots(v.files[i], BlockAt(v.disk, v.files[i].ind));
    assert IndirectSlots(w.files[i], BlockAt(w.disk, w.files[i].ind));
    SameSlots(v.files[i].bmap, w.files[i].bmap);
  }

  lemma SameSlots(a: seq<Word>, b: seq<Word>)
    requires |a| == |b| == MAXBLOCKS && a[NDIRECT..] == b[NDIRECT..] && forall k :: 0 <= k < NDIRECT ==> a[k] == b[k]
    ensures a == b
  {
    assert a == a[..NDIRECT] + a[NDIRECT..] && b == b[..NDIRECT] + b[NDIRECT..];
  }

  lemma {:induction false} SomeEntry(es: seq<Ent>, i: nat) returns (s: nat)
    requires Count(es, i) > 0
    ensures s < |es| && es[s].ino == i
  {
    s := |es| - 1;
    if es[s].ino != i {
      s := SomeEntry(es[..s], i);
    }
  }

  // Every file has a name in the directory, which is the same.
  lemma FileThere(v: Vol, w: Vol, i: nat)
    requires Same(v, w) && i in v.files
    ensures i in w.files
  {
    hide Vol.Inv, Flat, Ents, NamesUnique, Count;
    FileSame(v, w, ROOT_LOCATION);
    assert Dir(v) == Dir(w);
    if i != ROOT_LOCATION {
      var s := SomeEntry(Dir(v), i);
    }
  }

  lemma FilesSame(v: Vol, w: Vol)
    requires Same(v, w)
    ensures v.files == w.files && v.saved == w.saved
  {
    hide Same;
    SavedFiles(v, w);
    forall i | i in v.files
      ensures i in w.files && v.files[i] == w.files[i] && v.saved[i] == w.saved[i]
    {
      FileThere(v, w, i);
      FileSame(v, w, i);
    }
    forall i | i in w.files
      ensures i in v.files
    {
      SameBack(v, w);
      FileThere(w, v, i);
    }
  }

  lemma SavedFiles(v: Vol, w: Vol)
    requires Same(v, w)
    ensures v.saved.Keys == v.files.Keys && w.saved.Keys == w.files.Keys
  {
    hide SfsVolume.Struct, DirOk, Inodes, Indirects, Records;
  }

  lemma SameBack(v: Vol, w: Vol)
    requires Same(v, w)
    ensures Same(w, v)
  {
    hide Vol.Inv, DirOk;
  }

  // Who owns a block follows from the files.
  lemma OwnersSame(n: nat, bits: seq<bool>, o: Owners, p: Owners, files: Files)
    requires Struct(n, bits, o, files) && Struct(n, bits, p, files)
    ensures o == p
  {
    assert o.Keys == p.Keys by {
      assert forall b :: b in o <==> b in p;
    }
    forall b | b in o
      ensures p[b] == o[b]
    {
      OwnerSame(n, bits, o, p, files, b);
    }
  }

  lemma OwnerSame(n: nat, bits: seq<bool>, o: Owners, p: Owners, files: Files, b: nat)
    requires Struct(n, bits, o, files) && Struct(n, bits, p, files) && b in o && b in p
    ensures p[b] == o[b]
  {
    match o[b]
    case RefInode(i) => assert files[b].bmap == files[i].bmap;
    case RefIndirect(i) => assert files[i].ind == b;
    case RefData(i, k) => assert files[i].bmap[k] == b;
    case _ =>
  }

  // So a device on which there is a filesystem in order says all of it: what
  // is free, what exists, and what every block is used for.
  lemma DeviceDetermines(dev: seq<Block>, saved: map<nat, Inode>, owner: Owners, files: Files,
                         saved': map<nat, Inode>, owner': Owners, files': Files)
    requires OnDevice(dev, saved, owner, files) && OnDevice(dev, saved', owner', files')
    ensures saved == saved' && owner == owner' && files == files'
  {
    hide DirOk, Mirrors, Inodes, Indirects, SfsVolume.Struct, MapBytes, BitsOf, Unpack;
    var v, w := DeviceVol(dev, saved, owner, files), DeviceVol(dev, saved', owner', files');
    FilesSame(v, w);
    OwnersSame(v.nblocks, v.bits, owner, owner', files);
  }
}
