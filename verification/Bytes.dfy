/**
 Bytes, 512-byte disk blocks and the structures SFS lays over them
 (kern/include/kern/sfs.h): big-endian 32-bit words, the inode, the
 directory entry and the superblock.
 */
module Bytes {

  type Byte = x: int | 0 <= x < 256
  type Word = w: int | 0 <= w < 0x1_0000_0000

  // A word read as an off_t, a 32-bit signed integer
  function OffT(w: Word): int {
    if w < 0x8000_0000 then w else w - 0x1_0000_0000
  }

  const BLOCKSIZE := 512
  const WORDS := 128
  const NDIRECT := 15
  const DBPERIDB := 128
  const NAMELEN := 60
  const DIRSIZE := 64
  const MAXBLOCKS := NDIRECT + DBPERIDB

  const ROOT_LOCATION := 1
  const MAP_LOCATION := 2
  const SFS_MAGIC: Word := 0xabad_f001

  const TYPE_INVAL := 0
  const TYPE_FILE := 1
  const TYPE_DIR := 2

  type Block = b: seq<Byte> | |b| == BLOCKSIZE witness seq(BLOCKSIZE, _ => 0)

  function Zeros(n: nat): (z: seq<Byte>)
    ensures |z| == n
    ensures forall i :: 0 <= i < n ==> z[i] == 0
  {
    seq(n, _ => 0)
  }

  const ZeroBlock: Block := Zeros(BLOCKSIZE)

  // ---------- big-endian words ----------

  function WordOf(a: Byte, b: Byte, c: Byte, d: Byte): (w: Word)
  {
    a * 0x100_0000 + b * 0x1_0000 + c * 0x100 + d
  }

  function ByteOf(w: Word, i: nat): Byte
    requires i < 4
  {
    if i == 0 then w / 0x100_0000
    else if i == 1 then w / 0x1_0000 % 0x100
    else if i == 2 then w / 0x100 % 0x100
    else w % 0x100
  }

  lemma WordRoundTrip(w: Word)
    ensures WordOf(ByteOf(w, 0), ByteOf(w, 1), ByteOf(w, 2), ByteOf(w, 3)) == w
  {
    var h := w / 0x100;
    var g := h / 0x100;
    assert w == h * 0x100 + w % 0x100;
    assert h == g * 0x100 + h % 0x100;
    assert w / 0x1_0000 == g;
    assert w / 0x100_0000 == g / 0x100;
  }

  // Word i of a byte string read as an array of 32-bit words.
  function WordAt(b: seq<Byte>, i: nat): (w: Word)
    requires 4 * i + 4 <= |b|
  {
    WordOf(b[4 * i], b[4 * i + 1], b[4 * i + 2], b[4 * i + 3])
  }

  // A block read as 128 words, and 128 words stored as a block.
  function Unpack(b: Block): (ws: seq<Word>)
    ensures |ws| == WORDS
  {
    seq(WORDS, i requires 0 <= i < WORDS => WordAt(b, i))
  }

  function Pack(ws: seq<Word>): (b: Block)
    requires |ws| == WORDS
  {
    seq(BLOCKSIZE, j requires 0 <= j < BLOCKSIZE => ByteOf(ws[j / 4], j % 4))
  }

  lemma UnpackPack(ws: seq<Word>)
    requires |ws| == WORDS
    ensures Unpack(Pack(ws)) == ws
  {
    var b := Pack(ws);
    forall i | 0 <= i < WORDS
      ensures Unpack(b)[i] == ws[i]
    {
      assert b[4 * i] == ByteOf(ws[i], 0);
      assert b[4 * i + 1] == ByteOf(ws[i], 1);
      assert b[4 * i + 2] == ByteOf(ws[i], 2);
      assert b[4 * i + 3] == ByteOf(ws[i], 3);
      WordRoundTrip(ws[i]);
    }
  }

  function ZeroWords(n: nat): (ws: seq<Word>)
    ensures |ws| == n
    ensures forall i :: 0 <= i < n ==> ws[i] == 0
  {
    seq(n, _ => 0)
  }

  lemma UnpackZero()
    ensures Unpack(ZeroBlock) == ZeroWords(WORDS)
  {
    UnpackAllZero(ZeroBlock);
  }

  lemma UnpackAllZero(b: Block)
    requires forall j :: 0 <= j < BLOCKSIZE ==> b[j] == 0
    ensures forall i :: 0 <= i < WORDS ==> Unpack(b)[i] == 0
  {
    forall i | 0 <= i < WORDS
      ensures Unpack(b)[i] == 0
    {
      assert b[4 * i] == 0;
      assert b[4 * i + 1] == 0;
      assert b[4 * i + 2] == 0;
      assert b[4 * i + 3] == 0;
    }
  }

  lemma DivParts8(q: int, r: int)
    requires 0 <= r < 0x100
    ensures (q * 0x100 + r) / 0x100 == q && (q * 0x100 + r) % 0x100 == r
  {}

  lemma DivParts16(q: int, r: int)
    requires 0 <= r < 0x1_0000
    ensures (q * 0x1_0000 + r) / 0x1_0000 == q && (q * 0x1_0000 + r) % 0x1_0000 == r
  {}

  lemma DivParts24(q: int, r: int)
    requires 0 <= r < 0x100_0000
    ensures (q * 0x100_0000 + r) / 0x100_0000 == q && (q * 0x100_0000 + r) % 0x100_0000 == r
  {}

  lemma ByteOfWord(a: Byte, b: Byte, c: Byte, d: Byte)
    ensures var w := WordOf(a, b, c, d);
            ByteOf(w, 0) == a && ByteOf(w, 1) == b && ByteOf(w, 2) == c && ByteOf(w, 3) == d
  {
    var w := WordOf(a, b, c, d);
    DivParts24(a, b * 0x1_0000 + c * 0x100 + d);
    DivParts16(a * 0x100 + b, c * 0x100 + d);
    DivParts8(a * 0x1_0000 + b * 0x100 + c, d);
    DivParts8(a, b);
    DivParts8(a * 0x100 + b, c);
    assert w / 0x100_0000 == a;
    assert w / 0x1_0000 == a * 0x100 + b;
    assert w / 0x100 == (a * 0x100 + b) * 0x100 + c;
  }

  // The bytes of the word a block byte belongs to.
  lemma PackAt(b: Block, j: nat)
    requires j < BLOCKSIZE
    ensures ByteOf(WordAt(b, j / 4), j % 4) == b[j]
  {
    var i := j / 4;
    ByteOfWord(b[4 * i], b[4 * i + 1], b[4 * i + 2], b[4 * i + 3]);
  }

  lemma PackUnpack(b: Block)
    ensures Pack(Unpack(b)) == b
  {
    forall j | 0 <= j < BLOCKSIZE
      ensures Pack(Unpack(b))[j] == b[j]
    {
      PackAt(b, j);
    }
  }

  // ---------- inodes ----------

  type Half = x: int | 0 <= x < 0x1_0000

  datatype Inode = Inode(size: Word, typ: Half, links: Half,
                         direct: seq<Word>, indirect: Word, waste: seq<Word>)
  {
    predicate Shape() {
      |direct| == NDIRECT && |waste| == WORDS - 3 - NDIRECT
    }
  }

  function InodeOf(b: Block): (i: Inode)
    ensures i.Shape()
  {
    InodeOfWords(Unpack(b))
  }

  function InodeOfWords(ws: seq<Word>): (i: Inode)
    requires |ws| == WORDS
    ensures i.Shape()
  {
    Inode(ws[0], ws[1] / 0x1_0000, ws[1] % 0x1_0000, ws[2..2 + NDIRECT], ws[2 + NDIRECT], ws[3 + NDIRECT..])
  }

  function WordsOfInode(i: Inode): (ws: seq<Word>)
    requires i.Shape()
    ensures |ws| == WORDS
  {
    [i.size, i.typ * 0x1_0000 + i.links] + i.direct + [i.indirect] + i.waste
  }

  function BlockOfInode(i: Inode): (b: Block)
    requires i.Shape()
  {
    Pack(WordsOfInode(i))
  }

  lemma InodeOfOwnWords(i: Inode)
    requires i.Shape()
    ensures InodeOfWords(WordsOfInode(i)) == i
  {
    var ws := WordsOfInode(i);
    DivParts16(i.typ, i.links);
    assert ws[1] == i.typ * 0x1_0000 + i.links;
    assert ws[2..2 + NDIRECT] == i.direct;
    assert ws[3 + NDIRECT..] == i.waste;
  }

  lemma InodeRoundTrip(i: Inode)
    requires i.Shape()
    ensures InodeOf(BlockOfInode(i)) == i
  {
    UnpackPack(WordsOfInode(i));
    InodeOfOwnWords(i);
  }

  const ZeroInode: Inode := Inode(0, 0, 0, ZeroWords(NDIRECT), 0, ZeroWords(WORDS - 3 - NDIRECT))

  lemma InodeOfZero()
    ensures ZeroInode.Shape()
    ensures InodeOf(ZeroBlock) == ZeroInode
  {
    UnpackZero();
    var ws := ZeroWords(WORDS);
    assert ws[2..2 + NDIRECT] == ZeroInode.direct;
    assert ws[3 + NDIRECT..] == ZeroInode.waste;
  }

  // ---------- directory entries ----------

  datatype Ent = Ent(ino: Word, name: seq<Byte>)

  // The C string at the start of a character array.
  function CStr(bs: seq<Byte>): (s: seq<Byte>)
  {
    if bs == [] || bs[0] == 0 then [] else [bs[0]] + CStr(bs[1..])
  }

  // A file name as C passes it: no NUL inside.
  predicate IsName(name: seq<Byte>) {
    forall i :: 0 <= i < |name| ==> name[i] != 0
  }

  lemma {:induction false} CStrOfPadded(name: seq<Byte>, rest: seq<Byte>)
    requires IsName(name)
    requires rest == [] || rest[0] == 0
    ensures CStr(name + rest) == name
  {
    if name == [] {
      assert name + rest == rest;
    } else {
      assert (name + rest)[1..] == name[1..] + rest;
      CStrOfPadded(name[1..], rest);
    }
  }

  // struct sfs_dir as read back: the last name byte is forced to NUL.
  function EntOf(bs: seq<Byte>): (e: Ent)
    requires |bs| == DIRSIZE
  {
    Ent(WordAt(bs, 0), CStr(bs[4..DIRSIZE - 1]))
  }

  function EntBytes(e: Ent): (bs: seq<Byte>)
    requires |e.name| < NAMELEN
    ensures |bs| == DIRSIZE
  {
    [ByteOf(e.ino, 0), ByteOf(e.ino, 1), ByteOf(e.ino, 2), ByteOf(e.ino, 3)] + e.name + Zeros(NAMELEN - |e.name|)
  }

  lemma EntRoundTrip(e: Ent)
    requires |e.name| < NAMELEN && IsName(e.name)
    ensures EntOf(EntBytes(e)) == e
  {
    var bs := EntBytes(e);
    WordRoundTrip(e.ino);
    assert bs[4..DIRSIZE - 1] == e.name + Zeros(NAMELEN - 1 - |e.name|);
    CStrOfPadded(e.name, Zeros(NAMELEN - 1 - |e.name|));
  }

  // ---------- flat byte images ----------

  // s with the bytes at off replaced by d.
  function Splice(s: seq<Byte>, off: nat, d: seq<Byte>): (r: seq<Byte>)
    requires off + |d| <= |s|
    ensures |r| == |s|
  {
    s[..off] + d + s[off + |d|..]
  }

  lemma SpliceAdjacent(s: seq<Byte>, off: nat, a: seq<Byte>, b: seq<Byte>)
    requires off + |a| + |b| <= |s|
    ensures Splice(Splice(s, off, a), off + |a|, b) == Splice(s, off, a + b)
  {}

  function Flat(blocks: seq<Block>): (s: seq<Byte>)
    ensures |s| == BLOCKSIZE * |blocks|
  {
    seq(BLOCKSIZE * |blocks|, p requires 0 <= p < BLOCKSIZE * |blocks| => blocks[p / BLOCKSIZE][p % BLOCKSIZE])
  }

  lemma FlatSplice(blocks: seq<Block>, k: nat, off: nat, d: seq<Byte>)
    requires k < |blocks| && off + |d| <= BLOCKSIZE
    ensures BLOCKSIZE * k + off + |d| <= BLOCKSIZE * |blocks|
    ensures Flat(blocks[k := Splice(blocks[k], off, d)]) == Splice(Flat(blocks), BLOCKSIZE * k + off, d)
  {}

  lemma FlatSlice(blocks: seq<Block>, k: nat, off: nat, n: nat)
    requires k < |blocks| && off + n <= BLOCKSIZE
    ensures BLOCKSIZE * k + off + n <= BLOCKSIZE * |blocks|
    ensures Flat(blocks)[BLOCKSIZE * k + off..BLOCKSIZE * k + off + n] == blocks[k][off..off + n]
  {}
}
