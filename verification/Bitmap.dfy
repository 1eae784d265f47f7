/**
 kern/lib/bitmap.c: an array of bits packed eight to a byte.
 The concrete bytes are tied to the sequence of bits they stand for.
 */
module BitmapLib {
  import opened Bytes
  import opened Errno

  // ((WORD_TYPE)1) << o
  function Mask(o: nat): (m: bv8)
    requires o < 8
  {
    if o == 0 then 1 else if o == 1 then 2 else if o == 2 then 4 else if o == 3 then 8
    else if o == 4 then 16 else if o == 5 then 32 else if o == 6 then 64 else 128
  }

  predicate Bit(x: bv8, o: nat)
    requires o < 8
  {
    x & Mask(o) != 0
  }

  function SetBit(x: bv8, o: nat): (y: bv8)
    requires o < 8
    ensures forall p :: 0 <= p < 8 ==> (Bit(y, p) <==> p == o || Bit(x, p))
  {
    x | Mask(o)
  }

  function ClearBit(x: bv8, o: nat): (y: bv8)
    requires o < 8
    ensures forall p :: 0 <= p < 8 ==> (Bit(y, p) <==> p != o && Bit(x, p))
  {
    x & !Mask(o)
  }

  lemma AllBitsBv(x: bv8)
    ensures x == 0xff <==> (x & 1 != 0 && x & 2 != 0 && x & 4 != 0 && x & 8 != 0 &&
                            x & 16 != 0 && x & 32 != 0 && x & 64 != 0 && x & 128 != 0)
  {}

  // WORD_ALLBITS is the one byte with no clear bit.
  lemma AllBits(x: bv8)
    ensures x == 0xff <==> forall o :: 0 <= o < 8 ==> Bit(x, o)
  {
    AllBitsBv(x);
    assert (forall o :: 0 <= o < 8 ==> Bit(x, o)) <==>
           (Bit(x, 0) && Bit(x, 1) && Bit(x, 2) && Bit(x, 3) && Bit(x, 4) && Bit(x, 5) && Bit(x, 6) && Bit(x, 7));
  }

  // A byte as it is stored on disk, and back.
  function Raw(x: bv8): (b: Byte)
  {
    x as int
  }

  function Cooked(b: Byte): (x: bv8)
  {
    b as bv8
  }

  lemma CookedRaw(x: bv8)
    ensures Cooked(Raw(x)) == x
  {}

  // ---------- byte strings as bit strings ----------

  predicate BitAt(bytes: seq<bv8>, i: nat)
    requires i < 8 * |bytes|
  {
    Bit(bytes[i / 8], i % 8)
  }

  ghost function BitsOf(bytes: seq<bv8>, n: nat): (bits: seq<bool>)
    requires n <= 8 * |bytes|
    ensures |bits| == n
    ensures forall i :: 0 <= i < n ==> bits[i] == BitAt(bytes, i)
  {
    seq(n, i requires 0 <= i < n => BitAt(bytes, i))
  }

  lemma BitsOfSet(bytes: seq<bv8>, n: nat, i: nat)
    requires i < n <= 8 * |bytes|
    ensures BitsOf(bytes[i / 8 := SetBit(bytes[i / 8], i % 8)], n) == BitsOf(bytes, n)[i := true]
  {
    var bytes' := bytes[i / 8 := SetBit(bytes[i / 8], i % 8)];
    forall p | 0 <= p < n
      ensures BitAt(bytes', p) == BitsOf(bytes, n)[i := true][p]
    {
      if p / 8 == i / 8 {
        assert Bit(bytes'[p / 8], p % 8) <==> p % 8 == i % 8 || Bit(bytes[p / 8], p % 8);
      }
    }
  }

  lemma BitsOfClear(bytes: seq<bv8>, n: nat, i: nat)
    requires i < n <= 8 * |bytes|
    ensures BitsOf(bytes[i / 8 := ClearBit(bytes[i / 8], i % 8)], n) == BitsOf(bytes, n)[i := false]
  {
    var bytes' := bytes[i / 8 := ClearBit(bytes[i / 8], i % 8)];
    forall p | 0 <= p < n
      ensures BitAt(bytes', p) == BitsOf(bytes, n)[i := false][p]
    {
      if p / 8 == i / 8 {
        assert Bit(bytes'[p / 8], p % 8) <==> p % 8 != i % 8 && Bit(bytes[p / 8], p % 8);
      }
    }
  }

  class Bitmap {
    const nbits: nat
    const v: array<bv8>

    // Bits past nbits in the last byte are always marked in use.
    ghost predicate Valid()
      reads v
    {
      && v.Length == (nbits + 7) / 8
      && forall i :: nbits <= i < 8 * v.Length ==> BitAt(v[..], i)
    }

    ghost function Bits(): (bits: seq<bool>)
      reads v
      requires Valid()
      ensures |bits| == nbits
    {
      BitsOf(v[..], nbits)
    }

    // bitmap_create
    constructor (n: nat)
      ensures nbits == n && fresh(v)
      ensures Valid()
      ensures forall i :: 0 <= i < n ==> !Bits()[i]
    {
      var words := (n + 7) / 8;
      nbits := n;
      v := new bv8[words](_ => 0);
      new;
      assert forall i :: 0 <= i < n ==> !BitAt(v[..], i);
      if n / 8 < words {
        var ix := words - 1;
        var overbits := n - ix * 8;
        assert n / 8 == words - 1;
        assert 0 < overbits < 8;
        var j := overbits;
        while j < 8
          invariant overbits <= j <= 8
          invariant forall k :: 0 <= k < ix ==> v[k] == 0
          invariant forall o :: 0 <= o < 8 ==> (Bit(v[ix], o) <==> overbits <= o < j)
        {
          v[ix] := SetBit(v[ix], j);
          j := j + 1;
        }
        forall i | 0 <= i < 8 * v.Length ensures BitAt(v[..], i) <==> n <= i {
          if i / 8 < ix {
            assert v[i / 8] == 0;
          } else {
            assert i / 8 == ix;
          }
        }
      }
    }

    // bitmap_alloc: take the lowest clear bit, or fail when there is none.
    method Alloc() returns (err: Err, index: nat)
      requires Valid()
      modifies v
      ensures Valid()
      ensures err == OK || err == ENOSPC
      ensures err == ENOSPC <==> forall i :: 0 <= i < nbits ==> old(Bits())[i]
      ensures err == ENOSPC ==> v[..] == old(v[..])
      ensures err == OK ==> index < nbits && !old(Bits())[index] && Bits() == old(Bits())[index := true]
      ensures err == OK ==> forall i :: 0 <= i < index ==> old(Bits())[i]
    {
      var maxix := (nbits + 7) / 8;
      var ix := 0;
      while ix < maxix
        invariant 0 <= ix <= maxix
        invariant v[..] == old(v[..])
        invariant forall i :: 0 <= i < 8 * ix ==> BitAt(v[..], i)
      {
        if v[ix] != 0xff {
          var offset := LowestClear(v[ix]);
          index := ix * 8 + offset;
          assert index / 8 == ix && index % 8 == offset;
          assert !BitAt(v[..], index);
          forall i | 0 <= i < index ensures BitAt(v[..], i) {
            assert i / 8 < ix || (i / 8 == ix && i % 8 < offset);
          }
          assert !old(Bits())[index];
          SetAt(index);
          return OK, index;
        }
        AllBits(v[ix]);
        forall i | 8 * ix <= i < 8 * (ix + 1) ensures BitAt(v[..], i) {
          assert i / 8 == ix;
        }
        ix := ix + 1;
      }
      return ENOSPC, 0;
    }

    // The inner search of bitmap_alloc: it always finds a clear bit.
    static method LowestClear(x: bv8) returns (offset: nat)
      requires x != 0xff
      ensures offset < 8 && !Bit(x, offset)
      ensures forall o :: 0 <= o < offset ==> Bit(x, o)
    {
      AllBits(x);
      offset := 0;
      while Bit(x, offset)
        invariant 0 <= offset < 8
        invariant forall o :: 0 <= o < offset ==> Bit(x, o)
        decreases 8 - offset
      {
        offset := offset + 1;
      }
    }

    // b->v[ix] |= mask
    method SetAt(index: nat)
      requires Valid() && index < nbits
      modifies v
      ensures Valid()
      ensures Bits() == old(Bits())[index := true]
    {
      var ix, offset := index / 8, index % 8;
      ghost var was := v[..];
      v[ix] := SetBit(v[ix], offset);
      assert v[..] == was[ix := SetBit(was[ix], offset)];
      BitsOfSet(was, nbits, index);
      BitsOfSet(was, 8 * v.Length, index);
      forall i | nbits <= i < 8 * v.Length ensures BitAt(v[..], i) {
        assert BitsOf(v[..], 8 * v.Length)[i];
      }
    }

    // bitmap_mark: the bit must be clear.
    method Mark(index: nat)
      requires Valid()
      requires index < nbits && !Bits()[index]
      modifies v
      ensures Valid()
      ensures Bits() == old(Bits())[index := true]
    {
      SetAt(index);
    }

    // bitmap_unmark: the bit must be set.
    method Unmark(index: nat)
      requires Valid()
      requires index < nbits && Bits()[index]
      modifies v
      ensures Valid()
      ensures Bits() == old(Bits())[index := false]
    {
      var ix, offset := index / 8, index % 8;
      ghost var was := v[..];
      assert BitAt(was, index);
      v[ix] := ClearBit(v[ix], offset);
      assert v[..] == was[ix := ClearBit(was[ix], offset)];
      BitsOfClear(was, nbits, index);
      BitsOfClear(was, 8 * v.Length, index);
      forall i | nbits <= i < 8 * v.Length ensures BitAt(v[..], i) {
        assert BitsOf(v[..], 8 * v.Length)[i];
      }
    }

    // bitmap_isset
    method IsSet(index: nat) returns (r: bool)
      requires Valid() && index < nbits
      ensures r == Bits()[index]
    {
      r := Bit(v[index / 8], index % 8);
    }
  }
}
