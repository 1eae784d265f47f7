/**
 kern/userprog/uio.c: moving bytes between a kernel buffer and the caller's
 region, with the residual count and offset kept in step. Kernel-space
 regions only, so a move cannot fault.
 */
module UioLib {
  import opened Bytes

  function Min(a: nat, b: nat): (m: nat) {
    if a <= b then a else b
  }

  class Uio {
    const write: bool      // uio_rw == UIO_WRITE
    var mem: seq<Byte>     // the caller's whole buffer
    var base: nat          // iov_kbase, as an index into mem
    var iovlen: nat        // iov_len
    var offset: nat        // uio_offset
    var resid: nat         // uio_resid

    ghost predicate Valid()
      reads this
    {
      base + iovlen <= |mem| && resid <= iovlen
    }

    // mk_kuio
    constructor (kbuf: seq<Byte>, pos: nat, write: bool)
      ensures Valid()
      ensures mem == kbuf && base == 0 && iovlen == resid == |kbuf| && offset == pos && this.write == write
    {
      this.write := write;
      mem, base, iovlen, offset, resid := kbuf, 0, |kbuf|, pos, |kbuf|;
    }

    // The uio after m more bytes have been moved through it.
    twostate predicate Advanced(m: nat)
      reads this
    {
      && Valid()
      && |mem| == old(|mem|)
      && base == old(base) + m && iovlen + m == old(iovlen)
      && offset == old(offset) + m && resid + m == old(resid)
    }

    // One pass of the loop of uiomove: n bytes are left, at place done of p
    method Pass(p: seq<Byte>, q0: seq<Byte>, done: nat, n: nat) returns (q: seq<Byte>, size: nat)
      requires Valid() && |q0| == |p| == done + n && Min(iovlen, n) <= resid
      modifies this
      ensures size == Min(old(iovlen), n) && old(base) + size <= |old(mem)|
      ensures q == if write then Splice(q0, done, old(mem)[old(base)..old(base) + size]) else q0
      ensures Here() == Onward(old(Here()),
              if write then old(mem) else Splice(old(mem), old(base), p[done..done + size]), size)
    {
      q, size := q0, Min(iovlen, n);
      if write {
        q := Splice(q, done, mem[base..base + size]);
      } else {
        mem := Splice(mem, base, p[done..done + size]);
      }
      base, iovlen, resid, offset := base + size, iovlen - size, resid - size, offset + size;
    }

    // uiomove: p holds the bytes at the kernel pointer before, q after.
    method Move(p: seq<Byte>) returns (q: seq<Byte>)
      requires Valid()
      requires |p| <= resid || resid == iovlen
      modifies this
      ensures Moved(p, q, Min(|p|, old(resid)))
    {
      hide BytesMoved, Splice;
      q := p;
      var n, done := |p|, 0;
      ghost var u, m := Here(), Min(|p|, resid);
      NoBytesMoved(u, write, p);
      while n > 0 && resid > 0
        // one pass moves everything there is to move
        invariant done == 0 || done == m
        invariant n == |p| - done && resid == u.resid - done && BytesMoved(u, Here(), write, p, q, done)
        decreases n
      {
        NothingMovedYet(u, Here(), write, p, q);
        assert done == 0 && Min(iovlen, n) == m != 0;
        var size;
        q, size := Pass(p, q, done, n);
        done, n := done + size, n - size;
        SomeMoved(u, Here(), write, p, q, m);
      }
      AllMoved(u, Here(), write, p, q, m);
    }

    // What moving m bytes between p and the region leaves behind.
    twostate predicate Moved(p: seq<Byte>, q: seq<Byte>, m: nat)
      requires old(Valid()) && m <= |p| && m <= old(iovlen)
      reads this
    {
      && Advanced(m)
      && |q| == |p|
      && if write
         then mem == old(mem) && q == Splice(p, 0, old(mem)[old(base)..old(base) + m])
         else q == p && mem == Splice(old(mem), old(base), p[0..m])
    }

    ghost function Here(): View
      reads this
    {
      View(mem, base, iovlen, offset, resid)
    }

    // One piece of uiomovezeros
    method MovePiece(amt: nat)
      requires Valid() && !write
      requires amt <= resid || resid == iovlen
      modifies this
      ensures Valid() && !write && ZerosMoved(old(Here()), Here(), amt)
    {
      hide Splice;
      ghost var m := Min(amt, resid);
      assert Zeros(amt)[0..m] == Zeros(m);
      var q := Move(Zeros(amt));
    }

    // uiomovezeros, sixteen bytes at a time
    method MoveZeros(count: nat)
      requires Valid() && !write
      requires count <= resid || resid == iovlen
      modifies this
      ensures Advanced(Min(count, old(resid)))
      ensures mem == Splice(old(mem), old(base), Zeros(Min(count, old(resid))))
    {
      hide ZerosMoved;
      var n := count;
      NoneMoved(Here());
      while n > 0
        invariant 0 <= n <= count && Valid() && !write && (n <= resid || resid == iovlen)
        invariant ZerosMoved(old(Here()), Here(), count - n)
      {
        var amt := Min(16, n);
        ghost var before := Here();
        MovePiece(amt);
        MoreMoved(old(Here()), before, Here(), count - n, amt);
        RoomLeft(before, Here(), amt);
        n := n - amt;
      }
      MovedFacts(old(Here()), Here(), count);
    }
  }

  // The fields of a uio that moving bytes changes
  datatype View = View(mem: seq<Byte>, base: nat, iovlen: nat, offset: nat, resid: nat)

  // The view m bytes further on, with memory mem
  ghost function Onward(u: View, mem: seq<Byte>, m: nat): View
    requires m <= u.iovlen && m <= u.resid
  {
    View(mem, u.base + m, u.iovlen - m, u.offset + m, u.resid - m)
  }

  // From u to u', m bytes were moved between the region and p, which became q.
  ghost predicate BytesMoved(u: View, u': View, write: bool, p: seq<Byte>, q: seq<Byte>, m: nat) {
    && u.base + u.iovlen <= |u.mem| && m <= u.iovlen && m <= u.resid && m <= |p|
    && q == (if write then Splice(p, 0, u.mem[u.base..u.base + m]) else p)
    && u' == Onward(u, if write then u.mem else Splice(u.mem, u.base, p[0..m]), m)
  }

  lemma NoBytesMoved(u: View, write: bool, p: seq<Byte>)
    requires u.base + u.iovlen <= |u.mem|
    ensures BytesMoved(u, u, write, p, p, 0)
  {
    assert Splice(p, 0, u.mem[u.base..u.base + 0]) == p;
    assert Splice(u.mem, u.base, p[0..0]) == u.mem;
  }

  lemma NothingMovedYet(u: View, u': View, write: bool, p: seq<Byte>, q: seq<Byte>)
    ensures BytesMoved(u, u', write, p, q, 0) ==> u' == u && q == p
  {
    if BytesMoved(u, u', write, p, q, 0) {
      NoBytesMoved(u, write, p);
    }
  }

  lemma SomeMoved(u: View, u': View, write: bool, p: seq<Byte>, q: seq<Byte>, m: nat)
    requires u.base + u.iovlen <= |u.mem| && m <= u.iovlen && m <= u.resid && m <= |p|
    requires q == (if write then Splice(p, 0, u.mem[u.base..u.base + m]) else p)
    requires u' == Onward(u, if write then u.mem else Splice(u.mem, u.base, p[0..m]), m)
    ensures BytesMoved(u, u', write, p, q, m)
  {}

  lemma AllMoved(u: View, u': View, write: bool, p: seq<Byte>, q: seq<Byte>, m: nat)
    requires BytesMoved(u, u', write, p, q, m)
    ensures u.base + u.iovlen <= |u.mem| && m <= u.iovlen && m <= u.resid && m <= |p|
    ensures q == (if write then Splice(p, 0, u.mem[u.base..u.base + m]) else p)
    ensures u' == Onward(u, if write then u.mem else Splice(u.mem, u.base, p[0..m]), m)
  {}

  // From u to u', n zeros were moved, or as many as there was room for.
  ghost predicate ZerosMoved(u: View, u': View, n: nat) {
    var m := Min(n, u.resid);
    && u.base + u.iovlen <= |u.mem| && m <= u.iovlen && m <= u.resid
    && u' == Onward(u, Splice(u.mem, u.base, Zeros(m)), m)
  }

  lemma NoneMoved(u: View)
    requires u.base + u.iovlen <= |u.mem|
    ensures ZerosMoved(u, u, 0)
  {
    assert Splice(u.mem, u.base, Zeros(0)) == u.mem;
  }

  lemma MoreMoved(u: View, u1: View, u2: View, a: nat, b: nat)
    requires ZerosMoved(u, u1, a) && ZerosMoved(u1, u2, b)
    ensures ZerosMoved(u, u2, a + b)
  {
    var m1, m2 := Min(a, u.resid), Min(b, u1.resid);
    assert Min(a + b, u.resid) == m1 + m2;
    MoreZeros(u.mem, u.base, m1, m2);
  }

  lemma RoomLeft(u: View, u': View, n: nat)
    requires ZerosMoved(u, u', n)
    ensures u'.resid == u.resid - Min(n, u.resid) && u'.iovlen == u.iovlen - Min(n, u.resid)
  {}

  lemma MovedFacts(u: View, u': View, n: nat)
    requires ZerosMoved(u, u', n)
    ensures var m := Min(n, u.resid);
            && u.base + u.iovlen <= |u.mem| && m <= u.iovlen
            && u' == Onward(u, Splice(u.mem, u.base, Zeros(m)), m)
  {}

  lemma MoreZeros(s: seq<Byte>, off: nat, a: nat, b: nat)
    requires off + a + b <= |s|
    ensures Splice(Splice(s, off, Zeros(a)), off + a, Zeros(b)) == Splice(s, off, Zeros(a + b))
  {
    SpliceAdjacent(s, off, Zeros(a), Zeros(b));
    assert Zeros(a) + Zeros(b) == Zeros(a + b);
  }
}
