/**
 kern/lib/queue.c: a ring buffer that grows, refining a sequence. A ring of
 size n holds n - 1 elements. An operation that may allocate takes whether
 kmalloc would succeed.
 */
module QueueLib {
  import opened Errno
  import opened Arith

  lemma Wraps(i: nat, n: nat)
    requires i < n
    ensures (i + 1) % n == if i + 1 == n then 0 else i + 1
  {
    if i + 1 == n { DivMod(i + 1, n, 1, 0); } else { DivMod(i + 1, n, 0, i + 1); }
  }

  // The elements from r up to w, going round.
  function Ring<T>(data: seq<T>, r: nat, w: nat): seq<T>
    requires r < |data| && w < |data|
  {
    if r <= w then data[r..w] else data[r..] + data[..w]
  }

  class Queue<T(0)> {
    var size: nat
    var nextwrite: nat
    var nextread: nat
    var data: array<T>

    ghost predicate Valid()
      reads this
    {
      data.Length == size && nextread < size && nextwrite < size
    }

    ghost function Contents(): (s: seq<T>)
      requires Valid()
      reads this, data
      ensures |s| < size
    {
      Ring(data[..], nextread, nextwrite)
    }

    // One more element would not fit.
    ghost predicate Full()
      requires Valid()
      reads this, data
    {
      |Contents()| + 1 == size
    }

    // q_create
    constructor (n: nat)
      requires n > 0
      ensures Valid() && fresh(data) && Contents() == [] && size == n
    {
      size, nextwrite, nextread := n, 0, 0;
      data := new T[n];
    }

    // The doubling loop of q_grow.
    static method Doubled(size: nat, target: nat) returns (nsize: nat)
      requires size > 0
      ensures nsize >= size && nsize >= target && (nsize == size || nsize < 2 * target)
    {
      nsize := size;
      while nsize < target
        invariant nsize >= size && (nsize == size || nsize < 2 * target)
        decreases target - nsize
      {
        nsize := nsize * 2;
      }
    }

    // q_grow
    method Grow(target: nat, ok: bool) returns (err: Err)
      requires Valid()
      modifies this, data
      ensures Valid() && Contents() == old(Contents())
      ensures err == if ok then OK else ENOMEM
      ensures err == OK ==> fresh(data) && size >= target && size >= old(size)
      ensures err == OK ==> size == old(size) || size < 2 * target
      ensures err != OK ==>
                data == old(data) && size == old(size) && nextwrite == old(nextwrite) && nextread == old(nextread)
      decreases 1
    {
      hide Ring;
      var olddata, onr, onw, osize := data, nextread, nextwrite, size;
      ghost var s, bytes := Contents(), data[..];
      var nsize := Doubled(size, target);
      if !ok {
        return ENOMEM;
      }
      size := nsize;
      data := new T[nsize];
      nextread, nextwrite := 0, 0;
      var i := onr;
      ghost var n := 0;
      RingEmpty(data[..], 0);
      IndexEnd(bytes, onr, onw, 0);
      while i != onw
        invariant Valid() && size == nsize && fresh(data) && olddata[..] == bytes
        invariant i < osize && n <= |s| && i == Index(onr, n, osize) && (n == |s| <==> i == onw)
        invariant Contents() == s[..n]
        decreases |s| - n
      {
        RingAt(bytes, onr, onw, n);
        assert |Contents()| + 1 < size;
        var e := AddTail(olddata[i], false);
        assert e == OK;
        assert s[..n] + [s[n]] == s[..n + 1];
        Wraps(i, osize);
        i := (i + 1) % osize;
        n := n + 1;
        IndexEnd(bytes, onr, onw, n);
      }
      assert s[..n] == s;
      return OK;
    }

    // q_preallocate
    method Preallocate(n: nat, ok: bool) returns (err: Err)
      requires Valid()
      modifies this, data
      ensures Valid() && Contents() == old(Contents()) && (data == old(data) || fresh(data))
      ensures err == if n > old(size) && !ok then ENOMEM else OK
      ensures err == OK ==> size >= n && size >= old(size)
      ensures err != OK || n <= old(size) ==> size == old(size)
    {
      err := OK;
      if n > size {
        err := Grow(n, ok);
      }
    }

    // q_empty
    predicate Empty()
      requires Valid()
      reads this, data
      ensures Empty() <==> Contents() == []
    {
      nextwrite == nextread
    }

    // q_addtail
    method AddTail(x: T, ok: bool) returns (err: Err)
      requires Valid()
      modifies this, data
      ensures Valid() && (data == old(data) || fresh(data))
      ensures err == if old(Full()) && !ok then ENOMEM else OK
      ensures Contents() == if err == OK then old(Contents()) + [x] else old(Contents())
      ensures size >= old(size) && (old(Full()) && ok <==> size != old(size))
      decreases if Full() then 2 else 0
    {
      ghost var s := Contents();
      Wraps(nextwrite, size);
      var nextnext := (nextwrite + 1) % size;
      if nextnext == nextread {
        err := Grow(size + 1, ok);
        if err != OK {
          return;
        }
        Wraps(nextwrite, size);
        nextnext := (nextwrite + 1) % size;
      }
      ghost var before := data[..];
      data[nextwrite] := x;
      RingAdd(before, data[..], nextread, nextwrite, nextnext, x);
      nextwrite := nextnext;
      err := OK;
    }

    // q_remhead
    method RemHead() returns (x: T)
      requires Valid() && Contents() != []
      modifies this
      ensures Valid() && data == old(data) && size == old(size)
      ensures [x] + Contents() == old(Contents())
    {
      x := data[nextread];
      Wraps(nextread, size);
      nextread := (nextread + 1) % size;
    }
  }

  // Where element n of a ring that starts at r is kept.
  ghost function Index(r: nat, n: nat, size: nat): int {
    if r + n < size then r + n else r + n - size
  }

  lemma RingEmpty<T>(data: seq<T>, r: nat)
    requires r < |data|
    ensures Ring(data, r, r) == []
  {}

  lemma RingAt<T>(data: seq<T>, r: nat, w: nat, n: nat)
    requires r < |data| && w < |data| && n < |Ring(data, r, w)|
    ensures 0 <= Index(r, n, |data|) < |data| && Ring(data, r, w)[n] == data[Index(r, n, |data|)]
  {}

  lemma IndexEnd<T>(data: seq<T>, r: nat, w: nat, n: nat)
    requires r < |data| && w < |data| && n <= |Ring(data, r, w)|
    ensures n == |Ring(data, r, w)| <==> Index(r, n, |data|) == w
  {}

  lemma RingAdd<T>(data: seq<T>, data': seq<T>, r: nat, w: nat, w': nat, x: T)
    requires r < |data| && w < |data| && w' != r && w' == if w + 1 == |data| then 0 else w + 1
    requires data' == data[w := x]
    ensures Ring(data', r, w') == Ring(data, r, w) + [x]
  {}
}
