/**
 kern/lib/array.c: a resizable array. An operation that may allocate takes
 whether kmalloc would succeed.
 */
module PtrArray {
  import opened Errno

  class Array<T(0)> {
    var num: nat
    var max: nat
    var v: array<T>

    ghost predicate Valid()
      reads this
    {
      num <= max == v.Length
    }

    ghost function Contents(): seq<T>
      requires Valid()
      reads this, v
    {
      v[..num]
    }

    // array_create
    constructor ()
      ensures Valid() && fresh(v) && Contents() == [] && max == 0
    {
      num, max := 0, 0;
      v := new T[0];
    }

    // array_preallocate
    method Preallocate(nguys: nat, ok: bool) returns (err: Err)
      requires Valid()
      modifies this
      ensures Valid() && Contents() == old(Contents()) && num == old(num)
      ensures err == if ok then OK else ENOMEM
      ensures err == OK ==> fresh(v) && max >= nguys && max >= old(max)
      ensures err != OK ==> v == old(v) && max == old(max)
    {
      var newmax := max;
      while nguys > newmax
        invariant newmax >= max
        decreases nguys - newmax
      {
        newmax := (newmax + 1) * 2;
      }
      if !ok {
        return ENOMEM;
      }
      var newv := new T[newmax];
      for i := 0 to num
        invariant unchanged(this) && newv != v
        invariant newv[..i] == v[..i] && v[..] == old(v[..])
      {
        newv[i] := v[i];
      }
      max, v := newmax, newv;
      return OK;
    }

    // array_setsize
    method SetSize(nguys: nat, ok: bool) returns (err: Err)
      requires Valid()
      modifies this
      ensures Valid() && (v == old(v) || fresh(v))
      ensures err == if nguys > old(max) && !ok then ENOMEM else OK
      ensures err == OK ==> num == nguys && (nguys <= old(num) ==> Contents() == old(Contents())[..nguys])
      ensures err == OK && nguys > old(num) ==> Contents()[..old(num)] == old(Contents())
      ensures err == OK && nguys > 0 ==> max >= old(max) && (nguys <= old(max) ==> max == old(max) && v == old(v))
      ensures err == OK && nguys == 0 ==> max == if old(max) > 16 then 0 else old(max)
      ensures err != OK ==> v == old(v) && max == old(max) && num == old(num)
    {
      if nguys > max {
        err := Preallocate(nguys, ok);
        if err != OK {
          return;
        }
      } else if nguys == 0 && max > 16 {
        v := new T[0];
        max := 0;
      }
      num := nguys;
      return OK;
    }

    // array_add
    method Add(guy: T, ok: bool) returns (err: Err)
      requires Valid()
      modifies this, v
      ensures Valid() && (v == old(v) || fresh(v)) && max >= old(max)
      ensures err == if old(num) == old(max) && !ok then ENOMEM else OK
      ensures Contents() == if err == OK then old(Contents()) + [guy] else old(Contents())
      ensures old(num) < old(max) ==> max == old(max) && v == old(v)
    {
      var ix := num;
      ghost var s := Contents();
      err := SetSize(ix + 1, ok);
      if err != OK {
        return;
      }
      assert v[..ix] == s;
      v[ix] := guy;
      assert v[..ix + 1] == v[..ix] + [guy];
    }

    // array_remove; the shift is memmove
    method Remove(index: nat)
      requires Valid() && index < num
      modifies this, v
      ensures Valid() && v == old(v) && max == old(max) && num == old(num) - 1
      ensures Contents() == old(Contents())[..index] + old(Contents())[index + 1..]
    {
      for i := index to num - 1
        invariant unchanged(this) && num == old(num) && v == old(v)
        invariant v[..i] == old(v[..index]) + old(v[index + 1..i + 1])
        invariant v[i + 1..num] == old(v[i + 1..num])
      {
        ghost var before := v[..];
        assert v[i + 1] == old(v[i + 1]) by { assert v[i + 1..num][0] == old(v[i + 1..num])[0]; }
        v[i] := v[i + 1];
        assert v[i + 2..num] == before[i + 2..num];
        assert old(v[index + 1..i + 2]) == old(v[index + 1..i + 1]) + [old(v[i + 1])];
        assert v[..i + 1] == before[..i] + [old(v[i + 1])];
      }
      num := num - 1;
      assert old(v[index + 1..num]) == old(v[..num])[index + 1..];
    }

    // array_getguy
    function GetGuy(index: nat): (x: T)
      requires Valid() && index < num
      reads this, v
      ensures x == Contents()[index]
    {
      v[index]
    }
  }
}
