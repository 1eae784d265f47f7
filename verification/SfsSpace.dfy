/**
 What an SFS write needs in free blocks, and so what it answers: the cases of
 ENOSPC and EINVAL in kern/fs/sfs/sfs_vnode.c as functions of the file's block
 map and the number of free blocks.
 */
module SfsSpace {
  import opened Bytes
  import opened Errno
  import opened SfsVolume
  import opened SfsSteps

  // ---------- free blocks ----------

  ghost function Free(bits: seq<bool>): nat {
    if bits == [] then 0 else Free(bits[..|bits| - 1]) + if bits[|bits| - 1] then 0 else 1
  }

  lemma {:induction false} FreeTake(bits: seq<bool>, b: nat)
    requires b < |bits| && !bits[b]
    ensures Free(bits[b := true]) + 1 == Free(bits)
  {
    var n := |bits| - 1;
    if b < n {
      FreeTake(bits[..n], b);
      assert bits[b := true][..n] == bits[..n][b := true];
    } else {
      assert bits[b := true][..n] == bits[..n];
    }
  }

  lemma {:induction false} NoneFree(bits: seq<bool>)
    ensures Free(bits) == 0 <==> forall i :: 0 <= i < |bits| ==> bits[i]
  {
    if bits != [] {
      NoneFree(bits[..|bits| - 1]);
    }
  }

  // ---------- what a write needs ----------

  ghost function Holes(m: seq<Word>): nat {
    if m == [] then 0 else Holes(m[..|m| - 1]) + if m[|m| - 1] == 0 then 1 else 0
  }

  lemma {:induction false} HolesConcat(m: seq<Word>, n: seq<Word>)
    ensures Holes(m + n) == Holes(m) + Holes(n)
    decreases |n|
  {
    if n == [] {
      assert m + n == m;
    } else {
      HolesConcat(m, n[..|n| - 1]);
      assert (m + n)[..|m + n| - 1] == m + n[..|n| - 1];
    }
  }

  lemma {:induction false} HolesAtMost(m: seq<Word>)
    ensures Holes(m) <= |m|
  {
    if m != [] {
      HolesAtMost(m[..|m| - 1]);
    }
  }

  lemma {:induction false} HolesPut(m: seq<Word>, k: nat, b: Word)
    requires k < |m| && m[k] == 0 && b != 0
    ensures Holes(m[k := b]) + 1 == Holes(m)
  {
    var n := |m| - 1;
    if k < n {
      HolesPut(m[..n], k, b);
      assert m[k := b][..n] == m[..n][k := b];
    } else {
      assert m[k := b][..n] == m[..n];
    }
  }

  // What file ino could still take from the free blocks is settled: every
  // block that leaves the freemap fills one of its holes or hangs in its
  // indirect block.
  ghost function Balance(v: Vol, ino: nat): int
    requires ino in v.files
  {
    Free(v.bits) - Holes(v.files[ino].bmap) - if v.files[ino].ind == 0 then 1 else 0
  }

  ghost predicate Conserves(v: Vol, v': Vol, ino: nat) {
    ino in v.files && ino in v'.files && Balance(v', ino) == Balance(v, ino)
  }

  // The blocks to allocate before blocks lo..hi of a file are all mapped: its
  // holes there, and an indirect block if the range reaches one that is not.
  ghost function Need(f: File, lo: nat, hi: nat): nat
    requires lo <= hi <= |f.bmap|
  {
    Holes(f.bmap[lo..hi]) + if f.ind == 0 && lo < hi && hi > NDIRECT then 1 else 0
  }

  function Cap(k: nat): nat {
    if k < MAXBLOCKS then k else MAXBLOCKS
  }

  // What a write to blocks lo..hi answers with `free` blocks to be had.
  ghost function Outcome(f: File, free: nat, lo: nat, hi: nat): Err
    requires |f.bmap| == MAXBLOCKS && lo <= hi
  {
    if Need(f, Cap(lo), Cap(hi)) > free then ENOSPC
    else if lo < hi && hi > MAXBLOCKS then EINVAL
    else OK
  }

  // From v to v', blocks lo..hi of file ino were mapped and nothing else was
  // allocated.
  ghost predicate Spent(v: Vol, v': Vol, ino: nat, lo: nat, hi: nat) {
    && ino in v.files && ino in v'.files && |v.files[ino].bmap| == |v'.files[ino].bmap| == MAXBLOCKS &&
       lo <= hi <= MAXBLOCKS
    && Free(v.bits) == Free(v'.bits) + Need(v.files[ino], lo, hi)
    && v'.files[ino].bmap[hi..] == v.files[ino].bmap[hi..]
    && (v'.files[ino].ind == 0 <==> v.files[ino].ind == 0 && !(lo < hi && hi > NDIRECT))
  }

  lemma NeedSplit(f: File, f': File, lo: nat, mid: nat, hi: nat)
    requires |f.bmap| == |f'.bmap| == MAXBLOCKS && lo <= mid <= hi <= MAXBLOCKS
    requires f'.bmap[mid..] == f.bmap[mid..] && (f'.ind == 0 <==> f.ind == 0 && !(lo < mid && mid > NDIRECT))
    ensures Need(f, lo, hi) == Need(f, lo, mid) + Need(f', mid, hi)
  {
    hide Holes;
    HolesConcat(f.bmap[lo..mid], f.bmap[mid..hi]);
    assert f.bmap[lo..hi] == f.bmap[lo..mid] + f.bmap[mid..hi];
    assert f'.bmap[mid..hi] == f'.bmap[mid..][..hi - mid];
    assert f.bmap[mid..hi] == f.bmap[mid..][..hi - mid];
  }

  lemma SpentTwice(a: Vol, b: Vol, c: Vol, ino: nat, lo: nat, mid: nat, hi: nat)
    requires Spent(a, b, ino, lo, mid) && Spent(b, c, ino, mid, hi)
    ensures Spent(a, c, ino, lo, hi)
  {
    hide Need, Free;
    NeedSplit(a.files[ino], b.files[ino], lo, mid, hi);
    assert a.files[ino].bmap[hi..] == a.files[ino].bmap[mid..][hi - mid..];
    assert b.files[ino].bmap[hi..] == b.files[ino].bmap[mid..][hi - mid..];
  }

  // What is left to write answers the same after the first part is done...
  lemma OutcomeRest(a: Vol, b: Vol, ino: nat, lo: nat, mid: nat, hi: nat)
    requires Spent(a, b, ino, lo, mid) && mid <= hi
    ensures Outcome(a.files[ino], Free(a.bits), lo, hi) == Outcome(b.files[ino], Free(b.bits), mid, hi)
  {
    hide Free;
    NeedSplit(a.files[ino], b.files[ino], lo, mid, Cap(hi));
  }

  // ... and if the first part fails, so does the whole.
  lemma OutcomeFirst(f: File, free: nat, lo: nat, mid: nat, hi: nat)
    requires |f.bmap| == MAXBLOCKS && lo <= mid <= hi && Outcome(f, free, lo, mid) != OK
    ensures Outcome(f, free, lo, hi) == Outcome(f, free, lo, mid)
  {
    hide Holes;
    HolesConcat(f.bmap[Cap(lo)..Cap(mid)], f.bmap[Cap(mid)..Cap(hi)]);
    assert f.bmap[Cap(lo)..Cap(hi)] == f.bmap[Cap(lo)..Cap(mid)] + f.bmap[Cap(mid)..Cap(hi)];
  }

  lemma SpentNothing(v: Vol, ino: nat, k: nat)
    requires ino in v.files && |v.files[ino].bmap| == MAXBLOCKS && k <= MAXBLOCKS
    ensures Spent(v, v, ino, k, k) && Need(v.files[ino], k, k) == 0
  {}

  // ---------- one block ----------

  lemma NeedOne(f: File, k: nat)
    requires |f.bmap| == MAXBLOCKS && k < MAXBLOCKS
    ensures Need(f, k, k + 1) == (if f.bmap[k] == 0 then 1 else 0) + (if f.ind == 0 && k >= NDIRECT then 1 else 0)
  {
    assert f.bmap[k..k + 1] == [f.bmap[k]];
    assert Holes([f.bmap[k]]) == Holes([f.bmap[k]][..0]) + if f.bmap[k] == 0 then 1 else 0;
  }

  // A block that is mapped needs nothing.
  lemma SpentMapped(v: Vol, ino: nat, k: nat)
    requires ino in v.files && |v.files[ino].bmap| == MAXBLOCKS && k < MAXBLOCKS && v.files[ino].bmap[k] != 0
    requires k >= NDIRECT ==> v.files[ino].ind != 0
    ensures Spent(v, v, ino, k, k + 1) && Need(v.files[ino], k, k + 1) == 0
  {
    NeedOne(v.files[ino], k);
  }

  lemma SpentDirect(v: Vol, ino: nat, k: nat, b: Word)
    requires ino in v.tab && ino in v.files && |v.tab[ino].inode.direct| == NDIRECT && |v.files[ino].bmap| == MAXBLOCKS
    requires k < NDIRECT && 0 < b < |v.disk| && b < |v.bits| && !v.bits[b] && v.files[ino].bmap[k] == 0
    ensures Spent(v, AllocDirect(v, ino, k, b), ino, k, k + 1)
  {
    hide Free, Need;
    NeedOne(v.files[ino], k);
    FreeTake(v.bits, b);
  }

  lemma SpentSlot(v: Vol, ino: nat, j: nat, b: Word)
    requires ino in v.files && |v.files[ino].bmap| == MAXBLOCKS && j < DBPERIDB && 0 < v.files[ino].ind < |v.disk|
    requires 0 < b < |v.disk| && b < |v.bits| && !v.bits[b] && v.files[ino].bmap[NDIRECT + j] == 0
    ensures Spent(v, AllocSlot(v, ino, j, b), ino, NDIRECT + j, NDIRECT + j + 1)
  {
    hide Free, Need, Pack, Unpack;
    NeedOne(v.files[ino], NDIRECT + j);
    FreeTake(v.bits, b);
  }

  // An indirect block was hung in on the way to slot k.
  lemma SpentIndirect(v: Vol, v1: Vol, v2: Vol, ino: nat, k: nat, b: Word)
    requires ino in v.tab && ino in v.files && |v.files[ino].bmap| == MAXBLOCKS && NDIRECT <= k < MAXBLOCKS
    requires v.files[ino].ind == 0 && 0 < b < |v.disk| && b < |v.bits| && !v.bits[b] && v1 == AllocIndirect(v, ino, b)
    requires v.files[ino].bmap[k] == 0 && Spent(v1, v2, ino, k, k + 1)
    ensures Spent(v, v2, ino, k, k + 1)
  {
    hide Free, Need;
    NeedOne(v.files[ino], k);
    NeedOne(v1.files[ino], k);
    FreeTake(v.bits, b);
  }

  // ---------- what sfs_bmap answers when it may allocate ----------

  // Block k of file ino was mapped; or there were too few free blocks, of
  // which none is left, one having become the indirect block if there was one.
  ghost predicate Mapped(v: Vol, v': Vol, ino: nat, k: nat, err: Err) {
    && ino in v.files && ino in v'.files && |v.files[ino].bmap| == |v'.files[ino].bmap| == MAXBLOCKS && k < MAXBLOCKS
    && Conserves(v, v', ino)
    && if err == OK then Spent(v, v', ino, k, k + 1)
       else err == ENOSPC && Need(v.files[ino], k, k + 1) > Free(v.bits) && RanOut(v, v', ino)
  }

  ghost predicate RanOut(v: Vol, v': Vol, ino: nat) {
    && ino in v.files && ino in v'.files && Free(v'.bits) == 0
    && v'.files[ino].bmap == v.files[ino].bmap
    && Free(v.bits) == if v.files[ino].ind == 0 && v'.files[ino].ind != 0 then 1 else 0
  }

  lemma MappedAlready(v: Vol, ino: nat, k: nat)
    requires ino in v.files && |v.files[ino].bmap| == MAXBLOCKS && k < MAXBLOCKS && v.files[ino].bmap[k] != 0
    requires k >= NDIRECT ==> v.files[ino].ind != 0
    ensures Mapped(v, v, ino, k, OK)
  {
    hide Free, Need;
    SpentMapped(v, ino, k);
  }

  lemma MappedNot(v: Vol, ino: nat, k: nat)
    requires ino in v.files && |v.files[ino].bmap| == MAXBLOCKS && k < MAXBLOCKS && v.files[ino].bmap[k] == 0
    requires forall i :: 0 <= i < |v.bits| ==> v.bits[i]
    ensures Mapped(v, v, ino, k, ENOSPC)
  {
    hide Free, Need;
    NeedOne(v.files[ino], k);
    NoneFree(v.bits);
  }

  lemma MappedDirect(v: Vol, ino: nat, k: nat, b: Word)
    requires ino in v.tab && ino in v.files && |v.tab[ino].inode.direct| == NDIRECT && |v.files[ino].bmap| == MAXBLOCKS
    requires k < NDIRECT && 0 < b < |v.disk| && b < |v.bits| && !v.bits[b] && v.files[ino].bmap[k] == 0
    ensures Mapped(v, AllocDirect(v, ino, k, b), ino, k, OK)
  {
    hide Free, Holes, Need, Spent;
    SpentDirect(v, ino, k, b);
    FreeTake(v.bits, b);
    HolesPut(v.files[ino].bmap, k, b);
  }

  lemma MappedSlot(v: Vol, ino: nat, j: nat, b: Word)
    requires ino in v.files && |v.files[ino].bmap| == MAXBLOCKS && j < DBPERIDB && 0 < v.files[ino].ind < |v.disk|
    requires 0 < b < |v.disk| && b < |v.bits| && !v.bits[b] && v.files[ino].bmap[NDIRECT + j] == 0
    ensures Mapped(v, AllocSlot(v, ino, j, b), ino, NDIRECT + j, OK)
  {
    hide Free, Holes, Need, Spent, Pack, Unpack;
    SpentSlot(v, ino, j, b);
    FreeTake(v.bits, b);
    HolesPut(v.files[ino].bmap, NDIRECT + j, b);
  }

  // The way through a fresh indirect block b to slot k, whatever came of it.
  lemma MappedThrough(v: Vol, v1: Vol, v2: Vol, ino: nat, k: nat, b: Word, err: Err)
    requires ino in v.tab && ino in v.files && |v.files[ino].bmap| == MAXBLOCKS && NDIRECT <= k < MAXBLOCKS
    requires v.files[ino].ind == 0 && 0 < b < |v.disk| && b < |v.bits| && !v.bits[b] && v1 == AllocIndirect(v, ino, b)
    requires v.files[ino].bmap[k] == 0 && Mapped(v1, v2, ino, k, err) && (err != OK ==> v2 == v1)
    ensures Mapped(v, v2, ino, k, err)
  {
    hide Free, Holes, Need, Spent;
    FreeTake(v.bits, b);
    if err == OK {
      SpentIndirect(v, v1, v2, ino, k, b);
    } else {
      MappedHalf(v, v1, ino, k, b);
    }
  }

  // The indirect block took the last free block.
  lemma MappedHalf(v: Vol, v1: Vol, ino: nat, k: nat, b: Word)
    requires ino in v.tab && ino in v.files && |v.files[ino].bmap| == MAXBLOCKS && NDIRECT <= k < MAXBLOCKS
    requires v.files[ino].ind == 0 && 0 < b < |v.disk| && b < |v.bits| && !v.bits[b] && v1 == AllocIndirect(v, ino, b)
    requires v.files[ino].bmap[k] == 0 && Mapped(v1, v1, ino, k, ENOSPC)
    ensures Mapped(v, v1, ino, k, ENOSPC)
  {
    hide Free, Holes, Need;
    NeedOne(v.files[ino], k);
    FreeTake(v.bits, b);
  }

  // The answer for one block is the answer for the range of that block.
  lemma MappedOutcome(v: Vol, v': Vol, ino: nat, k: nat, err: Err)
    requires Mapped(v, v', ino, k, err)
    ensures err == Outcome(v.files[ino], Free(v.bits), k, k + 1)
  {
    hide Free, Need;
  }

  // A block past the last answers EINVAL whatever is free.
  lemma PastOutcome(f: File, free: nat, k: nat)
    requires |f.bmap| == MAXBLOCKS && k >= MAXBLOCKS
    ensures Outcome(f, free, k, k + 1) == EINVAL
  {}

  // ---------- what a write of several blocks answers ----------

  // Blocks lo..hi of file ino were written, or as many as there was room for.
  ghost predicate Written(v: Vol, v': Vol, ino: nat, lo: nat, hi: nat, err: Err) {
    && ino in v.files && |v.files[ino].bmap| == MAXBLOCKS && lo <= hi
    && err == Outcome(v.files[ino], Free(v.bits), lo, hi)
    && (err == OK ==> Spent(v, v', ino, Cap(lo), Cap(hi)))
    && (err == ENOSPC ==> Free(v'.bits) == 0)
    && Conserves(v, v', ino)
  }

  lemma WrittenNothing(v: Vol, ino: nat, k: nat)
    requires ino in v.files && |v.files[ino].bmap| == MAXBLOCKS
    ensures Written(v, v, ino, k, k, OK)
  {
    hide Free, Need, Spent;
    SpentNothing(v, ino, Cap(k));
  }

  lemma WrittenBlock(v: Vol, v': Vol, ino: nat, k: nat, err: Err)
    requires Mapped(v, v', ino, k, err)
    ensures Written(v, v', ino, k, k + 1, err)
  {
    hide Free, Need, Spent, Outcome, Conserves;
    MappedOutcome(v, v', ino, k, err);
  }

  lemma WrittenPast(v: Vol, ino: nat, k: nat)
    requires ino in v.files && |v.files[ino].bmap| == MAXBLOCKS && k >= MAXBLOCKS
    ensures Written(v, v, ino, k, k + 1, EINVAL)
  {
    hide Free, Outcome;
    PastOutcome(v.files[ino], Free(v.bits), k);
  }

  lemma WrittenTwice(a: Vol, b: Vol, c: Vol, ino: nat, lo: nat, mid: nat, hi: nat, err: Err)
    requires Written(a, b, ino, lo, mid, OK) && Written(b, c, ino, mid, hi, err)
    ensures Written(a, c, ino, lo, hi, err)
  {
    hide Free, Holes, Spent;
    CapOutcome(a.files[ino], Free(a.bits), lo, mid, hi);
    CapOutcome(b.files[ino], Free(b.bits), mid, mid, hi);
    OutcomeRest(a, b, ino, Cap(lo), Cap(mid), hi);
    if err == OK {
      SpentTwice(a, b, c, ino, Cap(lo), Cap(mid), Cap(hi));
    }
  }

  // A write that succeeded up to mid lies below the last block, or is empty.
  lemma CapOutcome(f: File, free: nat, lo: nat, mid: nat, hi: nat)
    requires |f.bmap| == MAXBLOCKS && lo <= mid <= hi && (lo < mid ==> mid <= MAXBLOCKS)
    ensures Cap(lo) <= Cap(mid) <= hi || (lo == mid && mid > MAXBLOCKS)
    ensures Cap(lo) <= hi && (lo <= MAXBLOCKS ==> Outcome(f, free, Cap(lo), hi) == Outcome(f, free, lo, hi))
  {}

  lemma WrittenStops(v: Vol, v': Vol, ino: nat, lo: nat, mid: nat, hi: nat, err: Err)
    requires Written(v, v', ino, lo, mid, err) && err != OK && mid <= hi
    ensures Written(v, v', ino, lo, hi, err)
  {
    hide Free, Holes, Spent, Conserves;
    OutcomeFirst(v.files[ino], Free(v.bits), lo, mid, hi);
  }

  // Writing data and sizes spends nothing.
  lemma WrittenAside(v: Vol, v1: Vol, v2: Vol, ino: nat, lo: nat, hi: nat, err: Err)
    requires Written(v, v1, ino, lo, hi, err) && v2.bits == v1.bits && ino in v1.files && ino in v2.files
    requires v2.files[ino].bmap == v1.files[ino].bmap && v2.files[ino].ind == v1.files[ino].ind
    ensures Written(v, v2, ino, lo, hi, err)
  {
    hide Free, Holes, Need, Outcome;
  }

  // ---------- reads and writes ----------

  // Blocks lo..hi of file ino were read or written, or as many as could be.
  ghost predicate Answered(v: Vol, v': Vol, ino: nat, write: bool, lo: nat, hi: nat, err: Err) {
    && ino in v.files && |v.files[ino].bmap| == MAXBLOCKS && lo <= hi
    && if write then Written(v, v', ino, lo, hi, err) else err == if lo < hi && hi > MAXBLOCKS then EINVAL else OK
  }

  lemma AnsweredNothing(v: Vol, ino: nat, write: bool, k: nat)
    requires ino in v.files && |v.files[ino].bmap| == MAXBLOCKS
    ensures Answered(v, v, ino, write, k, k, OK)
  {
    hide Written;
    WrittenNothing(v, ino, k);
  }

  lemma AnsweredTwice(a: Vol, b: Vol, c: Vol, ino: nat, write: bool, lo: nat, mid: nat, hi: nat, err: Err)
    requires Answered(a, b, ino, write, lo, mid, OK) && Answered(b, c, ino, write, mid, hi, err)
    ensures Answered(a, c, ino, write, lo, hi, err)
  {
    hide Written;
    if write {
      WrittenTwice(a, b, c, ino, lo, mid, hi, err);
    }
  }

  lemma AnsweredStops(v: Vol, v': Vol, ino: nat, write: bool, lo: nat, mid: nat, hi: nat, err: Err)
    requires Answered(v, v', ino, write, lo, mid, err) && err != OK && mid <= hi
    ensures Answered(v, v', ino, write, lo, hi, err)
  {
    hide Written;
    if write {
      WrittenStops(v, v', ino, lo, mid, hi, err);
    }
  }

  lemma AnsweredAside(v: Vol, v1: Vol, v2: Vol, ino: nat, write: bool, lo: nat, hi: nat, err: Err)
    requires Answered(v, v1, ino, write, lo, hi, err) && v2.bits == v1.bits && ino in v1.files && ino in v2.files
    requires v2.files[ino].bmap == v1.files[ino].bmap && v2.files[ino].ind == v1.files[ino].ind
    ensures Answered(v, v2, ino, write, lo, hi, err)
  {
    hide Written;
    if write {
      WrittenAside(v, v1, v2, ino, lo, hi, err);
    }
  }
}
