/**
 The subpage allocator of kern/lib/kheap.c as a value: pagerefs on two
 intrusive lists each, a free list threaded through every page, and the
 invariant that kmalloc and kfree keep between calls.
 */
module KheapModel {
  import opened Arith

  const PAGE_SIZE := 4096
  const KSEG0 := 0x8000_0000    // kernel memory lies from here
  const KSEG1 := 0xa000_0000    // up to here
  const NSIZES := 8
  const NPAGEREFS := 256
  const INVALID_OFFSET := 0xffff

  // ---------- blocks on a page ----------

  // sizes[]
  function SizeOf(t: nat): (s: nat)
    requires t < NSIZES
    ensures 16 <= s <= 2048
  {
    if t == 0 then 16 else if t == 1 then 32 else if t == 2 then 64 else if t == 3 then 128
    else if t == 4 then 256 else if t == 5 then 512 else if t == 6 then 1024 else 2048
  }

  // Blocks on a page of type t.
  function Total(t: nat): (n: nat)
    requires t < NSIZES
    ensures 2 <= n <= 256
  {
    PAGE_SIZE / SizeOf(t)
  }

  // Offset of block k on a page of type t.
  function Off(t: nat, k: nat): nat
    requires t < NSIZES
  {
    k * SizeOf(t)
  }

  lemma TotalSize(t: nat)
    requires t < NSIZES
    ensures Total(t) * SizeOf(t) == PAGE_SIZE
  {}

  lemma OffFacts(t: nat, k: nat)
    requires t < NSIZES && k < Total(t)
    ensures Off(t, k) + SizeOf(t) <= PAGE_SIZE
    ensures Off(t, k) % SizeOf(t) == 0 && Off(t, k) / SizeOf(t) == k
  {
    hide SizeOf, Total;
    TotalSize(t);
    DivMod(Off(t, k), SizeOf(t), k, 0);
    MulLe(k + 1, Total(t), SizeOf(t));
    assert (k + 1) * SizeOf(t) == k * SizeOf(t) + SizeOf(t);
  }

  // An aligned offset inside the page is the offset of a block.
  lemma OffOf(t: nat, off: nat)
    requires t < NSIZES && off < PAGE_SIZE && off % SizeOf(t) == 0
    ensures off / SizeOf(t) < Total(t) && Off(t, off / SizeOf(t)) == off
  {
    hide SizeOf, Total;
    TotalSize(t);
    var s := SizeOf(t);
    assert off == s * (off / s) + off % s;
    if off / s >= Total(t) {
      MulLe(Total(t), off / s, s);
      assert false;
    }
  }

  // Different blocks of a page do not overlap.
  lemma OffApart(t: nat, j: nat, k: nat)
    requires t < NSIZES && j < k
    ensures Off(t, j) + SizeOf(t) <= Off(t, k)
  {
    hide SizeOf;
    MulLe(j + 1, k, SizeOf(t));
    assert (j + 1) * SizeOf(t) == j * SizeOf(t) + SizeOf(t);
  }

  // ---------- pagerefs ----------

  function PageOf(p: nat): nat {
    p - p % PAGE_SIZE
  }

  // struct pageref; -1 is the null pointer
  datatype PageRef = PageRef(nextSame: int, nextAll: int, pab: nat, flo: nat, nfree: nat)
  {
    // PR_PAGEADDR
    function Page(): nat {
      PageOf(pab)
    }

    // PR_BLOCKTYPE
    function Type(): nat {
      pab % PAGE_SIZE
    }
  }

  // Address of block k of the page of pr.
  function Addr(pr: PageRef, k: nat): nat
    requires pr.Type() < NSIZES
  {
    pr.Page() + Off(pr.Type(), k)
  }

  lemma AddrFacts(pr: PageRef, k: nat)
    requires pr.Type() < NSIZES && k < Total(pr.Type())
    ensures PageOf(Addr(pr, k)) == pr.Page() && Addr(pr, k) % PAGE_SIZE == Off(pr.Type(), k)
    ensures pr.Page() <= Addr(pr, k) && Addr(pr, k) + SizeOf(pr.Type()) <= pr.Page() + PAGE_SIZE
    ensures pr.Page() % PAGE_SIZE == 0
  {
    hide SizeOf, Total, Off;
    OffFacts(pr.Type(), k);
  }

  predicate Distinct(s: seq<nat>) {
    forall i, j :: 0 <= i < j < |s| ==> s[i] != s[j]
  }

  // A linked list of pagerefs, given the link of each.
  ghost predicate IsList(next: seq<int>, head: int, s: seq<nat>) {
    && head == (if s == [] then -1 else s[0])
    && (forall i :: 0 <= i < |s| ==> s[i] < |next|)
    && forall i {:trigger LinkAt(next, s, i)} :: 0 <= i < |s| ==> LinkAt(next, s, i)
  }

  ghost predicate LinkAt(next: seq<int>, s: seq<nat>, i: nat)
    requires i < |s| && s[i] < |next|
  {
    next[s[i]] == if i + 1 < |s| then s[i + 1] else -1
  }

  function Sames(prs: seq<PageRef>): (s: seq<int>)
    ensures |s| == |prs| && forall i :: 0 <= i < |s| ==> s[i] == prs[i].nextSame
  {
    seq(|prs|, i requires 0 <= i < |prs| => prs[i].nextSame)
  }

  function Alls(prs: seq<PageRef>): (s: seq<int>)
    ensures |s| == |prs| && forall i :: 0 <= i < |s| ==> s[i] == prs[i].nextAll
  {
    seq(|prs|, i requires 0 <= i < |prs| => prs[i].nextAll)
  }

  // The free list of a page: blocks f, first to last, chained through memory.
  ghost predicate FreeList(pr: PageRef, mem: map<nat, nat>, f: seq<nat>) {
    && pr.Type() < NSIZES && KSEG0 <= pr.Page() && pr.Page() + PAGE_SIZE <= KSEG1
    && Distinct(f) && (forall i :: 0 <= i < |f| ==> f[i] < Total(pr.Type()))
    && pr.nfree == |f|
    && pr.flo == (if f == [] then INVALID_OFFSET else Off(pr.Type(), f[0]))
    && forall i :: 0 <= i < |f| ==> Chained(pr, mem, f, i)
  }

  // The word in free block f[i] points to the next free block.
  ghost predicate Chained(pr: PageRef, mem: map<nat, nat>, f: seq<nat>, i: nat)
    requires i < |f| && pr.Type() < NSIZES
  {
    && Addr(pr, f[i]) in mem
    && mem[Addr(pr, f[i])] == if i + 1 < |f| then Addr(pr, f[i + 1]) else 0
  }

  // ---------- the heap ----------

  // The pages an allocation of n whole pages takes up.
  function Footprint(n: nat): nat {
    if n == 0 then 1 else n
  }

  type Pagerefs = seq<PageRef>
  type Frees = map<nat, seq<nat>>

  ghost predicate InRange(prs: Pagerefs, all: seq<nat>, free: Frees) {
    (forall x :: x in all ==> x < |prs| && prs[x].Type() < NSIZES) && free.Keys == (set x | x in all)
  }

  // allbase is the disjoint union of the size lists and matches the bits.
  ghost predicate Lists(prs: Pagerefs, inuse: seq<bool>, sizebases: seq<int>, allbase: int, all: seq<nat>,
                        same: seq<seq<nat>>) {
    && |prs| == NPAGEREFS == |inuse| && |sizebases| == NSIZES == |same|
    && Distinct(all) && IsList(Alls(prs), allbase, all)
    && (forall t :: 0 <= t < NSIZES ==> Distinct(same[t]) && IsList(Sames(prs), sizebases[t], same[t]))
    && (forall x :: x in all ==> x < |prs| && prs[x].Type() < NSIZES && x in same[prs[x].Type()])
    && (forall t, x :: 0 <= t < NSIZES && x in same[t] ==> x in all && prs[x].Type() == t)
    && (forall x :: 0 <= x < NPAGEREFS ==> (inuse[x] <==> x in all))
  }

  // Pages have distinct addresses and good free lists.
  ghost predicate Pages(prs: Pagerefs, mem: map<nat, nat>, all: seq<nat>, at: map<nat, nat>, free: Frees)
    requires InRange(prs, all, free)
  {
    && (forall x :: x in all ==> FreeList(prs[x], mem, free[x]))
    && (forall x :: x in all ==> prs[x].Page() in at && at[prs[x].Page()] == x)
    && (forall a :: a in at ==> at[a] in all && prs[at[a]].Page() == a)
  }

  // Whole-page runs are aligned and apart from each other and the pages.
  ghost predicate Runs(at: map<nat, nat>, big: map<nat, nat>) {
    && (forall a :: a in big ==> a > 0 && a % PAGE_SIZE == 0)
    && (forall a, q :: a in big && q in at ==> !(a <= q < a + PAGE_SIZE * Footprint(big[a])))
    && (forall a, b :: a in big && b in big && a < b ==> a + PAGE_SIZE * Footprint(big[a]) <= b)
  }

  // What clients hold is either a block that is not free or a run.
  ghost predicate HeldIs(prs: Pagerefs, all: seq<nat>, at: map<nat, nat>, free: Frees, big: map<nat, nat>,
                         live: map<nat, nat>)
    requires InRange(prs, all, free)
  {
    forall p :: p in live ==>
      if PageOf(p) in at then at[PageOf(p)] in all &&
        HeldBlock(prs[at[PageOf(p)]], free[at[PageOf(p)]], p, live[p]) else p in big
  }

  // Blocks that are not free are held.
  ghost predicate BlocksHeld(prs: Pagerefs, all: seq<nat>, free: Frees, live: map<nat, nat>)
    requires InRange(prs, all, free)
  {
    forall x, k :: x in all && 0 <= k < Total(prs[x].Type()) && k !in free[x] ==> Addr(prs[x], k) in live
  }

  // Runs are held.
  ghost predicate RunsHeld(big: map<nat, nat>, live: map<nat, nat>) {
    forall a :: a in big ==> a in live && live[a] == PAGE_SIZE * big[a]
  }

  // Clients hold the blocks of each page that are not free, and the runs.
  ghost predicate Held(prs: Pagerefs, all: seq<nat>, at: map<nat, nat>, free: Frees, big: map<nat, nat>,
                       live: map<nat, nat>)
    requires InRange(prs, all, free)
  {
    HeldIs(prs, all, at, free, big, live) && BlocksHeld(prs, all, free, live) && RunsHeld(big, live)
  }

  // p is a block of the page that is not free, granted whole.
  ghost predicate HeldBlock(pr: PageRef, f: seq<nat>, p: nat, n: nat)
    requires pr.Type() < NSIZES
  {
    var s := SizeOf(pr.Type());
    p % PAGE_SIZE % s == 0 && p % PAGE_SIZE / s !in f && n == s
  }

  datatype Heap = Heap(prs: Pagerefs, inuse: seq<bool>, sizebases: seq<int>, allbase: int, mem: map<nat, nat>,
                       all: seq<nat>,              // the list from allbase
                       same: seq<seq<nat>>,        // the lists from sizebases
                       at: map<nat, nat>,          // page address to pageref
                       free: Frees,                // the free list of each page
                       big: map<nat, nat>,         // whole-page allocations: address to pages
                       live: map<nat, nat>)        // what clients hold: address to bytes granted
  {
    ghost predicate Core() {
      && InRange(prs, all, free)
      && Lists(prs, inuse, sizebases, allbase, all, same)
      && Pages(prs, mem, all, at, free)
      && Runs(at, big)
      && Held(prs, all, at, free, big, live)
    }

    // No page is kept with all its blocks free.
    ghost predicate Lean()
      requires InRange(prs, all, free)
    {
      forall x :: x in all ==> prs[x].nfree < Total(prs[x].Type())
    }

    ghost predicate Inv() {
      Core() && Lean()
    }
  }

  // ---------- what clients may rely on ----------

  lemma HeldBlockAt(pr: PageRef, f: seq<nat>, p: nat, n: nat) returns (k: nat)
    requires pr.Type() < NSIZES && HeldBlock(pr, f, p, n) && PageOf(p) == pr.Page()
    ensures k < Total(pr.Type()) && k !in f && p == Addr(pr, k) && n == SizeOf(pr.Type())
  {
    hide SizeOf, Total, Off;
    k := p % PAGE_SIZE / SizeOf(pr.Type());
    OffOf(pr.Type(), p % PAGE_SIZE);
  }

  // A live address on a page of ours is one of its blocks that is not free.
  lemma HeldAddr(h: Heap, p: nat) returns (x: nat, k: nat)
    requires h.Core() && p in h.live && PageOf(p) in h.at
    ensures x in h.all && x == h.at[PageOf(p)] && h.prs[x].Page() == PageOf(p)
    ensures k < Total(h.prs[x].Type()) && k !in h.free[x] && p == Addr(h.prs[x], k)
    ensures h.live[p] == SizeOf(h.prs[x].Type())
  {
    hide SizeOf, Total, Addr, FreeList, Lists, Runs, HeldBlock, PageOf;
    x := h.at[PageOf(p)];
    k := HeldBlockAt(h.prs[x], h.free[x], p, h.live[p]);
  }

  // Everything handed out and not yet freed is apart from everything else.
  lemma LiveDisjoint(h: Heap, p: nat, q: nat)
    requires h.Core() && p in h.live && q in h.live && p < q
    ensures p + h.live[p] <= q
  {
    hide SizeOf, Total, Lists, Pages, Runs, Held, Addr;
    if PageOf(p) in h.at {
      var x, k := HeldAddr(h, p);
      AddrFacts(h.prs[x], k);
      if PageOf(p) == PageOf(q) {
        var y, m := HeldAddr(h, q);
        BlocksApart(h.prs[x], k, m);
      }
    } else {
      HeldRun(h, p);
      if PageOf(q) in h.at {
        RunMissesPage(h.at, h.big, p, q);
      } else {
        HeldRun(h, q);
        RunsMiss(h.at, h.big, p, q);
      }
    }
  }

  lemma HeldRun(h: Heap, a: nat)
    requires h.Core() && a in h.live && PageOf(a) !in h.at
    ensures a in h.big && h.live[a] == PAGE_SIZE * h.big[a]
  {
    hide Lists, Pages, Runs, HeldBlock, Addr, PageOf;
  }

  lemma RunMissesPage(at: map<nat, nat>, big: map<nat, nat>, a: nat, q: nat)
    requires Runs(at, big) && a in big && PageOf(q) in at && a < q
    ensures a + PAGE_SIZE * Footprint(big[a]) <= q
  {}

  lemma RunsMiss(at: map<nat, nat>, big: map<nat, nat>, a: nat, b: nat)
    requires Runs(at, big) && a in big && b in big && a < b
    ensures a + PAGE_SIZE * Footprint(big[a]) <= b
  {}

  lemma BlocksApart(pr: PageRef, j: nat, k: nat)
    requires pr.Type() < NSIZES && Addr(pr, j) < Addr(pr, k)
    ensures Addr(pr, j) + SizeOf(pr.Type()) <= Addr(pr, k)
  {
    hide SizeOf;
    if k < j { OffApart(pr.Type(), k, j); }
    if j < k { OffApart(pr.Type(), j, k); }
  }
}
