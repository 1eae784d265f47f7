/**
 The steps that make up kmalloc and kfree, each keeping the heap invariant:
 take a block off a free list, give one back, add a page, drop a page, add
 and drop a run of whole pages, and a client's store into its own block.
 */
module KheapSteps {
  import opened KheapModel

  // mem and mem' differ only inside lo..hi.
  ghost predicate SameOutside(mem: map<nat, nat>, mem': map<nat, nat>, lo: nat, hi: nat) {
    forall a :: a < lo || a >= hi ==> (a in mem <==> a in mem') && (a in mem ==> mem'[a] == mem[a])
  }

  // ---------- frames ----------

  // Pagerefs that agree on links and page agree on the lists.
  lemma ListsFrame(h: Heap, prs': Pagerefs)
    requires Lists(h.prs, h.inuse, h.sizebases, h.allbase, h.all, h.same)
    requires Sames(prs') == Sames(h.prs) && Alls(prs') == Alls(h.prs)
    requires forall x :: 0 <= x < |h.prs| ==> x < |prs'| && prs'[x].pab == h.prs[x].pab
    ensures Lists(prs', h.inuse, h.sizebases, h.allbase, h.all, h.same)
  {
    hide IsList, Distinct, Sames, Alls;
    assert |prs'| == |Sames(prs')|;
  }

  lemma FreeListFrame(pr: PageRef, mem: map<nat, nat>, mem': map<nat, nat>, f: seq<nat>, lo: nat, hi: nat)
    requires FreeList(pr, mem, f) && SameOutside(mem, mem', lo, hi)
    requires hi <= pr.Page() || pr.Page() + PAGE_SIZE <= lo || forall i :: 0 <= i < |f| ==> !(lo <= Addr(pr, f[i]) < hi)
    ensures FreeList(pr, mem', f)
  {
    hide SizeOf, Total, Off, Distinct, PageOf, Addr;
    forall i | 0 <= i < |f|
      ensures Chained(pr, mem', f, i)
    {
      assert Chained(pr, mem, f, i);
      AddrFacts(pr, f[i]);
    }
  }

  // Aligned addresses that differ are a page apart.
  lemma PagesApart(p: nat, q: nat)
    requires PageOf(p) != PageOf(q)
    ensures PageOf(p) + PAGE_SIZE <= PageOf(q) || PageOf(q) + PAGE_SIZE <= PageOf(p)
  {}

  lemma PageAligned(p: nat)
    ensures PageOf(p) % PAGE_SIZE == 0
  {}

  // One page changes, with memory inside it.
  lemma PagesPatch(h: Heap, x: nat, pr': PageRef, mem': map<nat, nat>, f': seq<nat>, lo: nat, hi: nat)
    requires InRange(h.prs, h.all, h.free) && Pages(h.prs, h.mem, h.all, h.at, h.free) && x in h.all
    requires pr'.pab == h.prs[x].pab && FreeList(pr', mem', f')
    requires SameOutside(h.mem, mem', lo, hi) && pr'.Page() <= lo <= hi <= pr'.Page() + PAGE_SIZE
    ensures InRange(h.prs[x := pr'], h.all, h.free[x := f'])
    ensures Pages(h.prs[x := pr'], mem', h.all, h.at, h.free[x := f'])
  {
    hide FreeList, SameOutside, PageOf;
    var prs', free' := h.prs[x := pr'], h.free[x := f'];
    assert free'.Keys == h.free.Keys;
    forall y | y in h.all
      ensures FreeList(prs'[y], mem', free'[y])
    {
      if y != x {
        PagesApart(h.prs[x].pab, h.prs[y].pab);
        FreeListFrame(h.prs[y], h.mem, mem', h.free[y], lo, hi);
      }
    }
  }

  // ---------- a block leaves its free list ----------

  function Popped(pr: PageRef, f: seq<nat>): PageRef
    requires f != [] && pr.Type() < NSIZES
  {
    pr.(nfree := |f| - 1, flo := if |f| == 1 then INVALID_OFFSET else Off(pr.Type(), f[1]))
  }

  ghost function TakeBlock(h: Heap, x: nat): Heap
    requires InRange(h.prs, h.all, h.free) && x in h.all && h.free[x] != []
  {
    var pr, f := h.prs[x], h.free[x];
    h.(prs := h.prs[x := Popped(pr, f)], free := h.free[x := f[1..]],
       live := h.live[Addr(pr, f[0]) := SizeOf(pr.Type())])
  }

  lemma PoppedFree(pr: PageRef, mem: map<nat, nat>, f: seq<nat>)
    requires FreeList(pr, mem, f) && f != []
    ensures FreeList(Popped(pr, f), mem, f[1..])
  {
    hide SizeOf, Total, Off, PageOf;
    var pr' := Popped(pr, f);
    forall i | 0 <= i < |f[1..]|
      ensures Chained(pr', mem, f[1..], i)
    {
      assert Chained(pr, mem, f, i + 1);
    }
  }

  lemma PoppedHeld(pr: PageRef, mem: map<nat, nat>, f: seq<nat>)
    requires FreeList(pr, mem, f) && f != []
    ensures HeldBlock(Popped(pr, f), f[1..], Addr(pr, f[0]), SizeOf(pr.Type()))
    ensures PageOf(Addr(pr, f[0])) == pr.Page()
  {
    hide SizeOf, Total, Off, PageOf, Addr;
    AddrFacts(pr, f[0]);
    OffFacts(pr.Type(), f[0]);
  }

  // A page address of ours is no run.
  lemma PageNotRun(at: map<nat, nat>, big: map<nat, nat>, a: nat)
    requires Runs(at, big) && PageOf(a) in at
    ensures a !in big
  {}

  lemma AddrSame(pr: PageRef, pr': PageRef, k: nat)
    requires pr.pab == pr'.pab && pr.Type() < NSIZES
    ensures pr'.Type() < NSIZES && Addr(pr', k) == Addr(pr, k)
  {}

  // The clauses of Held when page x changes to pr' and f'.
  lemma HeldIsPatch(h: Heap, x: nat, pr': PageRef, f': seq<nat>, live': map<nat, nat>)
    requires InRange(h.prs, h.all, h.free) && HeldIs(h.prs, h.all, h.at, h.free, h.big, h.live)
    requires x in h.all && pr'.pab == h.prs[x].pab && (forall a :: a in h.at && h.at[a] == x ==> a == pr'.Page())
    requires forall p :: p in live' && PageOf(p) == pr'.Page() ==>
               pr'.Page() in h.at && h.at[pr'.Page()] == x && HeldBlock(pr', f', p, live'[p])
    requires forall p :: p in live' && PageOf(p) != pr'.Page() ==> p in h.live && live'[p] == h.live[p]
    ensures InRange(h.prs[x := pr'], h.all, h.free[x := f'])
    ensures HeldIs(h.prs[x := pr'], h.all, h.at, h.free[x := f'], h.big, live')
  {
    hide HeldBlock, PageOf;
    assert h.free[x := f'].Keys == h.free.Keys;
  }

  lemma BlocksHeldPatch(h: Heap, x: nat, pr': PageRef, f': seq<nat>, live': map<nat, nat>)
    requires InRange(h.prs, h.all, h.free) && BlocksHeld(h.prs, h.all, h.free, h.live)
    requires x in h.all && pr'.pab == h.prs[x].pab &&
             (forall y :: y in h.all && y != x ==> h.prs[y].Page() != pr'.Page())
    requires forall k :: 0 <= k < Total(pr'.Type()) && k !in f' ==> Addr(pr', k) in live'
    requires forall p :: p in h.live && PageOf(p) != pr'.Page() ==> p in live'
    ensures InRange(h.prs[x := pr'], h.all, h.free[x := f'])
    ensures BlocksHeld(h.prs[x := pr'], h.all, h.free[x := f'], live')
  {
    hide Total, Addr, PageOf;
    var prs', free' := h.prs[x := pr'], h.free[x := f'];
    assert free'.Keys == h.free.Keys;
    forall y, k | y in h.all && 0 <= k < Total(prs'[y].Type()) && k !in free'[y]
      ensures Addr(prs'[y], k) in live'
    {
      if y != x {
        AddrFacts(h.prs[y], k);
      }
    }
  }

  // The blocks of a page that live holds are those not in f.
  ghost predicate PageHeld(pr: PageRef, f: seq<nat>, live: map<nat, nat>)
    requires pr.Type() < NSIZES
  {
    && (forall p :: p in live && PageOf(p) == pr.Page() ==> HeldBlock(pr, f, p, live[p]))
    && (forall k :: 0 <= k < Total(pr.Type()) && k !in f ==> Addr(pr, k) in live)
  }

  lemma HeldPage(h: Heap, x: nat)
    requires h.Core() && x in h.all
    ensures PageHeld(h.prs[x], h.free[x], h.live)
    ensures forall a :: a in h.at && h.at[a] == x ==> a == h.prs[x].Page()
    ensures forall y :: y in h.all && y != x ==> h.prs[y].Page() != h.prs[x].Page()
    ensures h.prs[x].Page() in h.at && h.at[h.prs[x].Page()] == x
  {
    hide Total, Addr, PageOf, Lists, Runs, FreeList, HeldBlock;
  }

  lemma HeldPatch(h: Heap, x: nat, pr': PageRef, f': seq<nat>, live': map<nat, nat>)
    requires h.Core() && x in h.all && pr'.pab == h.prs[x].pab && PageHeld(pr', f', live')
    requires forall p :: p in h.live && PageOf(p) != pr'.Page() ==> p in live'
    requires forall p :: p in live' && PageOf(p) != pr'.Page() ==> p in h.live && live'[p] == h.live[p]
    ensures InRange(h.prs[x := pr'], h.all, h.free[x := f'])
    ensures Held(h.prs[x := pr'], h.all, h.at, h.free[x := f'], h.big, live')
  {
    hide Total, Addr, PageOf, Lists, Runs, Pages, HeldBlock, HeldIs, BlocksHeld;
    HeldPage(h, x);
    HeldIsPatch(h, x, pr', f', live');
    BlocksHeldPatch(h, x, pr', f', live');
    forall a | a in h.big
      ensures a in live' && live'[a] == PAGE_SIZE * h.big[a]
    {
      if PageOf(a) in h.at { PageNotRun(h.at, h.big, a); }
    }
  }

  lemma PoppedPageHeld(pr: PageRef, mem: map<nat, nat>, f: seq<nat>, live: map<nat, nat>)
    requires pr.Type() < NSIZES && FreeList(pr, mem, f) && f != [] && PageHeld(pr, f, live)
    ensures PageHeld(Popped(pr, f), f[1..], live[Addr(pr, f[0]) := SizeOf(pr.Type())])
  {
    hide Off, Total, FreeList, SizeOf, PageOf;
    var pr', f', live' := Popped(pr, f), f[1..], live[Addr(pr, f[0]) := SizeOf(pr.Type())];
    PoppedHeld(pr, mem, f);
    assert forall k :: k in f <==> k == f[0] || k in f' by { assert f == [f[0]] + f'; }
    forall p | p in live' && PageOf(p) == pr'.Page()
      ensures HeldBlock(pr', f', p, live'[p])
    {
      assert p in live || p == Addr(pr, f[0]);
    }
    forall k | 0 <= k < Total(pr'.Type()) && k !in f'
      ensures Addr(pr', k) in live'
    {
      AddrSame(pr, pr', k);
    }
  }

  lemma TakeBlockKeeps(h: Heap, x: nat)
    requires h.Core() && x in h.all && h.free[x] != []
    ensures TakeBlock(h, x).Core()
    ensures forall y :: y in h.all ==> TakeBlock(h, x).prs[y].nfree <= h.prs[y].nfree
    ensures TakeBlock(h, x).prs[x].nfree < Total(h.prs[x].Type()) && TakeBlock(h, x).prs[x].Type() == h.prs[x].Type()
  {
    hide Total, SizeOf, Off, Lists, Pages, Held, Runs, PageOf, PageHeld, Addr;
    var pr, f := h.prs[x], h.free[x];
    var pr', live' := Popped(pr, f), h.live[Addr(pr, f[0]) := SizeOf(pr.Type())];
    HeldPage(h, x);
    PageFree(h, x);
    PoppedFree(pr, h.mem, f);
    PoppedPageHeld(pr, h.mem, f, h.live);
    PoppedHeld(pr, h.mem, f);
    PagesPatch(h, x, pr', h.mem, f[1..], pr.Page(), pr.Page());
    HeldPatch(h, x, pr', f[1..], live');
    ListsFrame(h, h.prs[x := pr']);
  }

  lemma PageFree(h: Heap, x: nat)
    requires h.Core() && x in h.all
    ensures FreeList(h.prs[x], h.mem, h.free[x]) && h.prs[x].nfree == |h.free[x]| <= Total(h.prs[x].Type())
  {
    hide Lists, Held, Runs, Total;
    FreeBound(h.free[x], Total(h.prs[x].Type()));
  }

  // ---------- free lists are bounded ----------

  function RemoveAt(s: seq<nat>, i: nat): seq<nat>
    requires i < |s|
  {
    s[..i] + s[i + 1..]
  }

  // Distinct blocks of a page number at most Total, and if they number Total
  // they are all of them.
  lemma {:induction false} FreeBound(f: seq<nat>, n: nat)
    requires Distinct(f) && forall i :: 0 <= i < |f| ==> f[i] < n
    ensures |f| <= n
    ensures |f| == n <==> forall k :: 0 <= k < n ==> k in f
  {
    if f == [] {
      assert n > 0 ==> 0 !in f;
    } else {
      assert f[0] < n;
      if i :| 0 <= i < |f| && f[i] == n - 1 {
        var f' := RemoveAt(f, i);
        FreeBound(f', n - 1);
        assert forall k :: k in f <==> k in f' || k == n - 1 by { assert f == f[..i] + [f[i]] + f[i + 1..]; }
      } else {
        FreeBound(f, n - 1);
        assert n - 1 !in f;
      }
    }
  }

  // ---------- a block goes back on its free list ----------

  function Pushed(pr: PageRef, f: seq<nat>, k: nat): PageRef
    requires pr.Type() < NSIZES
  {
    pr.(nfree := |f| + 1, flo := Off(pr.Type(), k))
  }

  ghost function GiveBlock(h: Heap, x: nat, k: nat, mem': map<nat, nat>): Heap
    requires InRange(h.prs, h.all, h.free) && x in h.all
  {
    var pr, f := h.prs[x], h.free[x];
    h.(prs := h.prs[x := Pushed(pr, f, k)], free := h.free[x := [k] + f], mem := mem', live := h.live - {Addr(pr, k)})
  }

  // Memory with block k filled and then linked in front of the free list.
  ghost predicate Linked(pr: PageRef, mem: map<nat, nat>, mem': map<nat, nat>, f: seq<nat>, k: nat)
    requires pr.Type() < NSIZES
  {
    && SameOutside(mem, mem', Addr(pr, k), Addr(pr, k) + SizeOf(pr.Type()))
    && Addr(pr, k) in mem' && mem'[Addr(pr, k)] == if f == [] then 0 else Addr(pr, f[0])
  }

  lemma BlockMisses(pr: PageRef, j: nat, k: nat)
    requires pr.Type() < NSIZES && j != k
    ensures !(Addr(pr, k) <= Addr(pr, j) < Addr(pr, k) + SizeOf(pr.Type()))
  {
    hide SizeOf;
    if j < k { OffApart(pr.Type(), j, k); } else { OffApart(pr.Type(), k, j); }
  }

  lemma PushedFree(pr: PageRef, mem: map<nat, nat>, mem': map<nat, nat>, f: seq<nat>, k: nat)
    requires FreeList(pr, mem, f) && k < Total(pr.Type()) && k !in f && Linked(pr, mem, mem', f, k)
    ensures FreeList(Pushed(pr, f, k), mem', [k] + f)
  {
    hide SizeOf, Total, Off, PageOf, SameOutside;
    var pr', f' := Pushed(pr, f, k), [k] + f;
    forall i | 0 <= i < |f|
      ensures !(Addr(pr, k) <= Addr(pr, f[i]) < Addr(pr, k) + SizeOf(pr.Type()))
    {
      BlockMisses(pr, f[i], k);
    }
    FreeListFrame(pr, mem, mem', f, Addr(pr, k), Addr(pr, k) + SizeOf(pr.Type()));
    forall i | 0 <= i < |f'|
      ensures Chained(pr', mem', f', i)
    {
      assert i > 0 ==> Chained(pr, mem', f, i - 1);
    }
  }

  lemma PushedPageHeld(pr: PageRef, f: seq<nat>, k: nat, live: map<nat, nat>)
    requires pr.Type() < NSIZES && PageHeld(pr, f, live)
    ensures PageHeld(Pushed(pr, f, k), [k] + f, live - {Addr(pr, k)})
  {
    hide SizeOf, Total, Off, PageOf;
    var pr', f', live' := Pushed(pr, f, k), [k] + f, live - {Addr(pr, k)};
    forall p | p in live' && PageOf(p) == pr'.Page()
      ensures HeldBlock(pr', f', p, live'[p])
    {
      var m := HeldBlockAt(pr, f, p, live[p]);
      assert p % PAGE_SIZE / SizeOf(pr.Type()) == m by { AddrFacts(pr, m); OffFacts(pr.Type(), m); }
    }
    forall m | 0 <= m < Total(pr'.Type()) && m !in f'
      ensures Addr(pr', m) in live'
    {
      assert m !in f && m != k;
      BlockMisses(pr, m, k);
    }
  }

  lemma GiveBlockKeeps(h: Heap, x: nat, k: nat, mem': map<nat, nat>)
    requires h.Core() && x in h.all && k < Total(h.prs[x].Type()) && k !in h.free[x]
    requires Linked(h.prs[x], h.mem, mem', h.free[x], k)
    ensures GiveBlock(h, x, k, mem').Core()
    ensures forall y :: y in h.all && y != x ==> GiveBlock(h, x, k, mem').prs[y] == h.prs[y]
  {
    hide Total, SizeOf, Off, Lists, Pages, Held, Runs, PageOf, PageHeld, Addr, SameOutside;
    var pr, f := h.prs[x], h.free[x];
    var pr', live' := Pushed(pr, f, k), h.live - {Addr(pr, k)};
    HeldPage(h, x);
    PageFree(h, x);
    PushedFree(pr, h.mem, mem', f, k);
    PushedPageHeld(pr, f, k, h.live);
    AddrFacts(pr, k);
    PagesPatch(h, x, pr', mem', [k] + f, Addr(pr, k), Addr(pr, k) + SizeOf(pr.Type()));
    HeldPatch(h, x, pr', [k] + f, live');
    ListsFrame(h, h.prs[x := pr']);
  }

  // ---------- runs of whole pages ----------

  // What alloc_kpages may answer when asked for n pages: a page-aligned run of
  // kernel memory apart from everything it has supplied before.
  ghost predicate Supplied(at: map<nat, nat>, big: map<nat, nat>, a: nat, n: nat) {
    && KSEG0 <= a && a + PAGE_SIZE * Footprint(n) <= KSEG1 && a % PAGE_SIZE == 0
    && (forall q :: q in at ==> !(a <= q < a + PAGE_SIZE * Footprint(n)))
    && (forall b :: b in big ==> a + PAGE_SIZE * Footprint(n) <= b || b + PAGE_SIZE * Footprint(big[b]) <= a)
  }

  ghost function AddRun(h: Heap, a: nat, n: nat): Heap {
    h.(big := h.big[a := n], live := h.live[a := PAGE_SIZE * n])
  }

  ghost function DropRun(h: Heap, a: nat): Heap {
    h.(big := h.big - {a}, live := h.live - {a})
  }

  // Nothing live starts on pages just supplied.
  lemma SuppliedNotLive(h: Heap, a: nat, n: nat, p: nat)
    requires h.Core() && Supplied(h.at, h.big, a, n) && PageOf(p) == a
    ensures p !in h.live && a !in h.at && a !in h.big
  {
    hide Lists, Pages, Runs, BlocksHeld, RunsHeld, HeldBlock;
    if p in h.live {
      HeldRunOnly(h, p);
    }
  }

  lemma HeldRunOnly(h: Heap, p: nat)
    requires h.Core() && p in h.live && PageOf(p) !in h.at
    ensures p in h.big && PageOf(p) == p
  {
    hide Lists, Pages, BlocksHeld, RunsHeld, HeldBlock;
  }

  lemma RunsAdd(at: map<nat, nat>, big: map<nat, nat>, a: nat, n: nat)
    requires Runs(at, big) && Supplied(at, big, a, n)
    ensures Runs(at, big[a := n])
  {
    hide PageOf;
  }

  lemma RunsDrop(at: map<nat, nat>, big: map<nat, nat>, a: nat)
    requires Runs(at, big)
    ensures Runs(at, big - {a})
  {}

  // Held when a run comes or goes.
  lemma HeldIsRun(h: Heap, big': map<nat, nat>, live': map<nat, nat>)
    requires InRange(h.prs, h.all, h.free) && HeldIs(h.prs, h.all, h.at, h.free, h.big, h.live)
    requires forall p :: p in live' ==>
               (p in big' && PageOf(p) !in h.at) || (p in h.live && live'[p] == h.live[p] && (p in h.big ==> p in big'))
    ensures HeldIs(h.prs, h.all, h.at, h.free, big', live')
  {
    hide HeldBlock, PageOf;
  }

  lemma BlocksHeldRun(h: Heap, live': map<nat, nat>)
    requires h.Core() && forall p :: p in h.live && PageOf(p) in h.at ==> p in live'
    ensures BlocksHeld(h.prs, h.all, h.free, live')
  {
    hide Addr, Total, PageOf, Lists, FreeList, HeldIs, Runs;
    forall x, k | x in h.all && 0 <= k < Total(h.prs[x].Type()) && k !in h.free[x]
      ensures Addr(h.prs[x], k) in live'
    {
      AddrFacts(h.prs[x], k);
    }
  }

  lemma AddRunKeeps(h: Heap, a: nat, n: nat)
    requires h.Core() && Supplied(h.at, h.big, a, n)
    ensures AddRun(h, a, n).Core() && a !in h.live
  {
    hide Lists, Pages, BlocksHeld, HeldIs, Runs, Supplied;
    var h' := AddRun(h, a, n);
    assert PageOf(a) == a by { assert a % PAGE_SIZE == 0 by { SuppliedAligned(h.at, h.big, a, n); } }
    SuppliedNotLive(h, a, n, a);
    RunsAdd(h.at, h.big, a, n);
    HeldIsRun(h, h'.big, h'.live);
    BlocksHeldRun(h, h'.live);
  }

  lemma SuppliedAligned(at: map<nat, nat>, big: map<nat, nat>, a: nat, n: nat)
    requires Supplied(at, big, a, n)
    ensures a % PAGE_SIZE == 0 && KSEG0 <= a && a + PAGE_SIZE <= KSEG1
  {}

  lemma DropRunKeeps(h: Heap, a: nat)
    requires h.Core() && a in h.live && PageOf(a) !in h.at
    ensures DropRun(h, a).Core() && a in h.big && a % PAGE_SIZE == 0
  {
    hide Lists, Pages, BlocksHeld, HeldIs, Runs;
    var h' := DropRun(h, a);
    HeldRunOnly(h, a);
    RunsDrop(h.at, h.big, a);
    HeldIsRun(h, h'.big, h'.live);
    BlocksHeldRun(h, h'.live);
  }

  // ---------- a client writes to its own memory ----------

  // An aligned word stored inside what the client holds disturbs no free list.
  lemma ClientStoreKeeps(h: Heap, p: nat, w: nat, v: nat)
    requires h.Inv() && p in h.live && p <= w && w + 4 <= p + h.live[p] && w % 4 == 0
    ensures h.(mem := h.mem[w := v]).Inv()
  {
    hide Lists, Held, Runs, FreeList, Total;
    var mem' := h.mem[w := v];
    forall x | x in h.all
      ensures FreeList(h.prs[x], mem', h.free[x])
    {
      StoreMissesPage(h, p, w, v, x);
    }
  }

  lemma StoreMissesPage(h: Heap, p: nat, w: nat, v: nat, x: nat)
    requires h.Core() && p in h.live && p <= w < p + h.live[p] && x in h.all
    ensures FreeList(h.prs[x], h.mem[w := v], h.free[x])
  {
    hide Lists, Pages, Held, Runs, FreeList, Total, PageOf, SizeOf, Addr;
    PageFree(h, x);
    HeldPage(h, x);
    if PageOf(p) in h.at {
      var y, k := HeldAddr(h, p);
      AddrFacts(h.prs[y], k);
      if y == x {
        StoreMissesBlocks(h.prs[x], h.mem, h.free[x], k);
      } else {
        PagesApart(h.prs[x].pab, h.prs[y].pab);
      }
    } else {
      HeldRun(h, p);
      PageAligned(h.prs[x].pab);
      RunMissesWholePage(h.at, h.big, p, h.prs[x].Page());
    }
    FreeListFrame(h.prs[x], h.mem, h.mem[w := v], h.free[x], w, w + 1);
  }

  lemma StoreMissesBlocks(pr: PageRef, mem: map<nat, nat>, f: seq<nat>, k: nat)
    requires FreeList(pr, mem, f) && k !in f
    ensures forall i :: 0 <= i < |f| ==> !(Addr(pr, k) <= Addr(pr, f[i]) < Addr(pr, k) + SizeOf(pr.Type()))
  {
    hide Total, SizeOf, Addr, PageOf, Distinct, Chained;
    forall i | 0 <= i < |f|
      ensures !(Addr(pr, k) <= Addr(pr, f[i]) < Addr(pr, k) + SizeOf(pr.Type()))
    {
      BlockMisses(pr, f[i], k);
    }
  }

  lemma RunMissesWholePage(at: map<nat, nat>, big: map<nat, nat>, a: nat, q: nat)
    requires Runs(at, big) && a in big && q in at && q % PAGE_SIZE == 0
    ensures q + PAGE_SIZE <= a || a + PAGE_SIZE * Footprint(big[a]) <= q
  {}
}
