/**
 kern/lib/kheap.c: the kernel heap. The page supplier is outside: an
 operation that may ask it for pages takes the address it would answer.
 */
module Kheap {
  import opened Arith
  import opened KheapModel
  import opened KheapSteps
  import opened KheapPages

  const LARGEST_SUBPAGE_SIZE := 2048
  const DEADBEEF := 0xdeadbeef

  // The pages that kmalloc asks for: the sum wraps in a 32-bit size_t.
  function PagesFor(sz: nat): nat {
    (sz + PAGE_SIZE - 1) % 0x1_0000_0000 / PAGE_SIZE
  }

  // The smallest block type that holds sz bytes.
  ghost predicate Fits(t: nat, sz: nat) {
    t < NSIZES && sz <= SizeOf(t) && (t > 0 ==> SizeOf(t - 1) < sz)
  }

  class Heapkeeper {
    const prs: array<PageRef>      // pagerefs
    const inuse: array<bool>       // the bits of pagerefs_inuse
    const sizebases: array<int>
    var allbase: int
    var mem: map<nat, nat>         // words of memory
    ghost var all: seq<nat>
    ghost var same: seq<seq<nat>>
    ghost var at: map<nat, nat>
    ghost var free: Frees
    ghost var big: map<nat, nat>
    ghost var live: map<nat, nat>

    ghost function V(): Heap
      reads this, prs, inuse, sizebases
    {
      Heap(prs[..], inuse[..], sizebases[..], allbase, mem, all, same, at, free, big, live)
    }

    // No two of the arrays are one object: their types differ.
    ghost predicate Valid()
      reads this, prs, inuse, sizebases
    {
      prs.Length == NPAGEREFS == inuse.Length && sizebases.Length == NSIZES && V().Inv()
    }

    // The state at boot: nothing allocated.
    constructor ()
      ensures Valid() && fresh(prs) && fresh(inuse) && fresh(sizebases)
      ensures live == at == big == map[]
    {
      prs := new PageRef[NPAGEREFS](_ => PageRef(-1, -1, 0, 0, 0));
      inuse := new bool[NPAGEREFS](_ => false);
      sizebases := new int[NSIZES](_ => -1);
      allbase := -1;
      mem := map[];
      all, same, at, free, big, live := [], seq(NSIZES, _ => []), map[], map[], map[], map[];
    }

    // allocpageref: the first clear bit, set; or -1 when all are set.
    method AllocPageref() returns (x: int)
      requires inuse.Length == NPAGEREFS
      modifies inuse
      ensures x == -1 ==> inuse[..] == old(inuse[..]) && forall y :: 0 <= y < NPAGEREFS ==> inuse[y]
      ensures x != -1 ==> 0 <= x < NPAGEREFS && !old(inuse[x]) && inuse[..] == old(inuse[..])[x := true]
      ensures x != -1 ==> forall y :: 0 <= y < x ==> old(inuse[y])
    {
      for i := 0 to 8
        invariant inuse[..] == old(inuse[..]) && forall y :: 0 <= y < 32 * i ==> inuse[y]
      {
        for j := 0 to 32
          invariant inuse[..] == old(inuse[..]) && forall y :: 0 <= y < 32 * i + j ==> inuse[y]
        {
          if !inuse[32 * i + j] {
            inuse[32 * i + j] := true;
            return 32 * i + j;
          }
        }
      }
      return -1;
    }

    // freepageref
    method FreePageref(x: nat)
      requires x < inuse.Length && inuse[x]
      modifies inuse
      ensures inuse[..] == old(inuse[..])[x := false]
    {
      inuse[x] := false;
    }

    // blocktype
    static method Blocktype(sz: nat) returns (t: nat)
      requires sz < LARGEST_SUBPAGE_SIZE
      ensures Fits(t, sz)
    {
      t := 0;
      while sz > SizeOf(t)
        invariant t < NSIZES && (t > 0 ==> SizeOf(t - 1) < sz)
        decreases NSIZES - t
      {
        t := t + 1;
      }
    }

    // The list walk of subpage_kmalloc: a page with room on the list s, or -1.
    method FindRoom(t: nat, ghost s: seq<nat>) returns (x: int)
      requires t < sizebases.Length && IsList(Sames(prs[..]), sizebases[t], s)
      ensures x == -1 ==> forall y :: y in s ==> y < prs.Length && prs[y].nfree == 0
      ensures x != -1 ==> 0 <= x < prs.Length && x in s && prs[x].nfree > 0
    {
      x := sizebases[t];
      ghost var i := 0;
      while x != -1
        invariant i <= |s| && x == if i < |s| then s[i] else -1
        invariant forall j :: 0 <= j < i ==> prs[s[j]].nfree == 0
        decreases |s| - i
      {
        if prs[x].nfree > 0 {
          return;
        }
        assert LinkAt(Sames(prs[..]), s, i);
        x := prs[x].nextSame;
        i := i + 1;
      }
    }

    // doalloc: the first free block of page x.
    method TakeFree(x: nat) returns (p: nat)
      requires x < prs.Length && x in free && FreeList(prs[x], mem, free[x]) && prs[x].nfree > 0
      requires InRange(prs[..], all, free) && x in all
      modifies prs, this`free, this`live
      ensures V() == TakeBlock(old(V()), x) && p == Addr(old(prs[x]), old(free)[x][0])
    {
      hide Total, SizeOf, PageOf, Distinct;
      ghost var v0, f, t := V(), free[x], prs[x].Type();
      assert Chained(prs[x], mem, f, 0);
      OffFacts(t, f[0]);
      assert prs[x].flo < PAGE_SIZE;
      var prpage := prs[x].Page();
      p := prpage + prs[x].flo;
      var next := mem[p];
      if next != 0 {
        assert |f| > 1;
        OffFacts(t, f[1]);
        assert next - prpage < PAGE_SIZE;
        prs[x] := prs[x].(nfree := prs[x].nfree - 1, flo := next - prpage);
      } else {
        assert |f| == 1;
        prs[x] := prs[x].(nfree := prs[x].nfree - 1, flo := INVALID_OFFSET);
      }
      free := free[x := f[1..]];
      live := live[p := SizeOf(t)];
      assert prs[..] == v0.prs[x := prs[x]];
    }

    // The free list over a fresh page: block 0 last, each block pointing to
    // the one before it.
    method Thread(page: nat, t: nat)
      requires t < NSIZES && page > 0 && page % PAGE_SIZE == 0
      modifies this`mem
      ensures SameOutside(old(mem), mem, page, page + PAGE_SIZE)
      ensures Threaded(mem, page, t, Total(t))
    {
      hide Total, SizeOf, Off;
      ghost var mem0 := mem;
      mem := mem[page := 0];
      assert Off(t, 0) == 0 by { OffZero(t); }
      assert ThreadedAt(mem, page, t, 0);
      for i := 1 to Total(t)
        invariant SameOutside(mem0, mem, page, page + PAGE_SIZE)
        invariant Threaded(mem, page, t, i)
      {
        ghost var before := mem;
        OffFacts(t, i);
        mem := mem[page + Off(t, i) := page + Off(t, i - 1)];
        ThreadedMore(before, mem, page, t, i);
      }
    }

    // The rest of the page setup in subpage_kmalloc. The pageref's bit is set.
    method MakePage(x: nat, t: nat, page: nat, ghost h: Heap)
      requires prs.Length == NPAGEREFS == inuse.Length && sizebases.Length == NSIZES
      requires h.Core() && |h.inuse| == NPAGEREFS && |h.same| == NSIZES && x < NPAGEREFS && !h.inuse[x] && t < NSIZES
      requires Supplied(h.at, h.big, page, 1) && V() == h.(inuse := h.inuse[x := true])
      modifies this, prs, sizebases
      ensures V() == AddPage(h, x, t, page, mem) && V().Core() && x !in h.all
      ensures SameOutside(h.mem, mem, page, page + PAGE_SIZE)
    {
      hide Heap.Core, Total, SizeOf, Off, Supplied, FreeList, SameOutside, Down, Threaded, PageOf;
      SuppliedAligned(h.at, h.big, page, 1);
      Thread(page, t);
      ThreadedFree(mem, page, t, sizebases[t], allbase);
      AddPageKeeps(h, x, t, page, mem);
      prs[x] := PageRef(sizebases[t], allbase, page + t, Off(t, Total(t) - 1), Total(t));
      sizebases[t] := x;
      allbase := x;
      all, same, at, free := [x] + all, same[t := [x] + same[t]], at[page := x], free[x := Down(Total(t))];
      assert prs[..] == h.prs[x := prs[x]];
      assert sizebases[..] == h.sizebases[t := x];
    }

    // A fresh page of type t, in subpage_kmalloc; or -1.
    method NewPage(t: nat, page: nat) returns (x: int)
      requires Valid() && t < NSIZES && (page == 0 || Supplied(at, big, page, 1))
      modifies this, prs, inuse, sizebases
      ensures x == -1 ==> V() == old(V()) && (page == 0 || forall y :: 0 <= y < NPAGEREFS ==> inuse[y])
      ensures x != -1 ==> 0 <= x && Room(old(V()), V(), x, t, page)
      ensures x != -1 ==> page != 0 && SameOutside(old(mem), mem, page, page + PAGE_SIZE)
    {
      hide Heap.Core, Heap.Lean, Total, SizeOf, Supplied, FreeList, SameOutside, Down, PageOf, AddPage, Room;
      ghost var h := V();
      HeapFacts(h);
      x := AllocPageref();
      if x == -1 {
        assert V() == h;
      } else if page == 0 {
        FreePageref(x);
        assert inuse[..] == h.inuse;
        x := -1;
      } else {
        SuppliedAligned(at, big, page, 1);
        MakePage(x, t, page, h);
        RoomMade(h, x, t, page, mem);
      }
    }

    // subpage_kmalloc
    method SubpageKmalloc(sz: nat, page: nat) returns (p: nat, ghost t: nat)
      requires Valid() && sz < LARGEST_SUBPAGE_SIZE && (page == 0 || Supplied(at, big, page, 1))
      modifies this, prs, inuse, sizebases
      ensures Valid() && Fits(t, sz) && big == old(big)
      ensures p == 0 ==> V() == old(V()) && (page == 0 || forall y :: 0 <= y < NPAGEREFS ==> inuse[y])
      ensures p != 0 ==> p !in old(live) && live == old(live)[p := SizeOf(t)] && p % SizeOf(t) == 0
      ensures p != 0 ==> at - {PageIfEmpty(old(live), PageOf(p))} == old(at) && PageOf(p) in at
      ensures p != 0 ==> PageOf(p) in old(at) || PageOf(p) == page
      ensures mem == old(mem) || (page != 0 && SameOutside(old(mem), mem, page, page + PAGE_SIZE))
      ensures Spare(old(V()), SizeOf(t)) ==> p != 0 && at == old(at)
    {
      hide Heap.Core, Heap.Inv, SizeOf, Supplied, FreeList, Fits, TakeBlock, Room, InRange, Addr, Spare, SameOutside;
      ghost var h := V();
      var bt := Blocktype(sz);
      t := bt;
      FitsType(t, sz);
      HeapLists(h, t);
      var x := FindRoom(bt, same[t]);
      if x == -1 {
        NoneSpare(h, t);
        x := NewPage(bt, page);
        if x == -1 {
          return 0, t;
        }
      } else {
        RoomFound(h, x, t, page);
      }
      RoomTaken(h, V(), x, t, page);
      TakenFrame(V(), x);
      p := TakeFree(x);
    }

    // The list walk of subpage_kfree: the page that ptr is on, or -1.
    method FindPage(ptr: nat) returns (x: int)
      requires IsList(Alls(prs[..]), allbase, all)
      ensures x == -1 ==> forall y :: y in all ==> y < prs.Length && prs[y].Page() != PageOf(ptr)
      ensures x != -1 ==> 0 <= x < prs.Length && x in all && prs[x].Page() == PageOf(ptr)
    {
      x := allbase;
      ghost var i := 0;
      while x != -1
        invariant i <= |all| && x == if i < |all| then all[i] else -1
        invariant forall j :: 0 <= j < i ==> prs[all[j]].Page() != PageOf(ptr)
        decreases |all| - i
      {
        var prpage := prs[x].Page();
        OnPage(prs[x].pab, ptr);
        if prpage <= ptr < prpage + PAGE_SIZE {
          return;
        }
        assert LinkAt(Alls(prs[..]), all, i);
        x := prs[x].nextAll;
        i := i + 1;
      }
    }

    // The first half of remove_lists.
    method RemoveSame(x: nat, t: nat, ghost s: seq<nat>) returns (ghost j: nat)
      requires t < sizebases.Length && IsList(Sames(prs[..]), sizebases[t], s) && Distinct(s) && x in s
      modifies prs, sizebases
      ensures j < |s| && s[j] == x
      ensures prs[..] == Relinked(old(prs[..]), Bypassed(Sames(old(prs[..])), s, j), Alls(old(prs[..])))
      ensures sizebases[..] == old(sizebases[..])[t := HeadPast(Sames(old(prs[..])), old(sizebases[t]), s, j)]
    {
      ghost var next := Sames(prs[..]);
      var prev, cur := -1, sizebases[t];
      j := 0;
      while cur != x
        invariant j < |s| && cur == s[j] && prev == (if j == 0 then -1 else s[j - 1]) && x !in s[..j]
        decreases |s| - j
      {
        assert LinkAt(next, s, j);
        prev, cur := cur, prs[cur].nextSame;
        j := j + 1;
      }
      if prev == -1 {
        sizebases[t] := prs[x].nextSame;
      } else {
        assert s[j - 1] != s[j];
        prs[prev] := prs[prev].(nextSame := prs[x].nextSame);
      }
    }

    // The second half of remove_lists.
    method RemoveAll(x: nat) returns (ghost i: nat)
      requires IsList(Alls(prs[..]), allbase, all) && Distinct(all) && x in all
      modifies prs, this`allbase
      ensures i < |all| && all[i] == x
      ensures prs[..] == Relinked(old(prs[..]), Sames(old(prs[..])), Bypassed(Alls(old(prs[..])), all, i))
      ensures allbase == HeadPast(Alls(old(prs[..])), old(allbase), all, i)
    {
      ghost var next := Alls(prs[..]);
      var prev, cur := -1, allbase;
      i := 0;
      while cur != x
        invariant i < |all| && cur == all[i] && prev == (if i == 0 then -1 else all[i - 1]) && x !in all[..i]
        decreases |all| - i
      {
        assert LinkAt(next, all, i);
        prev, cur := cur, prs[cur].nextAll;
        i := i + 1;
      }
      if prev == -1 {
        allbase := prs[x].nextAll;
      } else {
        assert all[i - 1] != all[i];
        prs[prev] := prs[prev].(nextAll := prs[x].nextAll);
      }
    }

    // fill_deadbeef
    method FillDeadbeef(ptr: nat, len: nat)
      modifies this`mem
      ensures SameOutside(old(mem), mem, ptr, ptr + len) && Filled(mem, ptr, 0, len)
    {
      for i := 0 to len / 4
        invariant SameOutside(old(mem), mem, ptr, ptr + len) && Filled(mem, ptr, 0, 4 * i)
      {
        mem := mem[ptr + 4 * i := DEADBEEF];
      }
    }

    // Fill block k of page x and point it to the first free block.
    method LinkIn(x: nat, offset: nat, ghost k: nat, ghost f: seq<nat>)
      requires x < prs.Length && FreeList(prs[x], mem, f) && offset == Off(prs[x].Type(), k)
      modifies this`mem
      ensures Linked(prs[x], old(mem), mem, f, k)
      ensures Filled(mem, prs[x].Page() + offset, 1, SizeOf(prs[x].Type()))
    {
      hide Total, SizeOf, PageOf, Off, FreeList, SameOutside;
      ghost var mem0 := mem;
      FirstFree(prs[x], mem, f);
      var p := prs[x].Page() + offset;
      FillDeadbeef(p, SizeOf(prs[x].Type()));
      ghost var filled := mem;
      if prs[x].flo == INVALID_OFFSET {
        mem := mem[p := 0];
      } else {
        mem := mem[p := prs[x].Page() + prs[x].flo];
      }
      StoreInside(mem0, filled, mem, p, SizeOf(prs[x].Type()));
    }

    // The block at offset goes to the front of page x's free list.
    method PutFree(x: nat, offset: nat, ghost k: nat)
      requires x < prs.Length && InRange(prs[..], all, free) && x in all && FreeList(prs[x], mem, free[x])
      requires offset == Off(prs[x].Type(), k)
      modifies prs, this`free, this`live, this`mem
      ensures V() == GiveBlock(old(V()), x, k, mem) && Linked(old(prs[x]), old(mem), mem, old(free)[x], k)
      ensures Filled(mem, old(prs[x].Page()) + offset, 1, SizeOf(old(prs[x].Type())))
    {
      hide SizeOf, PageOf, Off, FreeList, Linked, Filled;
      ghost var v0 := V();
      FirstFree(prs[x], mem, free[x]);
      LinkIn(x, offset, k, free[x]);
      live := live - {Addr(prs[x], k)};
      prs[x] := prs[x].(flo := offset, nfree := prs[x].nfree + 1);
      free := free[x := [k] + free[x]];
      assert prs[..] == v0.prs[x := prs[x]];
    }

    // A page with all its blocks free goes back to the supplier.
    method RetirePage(x: nat, t: nat) returns (ghost i: nat, ghost j: nat)
      requires prs.Length == NPAGEREFS == inuse.Length && sizebases.Length == NSIZES && V().Core()
      requires x in all && x < NPAGEREFS && prs[x].Type() == t < NSIZES && x in free && |free[x]| == Total(t)
      modifies this, prs, inuse, sizebases
      ensures Retired(old(V()), V(), x, t, i, j)
    {
      hide Heap.Core, Total, PageOf, Off, Distinct, IsList, InRange, DropPage, Bypassed, HeadPast, RemoveAt;
      ghost var g := V();
      RetireLists(g, x, t);
      j := RemoveSame(x, t, same[t]);
      i := RemoveAll(x);
      FreePageref(x);
      Unlinked(g, x, t, i, j, prs[..], inuse[..], sizebases[..], allbase);
      same, at, free := same[t := RemoveAt(same[t], j)], at - {g.prs[x].Page()}, free - {x};
      all := RemoveAt(all, i);
    }

    // The part of subpage_kfree after the page is found.
    method FreeOn(x: nat, ptr: nat) returns (freed: nat)
      requires Valid() && ptr in live && x in all && x < prs.Length && prs[x].Page() == PageOf(ptr)
      modifies this, prs, inuse, sizebases
      ensures Valid() && big == old(big) && live == old(live) - {ptr}
      ensures freed == PageIfEmpty(live, PageOf(ptr)) && at == old(at) - {freed}
      ensures var n := old(live)[ptr]; SameOutside(old(mem), mem, ptr, ptr + n) && Filled(mem, ptr, 1, n)
    {
      hide Heap.Core, Heap.Inv, Total, SizeOf, PageOf, Off, FreeList, Linked, GiveBlock, Addr, InRange, PageIfEmpty,
        Retired, Given, SameOutside, Filled;
      ghost var h := V();
      ghost var k := FoundBlock(h, ptr, x);
      var prpage, t := prs[x].Page(), prs[x].Type();
      var offset := ptr - prpage;
      assert offset < PAGE_SIZE && offset % SizeOf(t) == 0;
      ghost var pr := prs[x];
      PutFree(x, offset, k);
      LinkedOutside(pr, h.mem, mem, h.free[x], k);
      ghost var g := V();
      Freed(h, x, k, mem);
      assert prs[x].nfree <= Total(t);
      if prs[x].nfree == Total(t) {
        ghost var i, j := RetirePage(x, t);
        freed := prpage;
        Gone(h, g, V(), x, ptr, t, i, j);
      } else {
        freed := 0;
        Kept(h, g, x, ptr);
      }
    }

    // subpage_kfree; freed is the page handed to free_kpages, if any.
    method SubpageKfree(ptr: nat) returns (found: bool, freed: nat)
      requires Valid() && ptr in live
      modifies this, prs, inuse, sizebases
      ensures Valid() && found == (PageOf(ptr) in old(at)) && big == old(big)
      ensures !found ==> V() == old(V()) && freed == 0
      ensures found ==> live == old(live) - {ptr} && freed == PageIfEmpty(live, PageOf(ptr)) && at == old(at) - {freed}
      ensures found ==> var n := old(live)[ptr]; SameOutside(old(mem), mem, ptr, ptr + n) && Filled(mem, ptr, 1, n)
    {
      hide Heap.Core, Heap.Inv, PageOf, IsList, PageIfEmpty, SameOutside, Filled;
      HeapLists(V(), 0);
      var x := FindPage(ptr);
      if x == -1 {
        NotFound(V(), ptr);
        return false, 0;
      }
      PageKnown(V(), x);
      freed := FreeOn(x, ptr);
      found := true;
    }

    // kmalloc; page is what alloc_kpages answers if it is asked.
    method Kmalloc(sz: nat, page: nat) returns (p: nat)
      requires Valid() && sz < 0x1_0000_0000
      requires page == 0 || Supplied(at, big, page, if sz >= LARGEST_SUBPAGE_SIZE then PagesFor(sz) else 1)
      modifies this, prs, inuse, sizebases
      ensures Valid()
      ensures p == 0 ==> V() == old(V())
      ensures p == 0 ==> page == 0 || (sz < LARGEST_SUBPAGE_SIZE && forall y :: 0 <= y < NPAGEREFS ==> inuse[y])
      ensures p != 0 ==> p !in old(live) && live == old(live)[p := Granted(sz)]
      ensures p != 0 ==> AlignedFor(p, sz) && Apart(old(live), p, Granted(sz))
      ensures p != 0 ==> Got(old(at), at, old(big), big, old(live), p, sz, page)
      ensures sz < LARGEST_SUBPAGE_SIZE && Spare(old(V()), Granted(sz)) ==> p != 0 && at == old(at)
      ensures Undisturbed(old(mem), mem, old(live))
    {
      hide Heap.Core, Heap.Lean, Supplied, SizeOf, Fits, Granted, RoundedUp, Apart, Spare, SameOutside, Undisturbed;
      ghost var h := V();
      if sz >= LARGEST_SUBPAGE_SIZE {
        var npages := PagesFor(sz);
        p := page;
        if p != 0 {
          big, live := big[p := npages], live[p := PAGE_SIZE * npages];
          SuppliedAligned(h.at, h.big, page, npages);
          SuppliedNotLive(h, page, npages, page);
          AddRunKeeps(h, page, npages);
          LeanSame(h, AddRun(h, page, npages));
          GrantedIs(sz, 0);
        }
      } else {
        ghost var t;
        p, t := SubpageKmalloc(sz, page);
        GrantedIs(sz, t);
        if page != 0 { SuppliedUndisturbed(h, page, mem); }
      }
      NothingDisturbed(h.mem, h.live);
      if p != 0 {
        ApartFromOthers(h, V(), p, Granted(sz));
      }
    }

    // kfree; freed is what is handed to free_kpages, if anything.
    method Kfree(ptr: nat) returns (freed: nat)
      requires Valid() && (ptr == 0 || ptr in live)
      modifies this, prs, inuse, sizebases
      ensures Valid() && live == old(live) - {ptr}
      ensures ptr == 0 ==> V() == old(V()) && freed == 0
      ensures ptr != 0 && PageOf(ptr) in old(at) ==>
                big == old(big) && freed == PageIfEmpty(live, PageOf(ptr)) && at == old(at) - {freed}
      ensures ptr != 0 && PageOf(ptr) !in old(at) ==>
                ptr in old(big) && big == old(big) - {ptr} && freed == ptr && at == old(at)
      ensures Undisturbed(old(mem), mem, live)
      ensures ptr != 0 && PageOf(ptr) in old(at) ==> Filled(mem, ptr, 1, old(live)[ptr])
    {
      hide Heap.Core, Heap.Lean, PageOf, PageIfEmpty, SameOutside, Filled, Undisturbed;
      ghost var h := V();
      NothingDisturbed(h.mem, h.live);
      if ptr == 0 {
        NothingAtZero(h);
        return 0;
      }
      var found;
      found, freed := SubpageKfree(ptr);
      if !found {
        DropRunKeeps(h, ptr);
        LeanSame(h, DropRun(h, ptr));
        assert ptr % PAGE_SIZE == 0;
        freed := ptr;
        big, live := big - {ptr}, live - {ptr};
        NothingDisturbed(h.mem, live);
      } else {
        FreedUndisturbed(h, ptr, mem);
      }
    }
  }

  // ---------- what clients have in memory ----------

  // No word of what clients hold changed.
  ghost predicate Undisturbed(mem: map<nat, nat>, mem': map<nat, nat>, live: map<nat, nat>) {
    forall q, w: nat :: q in live && q <= w < q + live[q] ==>
      (w in mem <==> w in mem') && (w in mem ==> mem'[w] == mem[w])
  }

  lemma NothingDisturbed(mem: map<nat, nat>, live: map<nat, nat>)
    ensures Undisturbed(mem, mem, live)
  {}

  // The words from word i of the n bytes at p are filled.
  ghost predicate Filled(mem: map<nat, nat>, p: nat, i: nat, n: nat) {
    forall j :: i <= j < n / 4 ==> p + 4 * j in mem && mem[p + 4 * j] == 0xdead_beef
  }

  lemma LinkedOutside(pr: PageRef, mem: map<nat, nat>, mem': map<nat, nat>, f: seq<nat>, k: nat)
    requires pr.Type() < NSIZES && Linked(pr, mem, mem', f, k)
    ensures SameOutside(mem, mem', Addr(pr, k), Addr(pr, k) + SizeOf(pr.Type()))
  {}

  lemma FreedUndisturbed(h: Heap, ptr: nat, mem': map<nat, nat>)
    requires h.Core() && ptr in h.live && SameOutside(h.mem, mem', ptr, ptr + h.live[ptr])
    ensures Undisturbed(h.mem, mem', h.live - {ptr})
  {
    hide Heap.Core;
    forall q | q in h.live && q != ptr
      ensures q + h.live[q] <= ptr || ptr + h.live[ptr] <= q
    {
      if q < ptr { LiveDisjoint(h, q, ptr); } else { LiveDisjoint(h, ptr, q); }
    }
  }

  lemma SuppliedUndisturbed(h: Heap, page: nat, mem': map<nat, nat>)
    requires h.Core() && Supplied(h.at, h.big, page, 1)
    ensures SameOutside(h.mem, mem', page, page + PAGE_SIZE) ==> Undisturbed(h.mem, mem', h.live)
  {
    hide Heap.Core, PageOf, Supplied;
    forall q | q in h.live
      ensures q + h.live[q] <= page || page + PAGE_SIZE <= q
    {
      LiveMissesPage(h, page, q);
    }
  }

  lemma LiveMissesPage(h: Heap, page: nat, q: nat)
    requires h.Core() && Supplied(h.at, h.big, page, 1) && q in h.live
    ensures q + h.live[q] <= page || page + PAGE_SIZE <= q
  {
    hide Lists, Pages, Runs, Held, SizeOf, Total, Addr;
    if PageOf(q) in h.at {
      var x, k := HeldAddr(h, q);
      AddrFacts(h.prs[x], k);
    } else {
      HeldRun(h, q);
    }
  }

  // A block of n bytes on some page is not held.
  ghost predicate Spare(h: Heap, n: nat) {
    exists x, k :: SpareBlock(h, x, k, n)
  }

  ghost predicate SpareBlock(h: Heap, x: nat, k: nat, n: nat) {
    && x in h.all && x < |h.prs| && h.prs[x].Type() < NSIZES && SizeOf(h.prs[x].Type()) == n
    && k < Total(h.prs[x].Type()) && Addr(h.prs[x], k) !in h.live
  }

  lemma NoneSpare(h: Heap, t: nat)
    requires h.Inv() && t < NSIZES && t < |h.same|
    requires forall y :: y in h.same[t] ==> y < |h.prs| && h.prs[y].nfree == 0
    ensures !Spare(h, SizeOf(t))
  {
    hide SizeOf, Total, Addr, Runs, PageOf;
    forall x: nat, k: nat
      ensures !SpareBlock(h, x, k, SizeOf(t))
    {
      if SpareBlock(h, x, k, SizeOf(t)) {
        SizesDiffer(t, h.prs[x].Type());
        FullPage(h, x, k);
      }
    }
  }

  lemma SizesDiffer(t: nat, u: nat)
    requires t < NSIZES && u < NSIZES && SizeOf(t) == SizeOf(u)
    ensures t == u
  {}

  lemma FullPage(h: Heap, x: nat, k: nat)
    requires h.Core() && x in h.all && h.prs[x].nfree == 0 && k < Total(h.prs[x].Type())
    ensures Addr(h.prs[x], k) in h.live
  {
    hide Lists, Runs, SizeOf, Total, Addr, PageOf;
    PageFree(h, x);
  }

  lemma TakenFrame(g: Heap, x: nat)
    requires InRange(g.prs, g.all, g.free) && x in g.all && g.free[x] != []
    ensures TakeBlock(g, x).at == g.at && TakeBlock(g, x).mem == g.mem
  {}

  // kfree undoes kmalloc: what is live and which pages are held are as before.
  method AllocateAndFree(k: Heapkeeper, sz: nat, page: nat)
    requires k.Valid() && sz < 0x1_0000_0000
    requires page == 0 || Supplied(k.at, k.big, page, if sz >= LARGEST_SUBPAGE_SIZE then PagesFor(sz) else 1)
    modifies k, k.prs, k.inuse, k.sizebases
    ensures k.Valid() && k.live == old(k.live) && k.at == old(k.at) && k.big == old(k.big)
  {
    hide Heap.Inv, Granted, PageOf, PageIfEmpty, Supplied, Apart, AlignedFor;
    var p := k.Kmalloc(sz, page);
    if p != 0 {
      var freed := k.Kfree(p);
      assert k.live == old(k.live);
    }
  }

  // ---------- what kmalloc grants ----------

  function RoundedUp(sz: nat): (s: nat)
    ensures s > 0
  {
    if sz <= 16 then 16 else if sz <= 32 then 32 else if sz <= 64 then 64 else if sz <= 128 then 128
    else if sz <= 256 then 256 else if sz <= 512 then 512 else if sz <= 1024 then 1024 else 2048
  }

  // The bytes behind the pointer that kmalloc returns.
  function Granted(sz: nat): nat {
    if sz >= LARGEST_SUBPAGE_SIZE then PAGE_SIZE * PagesFor(sz) else RoundedUp(sz)
  }

  // Blocks are aligned to their size and runs to pages.
  predicate AlignedFor(p: nat, sz: nat) {
    if sz >= LARGEST_SUBPAGE_SIZE then p % PAGE_SIZE == 0 else p % RoundedUp(sz) == 0
  }

  // The n bytes at p overlap nothing live.
  ghost predicate Apart(live: map<nat, nat>, p: nat, n: nat) {
    forall q :: q in live ==> q + live[q] <= p || p + n <= q
  }

  // Where p came from: a page of blocks, new if nothing was live on it, or a
  // run of its own.
  ghost predicate Got(at: map<nat, nat>, at': map<nat, nat>, big: map<nat, nat>, big': map<nat, nat>,
                      live: map<nat, nat>, p: nat, sz: nat, page: nat) {
    if sz < LARGEST_SUBPAGE_SIZE
    then PageOf(p) in at' && (PageOf(p) in at || PageOf(p) == page) && at' - {PageIfEmpty(live, PageOf(p))} == at &&
      big' == big
    else p == page && PageOf(p) !in at' && at' == at && p !in big && big' == big[p := PagesFor(sz)]
  }

  // Rounding up to pages wraps for the last page of sizes: the grant covers
  // the request exactly for the sizes below that.
  lemma GrantCoversRequest(sz: nat)
    requires sz < 0x1_0000_0000
    ensures Granted(sz) >= sz <==> sz <= 0xffff_f000
    ensures sz <= 0xffff_f000 ==> Granted(sz) < sz + PAGE_SIZE
    ensures sz < 2048 ==> Granted(sz) in [16, 32, 64, 128, 256, 512, 1024, 2048]
    ensures sz < 2048 ==> if sz <= 16 then Granted(sz) == 16 else Granted(sz) < 2 * sz
    ensures sz >= 2048 ==> Granted(sz) % 4096 == 0
  {
    assert sz <= 0xffff_f000 ==> (sz + PAGE_SIZE - 1) % 0x1_0000_0000 == sz + PAGE_SIZE - 1;
    assert sz > 0xffff_f000 ==> (sz + PAGE_SIZE - 1) % 0x1_0000_0000 == sz + PAGE_SIZE - 1 - 0x1_0000_0000;
  }

  lemma WholeAddressSpaceGrantsNothing()
    ensures Granted(0xffff_ffff) == 0
  {}

  lemma GrantedIs(sz: nat, t: nat)
    ensures sz >= LARGEST_SUBPAGE_SIZE ==> Granted(sz) == PAGE_SIZE * PagesFor(sz)
    ensures sz < LARGEST_SUBPAGE_SIZE && Fits(t, sz) ==> t < NSIZES && Granted(sz) == RoundedUp(sz) == SizeOf(t)
  {
    hide PagesFor;
  }

  lemma LeanSame(h: Heap, h': Heap)
    requires h.Inv() && h'.prs == h.prs && h'.all == h.all && h'.free == h.free && h'.Core()
    ensures h'.Inv()
  {
    hide Lists, Pages, Runs, Held;
  }

  lemma ApartFromOthers(h: Heap, g: Heap, p: nat, n: nat)
    requires g.Core() && p !in h.live && g.live == h.live[p := n]
    ensures Apart(h.live, p, n)
  {
    hide Heap.Core;
    forall q | q in h.live
      ensures q + h.live[q] <= p || p + n <= q
    {
      if q < p { LiveDisjoint(g, q, p); } else { LiveDisjoint(g, p, q); }
    }
  }

  lemma NothingAtZero(h: Heap)
    requires h.Core()
    ensures 0 !in h.live
  {
    hide Lists, Pages, Runs, BlocksHeld, HeldBlock;
    if 0 in h.live {
      NoPageZero(h);
      assert PageOf(0) == 0;
      NoRunZero(h);
    }
  }

  lemma NoRunZero(h: Heap)
    requires h.Core()
    ensures 0 !in h.big
  {
    hide Lists, Pages, Held;
  }

  // The page, if nothing live is on it; otherwise none.
  ghost function PageIfEmpty(live: map<nat, nat>, page: nat): nat {
    if exists p :: p in live && PageOf(p) == page then 0 else page
  }

  ghost predicate Retired(g: Heap, v: Heap, x: nat, t: nat, i: nat, j: nat) {
    && g.Core() && t < NSIZES && i < |g.all| && j < |g.same[t]| && g.all[i] == g.same[t][j] == x
    && |g.free[x]| == Total(g.prs[x].Type()) && v == DropPage(g, t, i, j)
  }

  lemma RetireLists(g: Heap, x: nat, t: nat)
    requires g.Core() && x in g.all && x < |g.prs| && g.prs[x].Type() == t
    ensures t < NSIZES && |g.same| == NSIZES == |g.sizebases| && |g.inuse| == NPAGEREFS == |g.prs| && g.inuse[x]
    ensures IsList(Sames(g.prs), g.sizebases[t], g.same[t]) && Distinct(g.same[t]) && x in g.same[t]
    ensures IsList(Alls(g.prs), g.allbase, g.all) && Distinct(g.all)
  {
    hide Pages, Runs, Held, IsList, Distinct;
  }

  // The two halves of remove_lists leave what DropPage says.
  lemma Unlinked(g: Heap, x: nat, t: nat, i: nat, j: nat, prs: Pagerefs, inuse: seq<bool>, sizebases: seq<int>,
                 allbase: int)
    requires x < |g.prs| && g.prs[x].Type() == t < NSIZES && x in g.free && |g.free[x]| == Total(t)
    requires |g.same| == NSIZES == |g.sizebases| && |g.inuse| == |g.prs|
    requires i < |g.all| && j < |g.same[t]| && g.all[i] == g.same[t][j] == x
    requires IsList(Sames(g.prs), g.sizebases[t], g.same[t]) && IsList(Alls(g.prs), g.allbase, g.all)
    requires var mid := Relinked(g.prs, Bypassed(Sames(g.prs), g.same[t], j), Alls(g.prs));
             prs == Relinked(mid, Sames(mid), Bypassed(Alls(mid), g.all, i)) &&
               allbase == HeadPast(Alls(mid), g.allbase, g.all, i)
    requires inuse == g.inuse[x := false]
    requires sizebases == g.sizebases[t := HeadPast(Sames(g.prs), g.sizebases[t], g.same[t], j)]
    requires g.Core()
    ensures Retired(g, g.(prs := prs, inuse := inuse, sizebases := sizebases, allbase := allbase,
            all := RemoveAt(g.all, i),
                          same := g.same[t := RemoveAt(g.same[t], j)], at := g.at - {g.prs[x].Page()},
                            free := g.free - {x}), x, t, i, j)
  {
    hide Pages, Runs, Held, Distinct, Bypassed, HeadPast, LinkAt;
    assert prs == Relinked(g.prs, Bypassed(Sames(g.prs), g.same[t], j), Bypassed(Alls(g.prs), g.all, i));
  }

  lemma NotFound(h: Heap, ptr: nat)
    requires h.Inv() && forall y :: y in h.all ==> y < |h.prs| && h.prs[y].Page() != PageOf(ptr)
    ensures PageOf(ptr) !in h.at
  {
    hide Lists, Runs, Held, FreeList, PageOf;
  }

  lemma FoundBlock(h: Heap, ptr: nat, x: nat) returns (k: nat)
    requires h.Inv() && ptr in h.live && x in h.all && x < |h.prs| && h.prs[x].Page() == PageOf(ptr)
    ensures InRange(h.prs, h.all, h.free) && FreeList(h.prs[x], h.mem, h.free[x]) && PageOf(ptr) in h.at &&
            h.at[PageOf(ptr)] == x
    ensures var t := h.prs[x].Type(); t < NSIZES && k < Total(t) && k !in h.free[x] && ptr == Addr(h.prs[x], k)
    ensures var t := h.prs[x].Type(); ptr - PageOf(ptr) == Off(t, k) < PAGE_SIZE && Off(t, k) % SizeOf(t) == 0
    ensures h.live[ptr] == SizeOf(h.prs[x].Type()) && x in h.free
  {
    hide Lists, Runs, Held, Pages, FreeList, PageOf, Total, SizeOf, Off;
    HeldPage(h, x);
    PageFree(h, x);
    var y;
    y, k := HeldAddr(h, ptr);
    OffFacts(h.prs[x].Type(), k);
  }

  lemma PageKnown(h: Heap, x: nat)
    requires h.Inv() && x in h.all && x < |h.prs|
    ensures h.prs[x].Page() in h.at
  {
    hide Lists, Runs, Held, FreeList, PageOf;
  }

  // g is h with the block at ptr on page x given back.
  ghost predicate Given(h: Heap, g: Heap, x: nat, ptr: nat) {
    && g.Core() && 0 !in h.at && x in g.all && x < |h.prs| && g.prs[x].Page() == h.prs[x].Page()
    && g.prs[x].nfree == |g.free[x]| <= Total(g.prs[x].Type())
    && g.live == h.live - {ptr} && g.at == h.at && g.big == h.big
    && forall y :: y in g.all && y != x ==> g.prs[y].nfree < Total(g.prs[y].Type())
  }

  lemma Freed(h: Heap, x: nat, k: nat, mem': map<nat, nat>)
    requires h.Inv() && x in h.all && k < Total(h.prs[x].Type()) && k !in h.free[x] &&
             Linked(h.prs[x], h.mem, mem', h.free[x], k)
    ensures Given(h, GiveBlock(h, x, k, mem'), x, Addr(h.prs[x], k))
    ensures var g := GiveBlock(h, x, k, mem');
            x < |g.prs| && g.prs[x].Type() == h.prs[x].Type() && x in g.free && g.Core()
    ensures var g := GiveBlock(h, x, k, mem'); g.prs[x].nfree == |g.free[x]| <= Total(h.prs[x].Type())
  {
    hide Lists, Runs, Held, Pages, FreeList, PageOf, Total, SizeOf, Off, Addr, Linked;
    GiveBlockKeeps(h, x, k, mem');
    PageFree(GiveBlock(h, x, k, mem'), x);
    NoPageZero(h);
  }

  // A page with a block missing from its free list has something live on it.
  lemma SomethingLive(g: Heap, x: nat)
    requires g.Core() && x in g.all && g.prs[x].nfree < Total(g.prs[x].Type())
    ensures PageIfEmpty(g.live, g.prs[x].Page()) == 0
  {
    hide Lists, Runs, Held, Pages, PageOf, Total, SizeOf, Off, Addr, Chained, Distinct;
    PageFree(g, x);
    HeldPage(g, x);
    var t := g.prs[x].Type();
    FreeBound(g.free[x], Total(t));
    var k :| 0 <= k < Total(t) && k !in g.free[x];
    AddrFacts(g.prs[x], k);
    assert Addr(g.prs[x], k) in g.live;
  }

  lemma Kept(h: Heap, g: Heap, x: nat, ptr: nat)
    requires Given(h, g, x, ptr) && g.prs[x].nfree != Total(g.prs[x].Type())
    ensures g.Inv() && g.live == h.live - {ptr} && g.big == h.big && g.at == h.at - {0}
    ensures PageIfEmpty(g.live, h.prs[x].Page()) == 0
  {
    hide Lists, Runs, Held, Pages, FreeList, PageOf, Total, PageIfEmpty;
    SomethingLive(g, x);
  }

  lemma NoPageZero(h: Heap)
    requires h.Core()
    ensures 0 !in h.at
  {
    hide Lists, Runs, Held, PageOf, Total, Off, Chained, Distinct;
  }

  lemma Gone(h: Heap, g: Heap, v: Heap, x: nat, ptr: nat, t: nat, i: nat, j: nat)
    requires Given(h, g, x, ptr) && Retired(g, v, x, t, i, j)
    ensures v.Inv() && v.live == h.live - {ptr} && v.big == h.big && v.at == h.at - {h.prs[x].Page()}
    ensures v.mem == g.mem
    ensures PageIfEmpty(v.live, h.prs[x].Page()) == h.prs[x].Page()
  {
    hide Lists, Runs, Held, Pages, FreeList, PageOf, Total;
    DropPageKeeps(g, t, i, j);
    NothingLive(g, x);
    DropWithout(g, t, i, j);
  }

  lemma FirstFree(pr: PageRef, mem: map<nat, nat>, f: seq<nat>)
    requires FreeList(pr, mem, f)
    ensures pr.Type() < NSIZES && pr.nfree == |f| && (pr.flo == INVALID_OFFSET <==> f == [])
    ensures f != [] ==> pr.flo == Off(pr.Type(), f[0])
  {
    hide Total, SizeOf, PageOf, Off, Chained, Distinct;
    if f != [] { OffFacts(pr.Type(), f[0]); }
  }

  lemma StoreInside(mem: map<nat, nat>, mid: map<nat, nat>, mem': map<nat, nat>, p: nat, len: nat)
    requires SameOutside(mem, mid, p, p + len) && len > 0 && p in mem' && mem' == mid[p := mem'[p]]
    ensures SameOutside(mem, mem', p, p + len)
  {}

  lemma OnPage(p: nat, ptr: nat)
    ensures PageOf(p) <= ptr < PageOf(p) + PAGE_SIZE <==> PageOf(ptr) == PageOf(p)
  {}

  lemma FitsType(t: nat, sz: nat)
    requires Fits(t, sz)
    ensures t < NSIZES
  {}

  lemma HeapFacts(h: Heap)
    requires h.Inv()
    ensures h.Core() && h.Lean() && InRange(h.prs, h.all, h.free)
    ensures |h.prs| == NPAGEREFS == |h.inuse| && |h.sizebases| == NSIZES == |h.same|
  {
    hide Pages, Runs, Held;
  }

  lemma HeapLists(h: Heap, t: nat)
    requires h.Inv() && t < NSIZES
    ensures |h.sizebases| == NSIZES == |h.same| && IsList(Sames(h.prs), h.sizebases[t], h.same[t])
    ensures IsList(Alls(h.prs), h.allbase, h.all) && |h.prs| == NPAGEREFS
    ensures forall y :: y in h.same[t] ==> y in h.all && y < NPAGEREFS && h.prs[y].Type() == t
  {
    hide Pages, Runs, Held, IsList;
    forall y | y in h.same[t]
      ensures y in h.all && y < NPAGEREFS && h.prs[y].Type() == t
    {}
  }

  // g is h, perhaps with the fresh page, and page x has room for type t.
  ghost predicate Room(h: Heap, g: Heap, x: nat, t: nat, page: nat) {
    && g.Core() && x in g.all && g.prs[x].Type() == t && g.free[x] != [] && g.prs[x].nfree > 0
    && FreeList(g.prs[x], g.mem, g.free[x]) && g.live == h.live && g.big == h.big
    && g.at - {PageIfEmpty(h.live, g.prs[x].Page())} == h.at && (g.prs[x].Page() in h.at || g.prs[x].Page() == page)
    && forall y :: y in g.all && y != x ==> g.prs[y].nfree < Total(g.prs[y].Type())
  }

  lemma RoomFound(h: Heap, x: nat, t: nat, page: nat)
    requires h.Inv() && x in h.all && h.prs[x].Type() == t && h.prs[x].nfree > 0
    ensures Room(h, h, x, t, page)
  {
    hide Lists, Runs, Held, Total, PageOf, PageIfEmpty;
    SomethingLive(h, x);
    NoPageZero(h);
    PageKnown(h, x);
  }

  lemma RoomMade(h: Heap, x: nat, t: nat, page: nat, mem': map<nat, nat>)
    requires h.Inv() && x < |h.prs| && x < |h.inuse| && t < NSIZES && |h.sizebases| == |h.same| == NSIZES
    requires AddPage(h, x, t, page, mem').Core() && Supplied(h.at, h.big, page, 1) && x !in h.all
    ensures Room(h, AddPage(h, x, t, page, mem'), x, t, page)
  {
    hide Lists, Runs, Held, PageOf, Total, Off, FreeList, Supplied, PageIfEmpty;
    SuppliedAligned(h.at, h.big, page, 1);
    FreshAt(h, page, x);
    var g := AddPage(h, x, t, page, mem');
    FreshPage(h.sizebases[t], h.allbase, page, t);
    assert g.all[0] == x;
    assert forall y :: y in g.all && y != x ==> y in h.all && g.prs[y] == h.prs[y];
  }

  // Nothing was live on a page just supplied.
  lemma FreshAt(h: Heap, page: nat, x: nat)
    requires h.Core() && Supplied(h.at, h.big, page, 1)
    ensures PageIfEmpty(h.live, page) == page && h.at[page := x] - {page} == h.at
  {
    hide Heap.Core, Supplied;
    SuppliedAligned(h.at, h.big, page, 1);
    SuppliedNotLive(h, page, 1, page);
    forall p | p in h.live
      ensures PageOf(p) != page
    {
      if PageOf(p) == page { SuppliedNotLive(h, page, 1, p); }
    }
  }

  lemma FreeNotLive(pr: PageRef, mem: map<nat, nat>, f: seq<nat>, live: map<nat, nat>, i: nat)
    requires pr.Type() < NSIZES && FreeList(pr, mem, f) && PageHeld(pr, f, live) && i < |f|
    ensures Addr(pr, f[i]) !in live && Addr(pr, f[i]) > 0 && Addr(pr, f[i]) % SizeOf(pr.Type()) == 0
  {
    hide Total, SizeOf, Off, PageOf, Chained, Distinct;
    AddrFacts(pr, f[i]);
    OffFacts(pr.Type(), f[i]);
    SizeDivides(pr.Type(), pr.Page(), Off(pr.Type(), f[i]));
  }

  lemma SizeDivides(t: nat, page: nat, off: nat)
    requires t < NSIZES && page % PAGE_SIZE == 0 && off % SizeOf(t) == 0
    ensures (page + off) % SizeOf(t) == 0
  {
    hide Total, SizeOf;
    TotalSize(t);
    var s := SizeOf(t);
    var q := page / PAGE_SIZE * Total(t) + off / s;
    assert page + off == s * q by {
      assert page == page / PAGE_SIZE * (Total(t) * s);
      assert page / PAGE_SIZE * (Total(t) * s) == s * (page / PAGE_SIZE * Total(t));
      assert off == s * (off / s);
    }
    DivMod(page + off, s, q, 0);
  }

  lemma RoomTaken(h: Heap, g: Heap, x: nat, t: nat, page: nat)
    requires Room(h, g, x, t, page)
    ensures InRange(g.prs, g.all, g.free) && x in g.free && x < |g.prs| && x in g.all && g.prs[x].nfree > 0 &&
            t < NSIZES
    ensures FreeList(g.prs[x], g.mem, g.free[x]) && g.free[x] != [] && g.prs[x].Type() == t
    ensures TakeBlock(g, x).Inv()
    ensures var p := Addr(g.prs[x], g.free[x][0]);
            p !in h.live && p > 0 && p % SizeOf(t) == 0 && TakeBlock(g, x).live == h.live[p := SizeOf(t)]
    ensures TakeBlock(g, x).big == h.big
    ensures TakeBlock(g, x).at - {PageIfEmpty(h.live, PageOf(Addr(g.prs[x], g.free[x][0])))} == h.at
    ensures var q := PageOf(Addr(g.prs[x], g.free[x][0])); q in TakeBlock(g, x).at && (q in h.at || q == page)
  {
    hide Lists, Pages, Runs, Held, PageOf, Total, SizeOf, FreeList, Addr, PageIfEmpty;
    PoppedHeld(g.prs[x], g.mem, g.free[x]);
    TakeBlockKeeps(g, x);
    HeldPage(g, x);
    FreeNotLive(g.prs[x], g.mem, g.free[x], g.live, 0);
  }

  // Word k of the chain over a fresh page.
  ghost predicate ThreadedAt(mem: map<nat, nat>, page: nat, t: nat, k: nat)
    requires t < NSIZES
  {
    page + Off(t, k) in mem && mem[page + Off(t, k)] == if k == 0 then 0 else page + Off(t, k - 1)
  }

  ghost predicate Threaded(mem: map<nat, nat>, page: nat, t: nat, n: nat)
    requires t < NSIZES
  {
    forall k :: 0 <= k < n ==> ThreadedAt(mem, page, t, k)
  }

  lemma OffZero(t: nat)
    requires t < NSIZES
    ensures Off(t, 0) == 0
  {}

  lemma ThreadedMore(mem: map<nat, nat>, mem': map<nat, nat>, page: nat, t: nat, i: nat)
    requires t < NSIZES && i > 0 && Threaded(mem, page, t, i)
    requires mem' == mem[page + Off(t, i) := page + Off(t, i - 1)]
    ensures Threaded(mem', page, t, i + 1)
  {
    hide Off, SizeOf;
    forall k | 0 <= k < i + 1
      ensures ThreadedAt(mem', page, t, k)
    {
      if k < i {
        assert ThreadedAt(mem, page, t, k);
        OffApart(t, k, i);
      }
    }
  }

  lemma ThreadedFree(mem: map<nat, nat>, page: nat, t: nat, nextSame: int, nextAll: int)
    requires t < NSIZES && KSEG0 <= page && page + PAGE_SIZE <= KSEG1 && page % PAGE_SIZE == 0 &&
             Threaded(mem, page, t, Total(t))
    ensures FreeList(FreshRef(nextSame, nextAll, page, t), mem, Down(Total(t)))
  {
    hide Off, SizeOf, Total, PageOf;
    var pr, f := FreshRef(nextSame, nextAll, page, t), Down(Total(t));
    FreshPage(nextSame, nextAll, page, t);
    forall i | 0 <= i < |f|
      ensures Chained(pr, mem, f, i)
    {
      assert ThreadedAt(mem, page, t, Total(t) - 1 - i);
    }
  }
}
