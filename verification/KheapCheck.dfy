/**
 The slow consistency checks of kern/lib/kheap.c. Their assertions never
 fail on a heap that only kmalloc and kfree have touched.
 */
module KheapCheck {
  import opened KheapModel
  import opened KheapSteps
  import opened KheapPages
  import opened Kheap

  lemma BlockFacts(pr: PageRef, mem: map<nat, nat>, f: seq<nat>, i: nat)
    requires FreeList(pr, mem, f) && i < |f|
    ensures pr.Type() < NSIZES && Chained(pr, mem, f, i)
    ensures var a := Addr(pr, f[i]);
            pr.Page() <= a < pr.Page() + PAGE_SIZE && (a - pr.Page()) % SizeOf(pr.Type()) == 0 && KSEG0 <= a < KSEG1
    ensures Off(pr.Type(), f[i]) < PAGE_SIZE && Off(pr.Type(), f[i]) % SizeOf(pr.Type()) == 0
  {
    hide SizeOf, Total, Off, PageOf, Distinct;
    AddrFacts(pr, f[i]);
    OffFacts(pr.Type(), f[i]);
  }

  // checksubpage
  method CheckSubpage(pr: PageRef, mem: map<nat, nat>, ghost f: seq<nat>) returns (nfree: nat)
    requires FreeList(pr, mem, f)
    ensures nfree == pr.nfree == |f| && (nfree == 0 <==> pr.flo == INVALID_OFFSET)
  {
    hide SizeOf, Total, Off, PageOf, FreeList;
    FirstFree(pr, mem, f);
    if pr.flo == INVALID_OFFSET {
      assert pr.nfree == 0;
      return 0;
    }
    BlockFacts(pr, mem, f, 0);
    var prpage, size := pr.Page(), SizeOf(pr.Type());
    assert pr.flo < PAGE_SIZE;
    assert pr.flo % size == 0;
    var fl := prpage + pr.flo;
    nfree := 0;
    while fl != 0
      invariant nfree <= |f| && fl == if nfree < |f| then Addr(pr, f[nfree]) else 0
      decreases |f| - nfree
    {
      BlockFacts(pr, mem, f, nfree);
      if nfree + 1 < |f| { BlockFacts(pr, mem, f, nfree + 1); }
      assert prpage <= fl < prpage + PAGE_SIZE;
      assert (fl - prpage) % size == 0;
      assert KSEG0 <= fl;
      assert fl < KSEG1;
      nfree := nfree + 1;
      fl := mem[fl];
    }
    assert nfree == |f| by {
      if nfree < |f| { BlockFacts(pr, mem, f, nfree); }
    }
    assert nfree == pr.nfree;
  }

  lemma {:induction false} SameLength(a: seq<nat>, b: seq<nat>)
    requires Distinct(a) && Distinct(b) && forall x :: x in a <==> x in b
    ensures |a| == |b|
  {
    if a != [] || b != [] {
      var x := if a != [] then a[0] else b[0];
      assert x in a && x in b;
      var i :| 0 <= i < |a| && a[i] == x;
      var j :| 0 <= j < |b| && b[j] == x;
      RemoveAtMembers(a, i);
      RemoveAtMembers(b, j);
      SameLength(RemoveAt(a, i), RemoveAt(b, j));
    }
  }

  // What one list of the walk contributes.
  ghost predicate Seen(seen: seq<nat>, same: seq<seq<nat>>, t: nat)
    requires t <= |same|
  {
    Distinct(seen) && forall x :: x in seen <==> exists u :: 0 <= u < t && x in same[u]
  }

  lemma DistinctConcat(a: seq<nat>, b: seq<nat>)
    requires Distinct(a) && Distinct(b) && forall x :: x in a ==> x !in b
    ensures Distinct(a + b)
  {
    assert forall i :: 0 <= i < |a| ==> a[i] in a;
  }

  lemma SeenMore(h: Heap, seen: seq<nat>, t: nat)
    requires Lists(h.prs, h.inuse, h.sizebases, h.allbase, h.all, h.same) && t < NSIZES && Seen(seen, h.same, t)
    ensures Seen(seen + h.same[t], h.same, t + 1)
  {
    hide IsList;
    forall x | x in seen
      ensures x !in h.same[t]
    {
      var u :| 0 <= u < t && x in h.same[u];
      assert x in h.all;
      assert h.prs[x].Type() == u;
    }
    forall x | x in h.same[t]
      ensures x in h.all && x !in seen
    {}
    forall x | exists u :: 0 <= u < t + 1 && x in h.same[u]
      ensures x in seen + h.same[t]
    {
      var u :| 0 <= u < t + 1 && x in h.same[u];
      assert u < t ==> x in seen;
    }
    DistinctConcat(seen, h.same[t]);
    forall x | x in seen + h.same[t]
      ensures exists u :: 0 <= u < t + 1 && x in h.same[u]
    {
      if x in seen {
        var u :| 0 <= u < t && x in h.same[u];
        assert u < t + 1;
      } else {
        assert x in h.same[t];
      }
    }
  }

  lemma SeenAll(h: Heap, seen: seq<nat>)
    requires Lists(h.prs, h.inuse, h.sizebases, h.allbase, h.all, h.same) && Seen(seen, h.same, NSIZES)
    ensures |seen| == |h.all|
  {
    hide IsList;
    forall x
      ensures x in seen <==> x in h.all
    {
      if x in h.all { assert x in h.same[h.prs[x].Type()]; }
    }
    SameLength(seen, h.all);
  }

  lemma NoneSeen(same: seq<seq<nat>>)
    ensures Seen([], same, 0)
  {}

  lemma MoreSeen(h: Heap, seen: seq<nat>, t: nat)
    requires h.Inv() && t < NSIZES && t < |h.same| && Seen(seen, h.same, t)
    ensures t + 1 <= |h.same| && Seen(seen + h.same[t], h.same, t + 1)
  {
    hide Lists, Pages, Runs, Held, Seen;
    SeenMore(h, seen, t);
  }

  lemma AllSeen(h: Heap, seen: seq<nat>)
    requires h.Inv() && |h.same| >= NSIZES && Seen(seen, h.same, NSIZES)
    ensures |seen| == |h.all| <= NPAGEREFS
  {
    hide Pages, Runs, Held, Seen, IsList;
    SeenAll(h, seen);
    assert forall i :: 0 <= i < |h.all| ==> h.all[i] in h.all;
    FreeBound(h.all, NPAGEREFS);
  }

  lemma HeadOf(next: seq<int>, head: int, s: seq<nat>)
    requires IsList(next, head, s)
    ensures head == if s == [] then -1 else s[0]
  {}

  lemma NextOf(next: seq<int>, head: int, s: seq<nat>, i: nat)
    requires IsList(next, head, s) && i < |s|
    ensures s[i] < |next| && next[s[i]] == if i + 1 < |s| then s[i + 1] else -1
  {
    assert LinkAt(next, s, i);
  }

  lemma PageRoom(h: Heap, x: nat)
    requires h.Inv() && x in h.all
    ensures x < |h.prs| && x in h.free && FreeList(h.prs[x], h.mem, h.free[x])
  {
    hide Lists, Runs, Held, FreeList;
  }

  // checksubpages
  method CheckSubpages(k: Heapkeeper) returns (sc: nat, ac: nat)
    requires k.Valid()
    ensures sc == ac == |k.all| <= NPAGEREFS
  {
    hide Heap.Inv, Heap.Core, FreeList, IsList, Seen, Distinct, PageOf;
    ghost var h := k.V();
    sc, ac := 0, 0;
    ghost var seen: seq<nat> := [];
    assert Seen(seen, h.same, 0) by { NoneSeen(h.same); }
    for t := 0 to NSIZES
      invariant |h.same| >= t && Seen(seen, h.same, t) && sc == |seen|
    {
      HeapLists(h, t);
      ghost var s := h.same[t];
      var x := k.sizebases[t];
      ghost var i := 0;
      ghost var before := sc;
      HeadOf(Sames(h.prs), x, s);
      while x != -1
        invariant i <= |s| && x == (if i < |s| then s[i] else -1) && sc == before + i
        decreases |s| - i
      {
        NextOf(Sames(h.prs), k.sizebases[t], s, i);
        assert x in s;
        PageRoom(h, x);
        var n := CheckSubpage(k.prs[x], k.mem, h.free[x]);
        sc := sc + 1;
        x := k.prs[x].nextSame;
        i := i + 1;
      }
      MoreSeen(h, seen, t);
      seen := seen + s;
    }
    var x := k.allbase;
    ghost var i := 0;
    HeapLists(h, 0);
    HeadOf(Alls(h.prs), x, h.all);
    while x != -1
      invariant i <= |h.all| && x == (if i < |h.all| then h.all[i] else -1) && ac == i
      decreases |h.all| - i
    {
      NextOf(Alls(h.prs), k.allbase, h.all, i);
      assert x in h.all;
      PageRoom(h, x);
      var n := CheckSubpage(k.prs[x], k.mem, h.free[x]);
      ac := ac + 1;
      x := k.prs[x].nextAll;
      i := i + 1;
    }
    AllSeen(h, seen);
  }
}
