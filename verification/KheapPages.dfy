/**
 A page joins the subpage allocator with all its blocks free, and leaves it
 when they are all free again.
 */
module KheapPages {
  import opened KheapModel
  import opened KheapSteps

  // ---------- intrusive lists ----------

  lemma ListPush(next: seq<int>, head: int, s: seq<nat>, x: nat)
    requires IsList(next, head, s) && x < |next| && x !in s
    ensures IsList(next[x := head], x, [x] + s)
  {
    var s', next' := [x] + s, next[x := head];
    forall i | 0 <= i < |s'|
      ensures LinkAt(next', s', i)
    {
      assert i > 0 ==> LinkAt(next, s, i - 1);
    }
  }

  lemma ListOther(next: seq<int>, head: int, s: seq<nat>, x: nat, v: int)
    requires IsList(next, head, s) && x < |next| && x !in s
    ensures IsList(next[x := v], head, s)
  {
    var next' := next[x := v];
    forall i | 0 <= i < |s|
      ensures LinkAt(next', s, i)
    {
      assert LinkAt(next, s, i);
    }
  }

  // The links, and the head, once the element at i is bypassed.
  function Bypassed(next: seq<int>, s: seq<nat>, i: nat): seq<int>
    requires i < |s| && forall j :: 0 <= j < |s| ==> s[j] < |next|
  {
    if i == 0 then next else next[s[i - 1] := next[s[i]]]
  }

  function HeadPast(next: seq<int>, head: int, s: seq<nat>, i: nat): int
    requires i < |s| && forall j :: 0 <= j < |s| ==> s[j] < |next|
  {
    if i == 0 then next[s[0]] else head
  }

  lemma RemoveAtMembers(s: seq<nat>, i: nat)
    requires Distinct(s) && i < |s|
    ensures Distinct(RemoveAt(s, i))
    ensures forall y :: y in RemoveAt(s, i) <==> y in s && y != s[i]
  {
    var s' := RemoveAt(s, i);
    forall y | y in s && y != s[i]
      ensures y in s'
    {
      var j :| 0 <= j < |s| && s[j] == y;
      assert s'[if j < i then j else j - 1] == y;
    }
  }

  lemma ListBypass(next: seq<int>, head: int, s: seq<nat>, i: nat)
    requires IsList(next, head, s) && Distinct(s) && i < |s|
    ensures IsList(Bypassed(next, s, i), HeadPast(next, head, s, i), RemoveAt(s, i))
  {
    var s', next' := RemoveAt(s, i), Bypassed(next, s, i);
    assert LinkAt(next, s, i);
    forall j | 0 <= j < |s'|
      ensures s'[j] < |next'| && LinkAt(next', s', j)
    {
      assert LinkAt(next, s, if j < i then j else j + 1);
    }
  }

  // ---------- a page joins ----------

  // The free list built over a fresh page: the last block first.
  ghost function Down(n: nat): (f: seq<nat>)
    ensures |f| == n && Distinct(f) && (forall i :: 0 <= i < n ==> f[i] == n - 1 - i)
  {
    seq(n, i requires 0 <= i < n => n - 1 - i)
  }

  lemma DownHas(n: nat, k: nat)
    requires k < n
    ensures k in Down(n)
  {
    assert Down(n)[n - 1 - k] == k;
  }

  function FreshRef(nextSame: int, nextAll: int, page: nat, t: nat): PageRef
    requires t < NSIZES
  {
    PageRef(nextSame, nextAll, page + t, Off(t, Total(t) - 1), Total(t))
  }

  ghost function AddPage(h: Heap, x: nat, t: nat, page: nat, mem': map<nat, nat>): Heap
    requires x < |h.prs| && x < |h.inuse| && t < NSIZES && |h.sizebases| == |h.same| == NSIZES
  {
    h.(prs := h.prs[x := FreshRef(h.sizebases[t], h.allbase, page, t)], inuse := h.inuse[x := true],
       sizebases := h.sizebases[t := x], allbase := x, mem := mem',
       all := [x] + h.all, same := h.same[t := [x] + h.same[t]],
       at := h.at[page := x], free := h.free[x := Down(Total(t))])
  }

  lemma FreshPage(nextSame: int, nextAll: int, page: nat, t: nat)
    requires t < NSIZES && page % PAGE_SIZE == 0
    ensures FreshRef(nextSame, nextAll, page, t).Page() == page && FreshRef(nextSame, nextAll, page, t).Type() == t
  {
    hide Off, Total, SizeOf;
  }

  lemma ListsAdd(h: Heap, x: nat, t: nat, page: nat, mem': map<nat, nat>)
    requires Lists(h.prs, h.inuse, h.sizebases, h.allbase, h.all, h.same)
    requires x < NPAGEREFS && !h.inuse[x] && t < NSIZES && page % PAGE_SIZE == 0
    ensures var h' := AddPage(h, x, t, page, mem'); Lists(h'.prs, h'.inuse, h'.sizebases, h'.allbase, h'.all, h'.same)
  {
    hide IsList, FreshRef, PageOf, Down, Off, Total, SizeOf;
    var h', pr := AddPage(h, x, t, page, mem'), FreshRef(h.sizebases[t], h.allbase, page, t);
    FreshLinks(h.sizebases[t], h.allbase, page, t);
    FreshPage(h.sizebases[t], h.allbase, page, t);
    assert Alls(h'.prs) == Alls(h.prs)[x := h.allbase];
    assert Sames(h'.prs) == Sames(h.prs)[x := h.sizebases[t]];
    ListPush(Alls(h.prs), h.allbase, h.all, x);
    forall u | 0 <= u < NSIZES
      ensures IsList(Sames(h'.prs), h'.sizebases[u], h'.same[u]) && Distinct(h'.same[u])
    {
      assert x !in h.same[u];
      if u == t {
        ListPush(Sames(h.prs), h.sizebases[t], h.same[t], x);
      } else {
        ListOther(Sames(h.prs), h.sizebases[u], h.same[u], x, h.sizebases[t]);
      }
    }
  }

  lemma FreshLinks(nextSame: int, nextAll: int, page: nat, t: nat)
    requires t < NSIZES
    ensures FreshRef(nextSame, nextAll, page, t).nextSame == nextSame &&
            FreshRef(nextSame, nextAll, page, t).nextAll == nextAll
    ensures FreshRef(nextSame, nextAll, page, t).nfree == Total(t)
  {
    hide Off, Total;
  }

  lemma PagesAdd(h: Heap, x: nat, t: nat, page: nat, mem': map<nat, nat>)
    requires InRange(h.prs, h.all, h.free) && Pages(h.prs, h.mem, h.all, h.at, h.free)
    requires |h.prs| == |h.inuse| && |h.sizebases| == |h.same| == NSIZES && x < |h.prs| && x !in h.all && t < NSIZES
    requires page !in h.at && page % PAGE_SIZE == 0
    requires SameOutside(h.mem, mem', page, page + PAGE_SIZE)
    requires FreeList(FreshRef(h.sizebases[t], h.allbase, page, t), mem', Down(Total(t)))
    ensures var h' := AddPage(h, x, t, page, mem');
            InRange(h'.prs, h'.all, h'.free) && Pages(h'.prs, h'.mem, h'.all, h'.at, h'.free)
  {
    hide FreeList, FreshRef, PageOf, Down, Total, SameOutside;
    var h' := AddPage(h, x, t, page, mem');
    FreshPage(h.sizebases[t], h.allbase, page, t);
    assert forall y :: y in h'.all <==> y == x || y in h.all;
    assert h'.free.Keys == h.free.Keys + {x};
    forall y | y in h.all
      ensures FreeList(h'.prs[y], mem', h'.free[y])
    {
      PagesApart(page, h.prs[y].pab) by { AlignedPage(page); }
      AlignedPage(page);
      FreeListFrame(h.prs[y], h.mem, mem', h.free[y], page, page + PAGE_SIZE);
    }
  }

  lemma AlignedPage(page: nat)
    requires page % PAGE_SIZE == 0
    ensures PageOf(page) == page
  {}

  lemma HeldAdd(h: Heap, x: nat, t: nat, page: nat, mem': map<nat, nat>)
    requires h.Core() && x < NPAGEREFS && x !in h.all && t < NSIZES && Supplied(h.at, h.big, page, 1)
    requires |h.prs| == |h.inuse| == NPAGEREFS && |h.sizebases| == |h.same| == NSIZES
    requires var h' := AddPage(h, x, t, page, mem'); InRange(h'.prs, h'.all, h'.free)
    ensures var h' := AddPage(h, x, t, page, mem'); Held(h'.prs, h'.all, h'.at, h'.free, h'.big, h'.live)
  {
    hide FreshRef, PageOf, Lists, Pages, Runs, Total, HeldBlock, Supplied, Addr;
    var h' := AddPage(h, x, t, page, mem');
    SuppliedAligned(h.at, h.big, page, 1);
    FreshPage(h.sizebases[t], h.allbase, page, t);
    forall p | p in h.live
      ensures PageOf(p) != page
    {
      if PageOf(p) == page {
        SuppliedNotLive(h, page, 1, p);
      }
    }
    forall k | 0 <= k < Total(t)
      ensures k in h'.free[x]
    {
      DownHas(Total(t), k);
    }
  }

  lemma RunsAddPage(at: map<nat, nat>, big: map<nat, nat>, page: nat, x: nat)
    requires Runs(at, big) && Supplied(at, big, page, 1)
    ensures Runs(at[page := x], big)
  {}

  lemma AddPageKeeps(h: Heap, x: nat, t: nat, page: nat, mem': map<nat, nat>)
    requires h.Core() && x < NPAGEREFS && |h.inuse| == NPAGEREFS && !h.inuse[x] && t < NSIZES &&
             Supplied(h.at, h.big, page, 1)
    requires |h.prs| == NPAGEREFS && |h.sizebases| == |h.same| == NSIZES
    requires SameOutside(h.mem, mem', page, page + PAGE_SIZE)
    requires FreeList(FreshRef(h.sizebases[t], h.allbase, page, t), mem', Down(Total(t)))
    ensures AddPage(h, x, t, page, mem').Core() && x !in h.all
  {
    hide FreshRef, PageOf, Pages, Runs, Held, Total, Supplied, FreeList, SameOutside, IsList, Distinct;
    SuppliedAligned(h.at, h.big, page, 1);
    AlignedPage(page);
    SuppliedNotLive(h, page, 1, page);
    ListsAdd(h, x, t, page, mem');
    PagesAdd(h, x, t, page, mem');
    HeldAdd(h, x, t, page, mem');
    RunsAddPage(h.at, h.big, page, x);
  }

  // ---------- a page leaves ----------

  // Pagerefs with new links.
  function Relinked(prs: Pagerefs, sames: seq<int>, alls: seq<int>): (r: Pagerefs)
    requires |sames| == |prs| == |alls|
    ensures |r| == |prs| && forall y :: 0 <= y < |r| ==> r[y] == prs[y].(nextSame := sames[y], nextAll := alls[y])
    ensures Sames(r) == sames && Alls(r) == alls
  {
    seq(|prs|, y requires 0 <= y < |prs| => prs[y].(nextSame := sames[y], nextAll := alls[y]))
  }

  // Without the page of pageref x == all[i] == same[t][j].
  ghost function DropPage(h: Heap, t: nat, i: nat, j: nat): Heap
    requires Lists(h.prs, h.inuse, h.sizebases, h.allbase, h.all, h.same)
    requires t < NSIZES && i < |h.all| && j < |h.same[t]|
  {
    var x, sames, alls := h.all[i], Sames(h.prs), Alls(h.prs);
    h.(prs := Relinked(h.prs, Bypassed(sames, h.same[t], j), Bypassed(alls, h.all, i)),
       inuse := h.inuse[x := false],
       sizebases := h.sizebases[t := HeadPast(sames, h.sizebases[t], h.same[t], j)],
       allbase := HeadPast(alls, h.allbase, h.all, i),
       all := RemoveAt(h.all, i), same := h.same[t := RemoveAt(h.same[t], j)],
       at := h.at - {h.prs[x].Page()}, free := h.free - {x})
  }

  lemma BypassOther(next: seq<int>, s: seq<nat>, j: nat, head: int, r: seq<nat>)
    requires j < |s| && (forall k :: 0 <= k < |s| ==> s[k] < |next|) && IsList(next, head, r)
    requires forall y :: y in s ==> y !in r
    ensures IsList(Bypassed(next, s, j), head, r)
  {
    if j > 0 {
      assert s[j - 1] in s;
      ListOther(next, head, r, s[j - 1], next[s[j]]);
    }
  }

  lemma ListsDrop(h: Heap, t: nat, i: nat, j: nat)
    requires Lists(h.prs, h.inuse, h.sizebases, h.allbase, h.all, h.same)
    requires t < NSIZES && i < |h.all| && j < |h.same[t]| && h.all[i] == h.same[t][j]
    ensures var h' := DropPage(h, t, i, j); Lists(h'.prs, h'.inuse, h'.sizebases, h'.allbase, h'.all, h'.same)
  {
    hide Bypassed, HeadPast, PageOf, Distinct, LinkAt, RemoveAt;
    var h', x := DropPage(h, t, i, j), h.all[i];
    RemoveAtMembers(h.all, i);
    RemoveAtMembers(h.same[t], j);
    ListBypass(Alls(h.prs), h.allbase, h.all, i);
    ListBypass(Sames(h.prs), h.sizebases[t], h.same[t], j);
    DropOthers(h, t, i, j);
    assert forall y :: 0 <= y < |h.prs| ==> h'.prs[y].pab == h.prs[y].pab;
    assert h.prs[x].Type() == t;
  }

  lemma DropOthers(h: Heap, t: nat, i: nat, j: nat)
    requires Lists(h.prs, h.inuse, h.sizebases, h.allbase, h.all, h.same)
    requires t < NSIZES && i < |h.all| && j < |h.same[t]| && h.all[i] == h.same[t][j]
    ensures forall u :: 0 <= u < NSIZES && u != t ==>
              IsList(Bypassed(Sames(h.prs), h.same[t], j), h.sizebases[u], h.same[u])
  {
    hide Bypassed, PageOf, Distinct, LinkAt;
    forall u | 0 <= u < NSIZES && u != t
      ensures IsList(Bypassed(Sames(h.prs), h.same[t], j), h.sizebases[u], h.same[u])
    {
      assert forall y :: y in h.same[t] ==> h.prs[y].Type() == t;
      assert forall y :: y in h.same[u] ==> h.prs[y].Type() == u;
      BypassOther(Sames(h.prs), h.same[t], j, h.sizebases[u], h.same[u]);
    }
  }

  // Once all blocks of a page are free, nothing live is on it.
  lemma WholePageFree(pr: PageRef, mem: map<nat, nat>, f: seq<nat>, live: map<nat, nat>, p: nat)
    requires pr.Type() < NSIZES && FreeList(pr, mem, f) && |f| == Total(pr.Type()) && PageHeld(pr, f, live)
    requires p in live
    ensures PageOf(p) != pr.Page()
  {
    hide SizeOf, Total, Off, Addr, PageOf, Chained;
    FreeBound(f, Total(pr.Type()));
    if PageOf(p) == pr.Page() {
      var k := HeldBlockAt(pr, f, p, live[p]);
    }
  }

  lemma PageRefLinks(pr: PageRef, s: int, a: int, mem: map<nat, nat>, f: seq<nat>)
    requires FreeList(pr, mem, f)
    ensures FreeList(pr.(nextSame := s, nextAll := a), mem, f)
  {
    hide SizeOf, Total, Off, PageOf;
    var pr' := pr.(nextSame := s, nextAll := a);
    forall i | 0 <= i < |f|
      ensures Chained(pr', mem, f, i)
    {
      assert Chained(pr, mem, f, i);
    }
  }

  // prs' differs in links only, and all' is all without x.
  ghost predicate Without(prs: Pagerefs, prs': Pagerefs, all: seq<nat>, all': seq<nat>, x: nat) {
    && |prs'| == |prs| && (forall y :: y in all' <==> y in all && y != x)
    && forall y :: 0 <= y < |prs| ==> prs'[y] == prs[y].(nextSame := prs'[y].nextSame, nextAll := prs'[y].nextAll)
  }

  lemma PagesWithout(prs: Pagerefs, prs': Pagerefs, mem: map<nat, nat>, all: seq<nat>, all': seq<nat>,
                     at: map<nat, nat>, free: Frees, x: nat)
    requires InRange(prs, all, free) && Pages(prs, mem, all, at, free) && x in all && Without(prs, prs', all, all', x)
    ensures InRange(prs', all', free - {x}) && Pages(prs', mem, all', at - {prs[x].Page()}, free - {x})
  {
    hide FreeList, PageOf;
    var free' := free - {x};
    assert free'.Keys == free.Keys - {x};
    forall y | y in all'
      ensures FreeList(prs'[y], mem, free'[y])
    {
      PageRefLinks(prs[y], prs'[y].nextSame, prs'[y].nextAll, mem, free[y]);
    }
  }

  lemma HeldWithout(prs: Pagerefs, prs': Pagerefs, all: seq<nat>, all': seq<nat>, at: map<nat, nat>, free: Frees,
                    big: map<nat, nat>, live: map<nat, nat>, x: nat)
    requires InRange(prs, all, free) && Held(prs, all, at, free, big, live) && x in all &&
             Without(prs, prs', all, all', x)
    requires InRange(prs', all', free - {x})
    requires forall a :: a in at && at[a] == x ==> a == prs[x].Page()
    requires forall p :: p in live ==> PageOf(p) != prs[x].Page()
    ensures Held(prs', all', at - {prs[x].Page()}, free - {x}, big, live)
  {
    hide PageOf, Addr, Total, SizeOf;
    forall y, k | y in all' && 0 <= k < Total(prs'[y].Type()) && k !in (free - {x})[y]
      ensures Addr(prs'[y], k) in live
    {
      AddrSame(prs[y], prs'[y], k);
    }
  }

  lemma DropWithout(h: Heap, t: nat, i: nat, j: nat)
    requires Lists(h.prs, h.inuse, h.sizebases, h.allbase, h.all, h.same)
    requires t < NSIZES && i < |h.all| && j < |h.same[t]|
    ensures var h' := DropPage(h, t, i, j); Without(h.prs, h'.prs, h.all, h'.all, h.all[i])
  {
    hide Bypassed, HeadPast, PageOf, IsList, RemoveAt, Distinct;
    RemoveAtMembers(h.all, i);
  }

  lemma NothingLive(h: Heap, x: nat)
    requires h.Core() && x in h.all && |h.free[x]| == Total(h.prs[x].Type())
    ensures forall p :: p in h.live ==> PageOf(p) != h.prs[x].Page()
  {
    hide PageOf, Lists, FreeList, Pages, Held, Runs, Addr, Total, PageHeld;
    HeldPage(h, x);
    PageFree(h, x);
    forall p | p in h.live
      ensures PageOf(p) != h.prs[x].Page()
    {
      WholePageFree(h.prs[x], h.mem, h.free[x], h.live, p);
    }
  }

  lemma RunsDropPage(at: map<nat, nat>, big: map<nat, nat>, page: nat)
    requires Runs(at, big)
    ensures Runs(at - {page}, big)
  {}

  lemma DropPageKeeps(h: Heap, t: nat, i: nat, j: nat)
    requires h.Core() && t < NSIZES && i < |h.all| && j < |h.same[t]| && h.all[i] == h.same[t][j]
    requires |h.free[h.all[i]]| == Total(h.prs[h.all[i]].Type())
    ensures DropPage(h, t, i, j).Core()
    ensures forall y :: y in DropPage(h, t, i, j).all ==> y in h.all && y != h.all[i]
  {
    hide Bypassed, HeadPast, PageOf, IsList, RemoveAt, Pages, Held, Total, Runs, Distinct, Relinked, FreeList;
    var h', x := DropPage(h, t, i, j), h.all[i];
    DropWithout(h, t, i, j);
    NothingLive(h, x);
    HeldPage(h, x);
    ListsDrop(h, t, i, j);
    PagesWithout(h.prs, h'.prs, h.mem, h.all, h'.all, h.at, h.free, x);
    HeldWithout(h.prs, h'.prs, h.all, h'.all, h.at, h.free, h.big, h.live, x);
    RunsDropPage(h.at, h.big, h.prs[x].Page());
  }
}
