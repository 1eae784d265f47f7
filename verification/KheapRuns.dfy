/**
 Any run of the kernel heap: allocations, frees and stores by clients that
 keep to what they were given, over a page supplier that offers whatever
 addresses it likes as long as they are free.
 */
module KheapRuns {
  import opened KheapModel
  import opened KheapSteps
  import opened Kheap

  datatype Request =
    | Malloc(sz: nat, offer: nat)         // offer: the run the supplier has in mind, if it is asked
    | Free(p: nat)
    | Store(p: nat, word: nat, value: nat)

  // The supplier's own record: the runs handed out and not returned.
  ghost predicate Recorded(runs: map<nat, nat>, at: map<nat, nat>, big: map<nat, nat>) {
    && (forall q :: q in runs <==> q in at || q in big)
    && (forall q :: q in at ==> runs[q] == 1)
    && (forall a :: a in big && a !in at ==> runs[a] == big[a])
  }

  // The run of n pages at a is there to be handed out.
  predicate Offered(runs: map<nat, nat>, a: nat, n: nat) {
    && KSEG0 <= a && a + PAGE_SIZE * Footprint(n) <= KSEG1 && a % PAGE_SIZE == 0
    && forall b | b in runs :: a + PAGE_SIZE * Footprint(n) <= b || b + PAGE_SIZE * Footprint(runs[b]) <= a
  }

  lemma OfferedSupplied(runs: map<nat, nat>, at: map<nat, nat>, big: map<nat, nat>, a: nat, n: nat)
    requires Recorded(runs, at, big) && Runs(at, big) && Offered(runs, a, n)
    ensures Supplied(at, big, a, n)
  {
    forall b | b in big
      ensures a + PAGE_SIZE * Footprint(n) <= b || b + PAGE_SIZE * Footprint(big[b]) <= a
    {
      RunNotPage(at, big, b);
    }
  }

  lemma RunNotPage(at: map<nat, nat>, big: map<nat, nat>, a: nat)
    requires Runs(at, big) && a in big
    ensures a !in at
  {}

  lemma HeapRuns(h: Heap)
    requires h.Inv()
    ensures Runs(h.at, h.big) && 0 !in h.at && 0 !in h.big && 0 !in h.live
  {
    hide Lists, Pages, Held, Runs;
    NothingAtZero(h);
    NoPageZero(h);
    NoRunZero(h);
  }

  lemma RecordPage(runs: map<nat, nat>, at: map<nat, nat>, at': map<nat, nat>, big: map<nat, nat>, q: nat)
    requires Recorded(runs, at, big) && at'.Keys == at.Keys + {q}
    ensures Recorded(runs[q := 1], at', big)
  {}

  lemma RecordRun(runs: map<nat, nat>, at: map<nat, nat>, big: map<nat, nat>, a: nat, n: nat)
    requires Recorded(runs, at, big) && a !in at
    ensures Recorded(runs[a := n], at, big[a := n])
  {}

  lemma RecordGot(runs: map<nat, nat>, at: map<nat, nat>, at': map<nat, nat>, big: map<nat, nat>, big': map<nat, nat>,
                  live: map<nat, nat>, p: nat, sz: nat, page: nat)
    requires Recorded(runs, at, big) && Got(at, at', big, big', live, p, sz, page) && Runs(at', big') && 0 !in at'
    ensures Recorded(if sz >= LARGEST_SUBPAGE_SIZE then runs[p := PagesFor(sz)] else runs[PageOf(p) := 1], at', big')
  {
    hide PagesFor, PageOf, Recorded, Runs;
    if sz < LARGEST_SUBPAGE_SIZE {
      var e := PageIfEmpty(live, PageOf(p));
      assert at.Keys == at'.Keys - {e} by { assert at.Keys == (at' - {e}).Keys; }
      RecordPage(runs, at, at', big, PageOf(p));
    } else {
      RunNotPage(at', big', p);
      RecordRun(runs, at, big, p, PagesFor(sz));
    }
  }

  lemma RecordDropped(runs: map<nat, nat>, at: map<nat, nat>, big: map<nat, nat>, freed: nat)
    requires Recorded(runs, at, big) && Runs(at, big)
    ensures freed !in big ==> Recorded(runs - {freed}, at - {freed}, big)
    ensures freed !in at ==> Recorded(runs - {freed}, at, big - {freed})
  {}

  lemma NothingRecorded()
    ensures Recorded(map[], map[], map[])
  {}

  // ---------- what a request does ----------

  // The heap and the supplier's record
  datatype Sight = Sight(h: Heap, runs: map<nat, nat>)

  // What kmalloc answers. It fails only if no block is spare and either the
  // supplier has nothing to offer or all pagerefs are taken.
  ghost predicate Answers(s: Sight, sz: nat, offer: nat, p: nat, s': Sight) {
    if p == 0 then
      && s' == s
      && (sz < 2048 ==> !Spare(s.h, Granted(sz)))
      && (Offered(s.runs, offer, if sz >= 2048 then PagesFor(sz) else 1) ==>
            sz < 2048 && forall y :: 0 <= y < |s.h.inuse| ==> s.h.inuse[y])
    else
      && p !in s.h.live && s'.h.live == s.h.live[p := Granted(sz)] && AlignedFor(p, sz)
      && Apart(s.h.live, p, Granted(sz)) && Undisturbed(s.h.mem, s'.h.mem, s.h.live)
  }

  // The word is within what the client was given at p.
  ghost predicate Within(live: map<nat, nat>, p: nat, word: nat) {
    p in live && p <= word && word + 4 <= p + live[p] && word % 4 == 0
  }

  // What a request does; p is the answer to a kmalloc. Sizes past 32 bits,
  // addresses not held and stores elsewhere are none that a client makes.
  ghost predicate Serves(s: Sight, r: Request, p: nat, s': Sight) {
    match r
    case Malloc(sz, offer) => if sz < 0x1_0000_0000 then Answers(s, sz, offer, p, s') else s' == s
    case Free(q) =>
      if q in s.h.live then s'.h.live == s.h.live - {q} && Undisturbed(s.h.mem, s'.h.mem, s'.h.live)
      else s' == s
    case Store(q, word, value) =>
      if Within(s.h.live, q, word) then s' == s.(h := s.h.(mem := s.h.mem[word := value])) else s' == s
  }

  // kmalloc over this supplier
  method Allocate(k: Heapkeeper, runs: map<nat, nat>, sz: nat, offer: nat) returns (p: nat, runs': map<nat, nat>)
    requires k.Valid() && sz < 0x1_0000_0000 && Recorded(runs, k.at, k.big)
    modifies k, k.prs, k.inuse, k.sizebases
    ensures k.Valid() && Recorded(runs', k.at, k.big)
    ensures k.live == if p == 0 then old(k.live) else old(k.live)[p := Granted(sz)]
    ensures Answers(Sight(old(k.V()), runs), sz, offer, p, Sight(k.V(), runs'))
  {
    hide Heap.Inv, Recorded, Offered, Supplied, Granted, PagesFor, Runs, Got, Apart, AlignedFor, PageOf, Spare,
      Undisturbed;
    HeapRuns(k.V());
    var n := if sz >= LARGEST_SUBPAGE_SIZE then PagesFor(sz) else 1;
    var page := 0;
    if Offered(runs, offer, n) {
      page := offer;
      OfferedSupplied(runs, k.at, k.big, offer, n);
    }
    p := k.Kmalloc(sz, page);
    runs' := runs;
    if p != 0 {
      HeapRuns(k.V());
      RecordGot(runs, old(k.at), k.at, old(k.big), k.big, old(k.live), p, sz, page);
      runs' := if sz >= LARGEST_SUBPAGE_SIZE then runs[p := PagesFor(sz)] else runs[PageOf(p) := 1];
    }
  }

  // kfree, giving what it frees back to this supplier
  method Release(k: Heapkeeper, runs: map<nat, nat>, p: nat) returns (runs': map<nat, nat>)
    requires k.Valid() && (p == 0 || p in k.live) && Recorded(runs, k.at, k.big)
    modifies k, k.prs, k.inuse, k.sizebases
    ensures k.Valid() && Recorded(runs', k.at, k.big) && k.live == old(k.live) - {p}
    ensures Undisturbed(old(k.mem), k.mem, k.live)
    ensures p == 0 ==> k.V() == old(k.V()) && runs' == runs
  {
    hide Heap.Inv, Recorded, Runs, PageOf, Undisturbed;
    ghost var at, big := k.at, k.big;
    HeapRuns(k.V());
    var freed := k.Kfree(p);
    RecordDropped(runs, at, big, freed);
    NoneAtZero(runs, at, big);
    FreedApart(at, big, freed);
    runs' := runs - {freed};
  }

  lemma FreedApart(at: map<nat, nat>, big: map<nat, nat>, q: nat)
    requires Runs(at, big) && 0 !in at && 0 !in big
    ensures q !in at || q !in big
    ensures at - {0} == at && big - {0} == big
  {}

  // A client stores a word in what it was given.
  method ClientStore(k: Heapkeeper, p: nat, word: nat, value: nat)
    requires k.Valid() && p in k.live && p <= word && word + 4 <= p + k.live[p] && word % 4 == 0
    modifies k
    ensures k.Valid() && k.V() == old(k.V()).(mem := old(k.mem)[word := value])
  {
    hide Heap.Inv;
    ClientStoreKeeps(k.V(), p, word, value);
    k.mem := k.mem[word := value];
  }

  lemma NoneAtZero(runs: map<nat, nat>, at: map<nat, nat>, big: map<nat, nat>)
    requires Recorded(runs, at, big) && 0 !in at && 0 !in big
    ensures runs - {0} == runs
  {}

  // One request
  method Serve(k: Heapkeeper, runs: map<nat, nat>, held: map<nat, nat>, r: Request)
    returns (p: nat, runs': map<nat, nat>, held': map<nat, nat>)
    requires k.Valid() && held == k.live && Recorded(runs, k.at, k.big)
    modifies k, k.prs, k.inuse, k.sizebases
    ensures k.Valid() && held' == k.live && Recorded(runs', k.at, k.big)
    ensures Serves(Sight(old(k.V()), runs), r, p, Sight(k.V(), runs'))
  {
    hide Heap.Inv, Recorded, Answers, Granted, Undisturbed, Runs;
    p, runs', held' := 0, runs, held;
    HeapRuns(k.V());
    match r {
      case Malloc(sz, offer) =>
        if sz < 0x1_0000_0000 {
          p, runs' := Allocate(k, runs, sz, offer);
          if p != 0 {
            held' := held[p := Granted(sz)];
          }
        }
      case Free(q) =>
        if q == 0 || q in held {
          runs' := Release(k, runs, q);
          held' := held - {q};
        }
      case Store(q, word, value) =>
        if q in held && q <= word && word + 4 <= q + held[q] && word % 4 == 0 {
          ClientStore(k, q, word, value);
        }
    }
  }

  // trace[i] is the heap before request i, answers[i] what the request got.
  ghost predicate IsRun(trace: seq<Sight>, reqs: seq<Request>, answers: seq<nat>) {
    && |trace| == |reqs| + 1 && |answers| == |reqs|
    && (forall i :: 0 <= i < |trace| ==> trace[i].h.Inv())
    && forall i :: 0 <= i < |reqs| ==> ServesAt(trace, reqs, answers, i)
  }

  ghost predicate ServesAt(trace: seq<Sight>, reqs: seq<Request>, answers: seq<nat>, i: nat)
    requires i < |reqs| && i < |answers| && i + 1 < |trace|
  {
    Serves(trace[i], reqs[i], answers[i], trace[i + 1])
  }

  lemma RunGrows(trace: seq<Sight>, reqs: seq<Request>, answers: seq<nat>, p: nat, r: Request, s': Sight)
    requires IsRun(trace, reqs, answers) && Serves(trace[|reqs|], r, p, s') && s'.h.Inv()
    ensures IsRun(trace + [s'], reqs + [r], answers + [p])
  {
    hide Serves, Heap.Inv;
    var trace', reqs', answers' := trace + [s'], reqs + [r], answers + [p];
    forall i | 0 <= i < |reqs'|
      ensures ServesAt(trace', reqs', answers', i)
    {
      if i < |reqs| {
        assert ServesAt(trace, reqs, answers, i);
      }
    }
  }

  // Any requests on a heap that starts empty: each does what it says, the heap
  // stays in order, and the clients' record of what they hold is exactly what
  // is live.
  method Run(reqs: seq<Request>)
    returns (k: Heapkeeper, held: map<nat, nat>, answers: seq<nat>, ghost trace: seq<Sight>)
    ensures k.Valid() && held == k.live && IsRun(trace, reqs, answers)
    ensures trace[0].h.live == map[] && trace[|reqs|].h == k.V()
  {
    hide Heap.Inv, Recorded, Serves;
    k := new Heapkeeper();
    var runs: map<nat, nat> := map[];
    held, answers, trace := map[], [], [Sight(k.V(), runs)];
    assert Recorded(runs, k.at, k.big) by { NothingRecorded(); }
    for i := 0 to |reqs|
      invariant k.Valid() && held == k.live && Recorded(runs, k.at, k.big)
      invariant fresh(k) && fresh(k.prs) && fresh(k.inuse) && fresh(k.sizebases)
      invariant |trace| == i + 1 && trace[i] == Sight(k.V(), runs) && trace[0].h.live == map[]
      invariant IsRun(trace, reqs[..i], answers)
    {
      var p;
      p, runs, held := Serve(k, runs, held, reqs[i]);
      RunGrows(trace, reqs[..i], answers, p, reqs[i], Sight(k.V(), runs));
      assert reqs[..i + 1] == reqs[..i] + [reqs[i]];
      answers, trace := answers + [p], trace + [Sight(k.V(), runs)];
    }
    assert reqs[..|reqs|] == reqs;
  }

  // ---------- what clients may rely on over a run ----------

  // What a client holds it holds until it frees it; meanwhile it is given to
  // nobody else, nor is anything that overlaps it.
  lemma {:induction false} HeldUntilFreed(trace: seq<Sight>, reqs: seq<Request>, answers: seq<nat>, i: nat, k: nat,
                                          q: nat)
    requires IsRun(trace, reqs, answers) && i <= k < |trace| && q in trace[i].h.live
    requires forall j :: i <= j < k ==> reqs[j] != Free(q)
    ensures q in trace[k].h.live && trace[k].h.live[q] == trace[i].h.live[q]
    ensures k < |reqs| && reqs[k].Malloc? && reqs[k].sz < 0x1_0000_0000 && answers[k] != 0 ==>
              var n := Granted(reqs[k].sz);
              answers[k] != q && (q + trace[i].h.live[q] <= answers[k] || answers[k] + n <= q)
    decreases k
  {
    hide Heap.Inv, Undisturbed, Spare, Offered, AlignedFor, Granted;
    if i < k {
      HeldUntilFreed(trace, reqs, answers, i, k - 1, q);
      assert ServesAt(trace, reqs, answers, k - 1);
    }
    if k < |reqs| {
      assert ServesAt(trace, reqs, answers, k);
    }
  }

  // What a client stores in what it holds it finds there, until it stores
  // there again or frees it, whatever anyone else allocates, frees or stores.
  lemma {:induction false} StoredUntilFreed(trace: seq<Sight>, reqs: seq<Request>, answers: seq<nat>, i: nat, k: nat,
                                            q: nat, word: nat, value: nat)
    requires IsRun(trace, reqs, answers) && i < k < |trace|
    requires reqs[i] == Store(q, word, value) && Within(trace[i].h.live, q, word)
    requires forall j :: i < j < k ==> reqs[j] != Free(q) && !(reqs[j].Store? && reqs[j].word == word)
    ensures Within(trace[k].h.live, q, word) && word in trace[k].h.mem && trace[k].h.mem[word] == value
    decreases k
  {
    hide Heap.Inv, Spare, Offered, AlignedFor, Granted, Apart, PagesFor;
    assert ServesAt(trace, reqs, answers, k - 1);
    if i < k - 1 {
      StoredUntilFreed(trace, reqs, answers, i, k - 1, q, word, value);
      HeldUntilFreed(trace, reqs, answers, k - 1, k, q);
    }
  }
}
