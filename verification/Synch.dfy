/**
 kern/thread/synch.c: semaphores and locks over the thread system. A call
 that blocks is a stretch up to thread_sleep and, each time the thread runs
 again, a stretch from the loop test on; between them anything may happen.
 */
module Synch {
  import opened ThreadModel
  import opened ThreadTables
  import opened Threads

  // Whoever sleeps on a semaphore or lock has a reason to, and will test
  // again when it runs.
  ghost predicate Quiet(s: Sys, sems: map<nat, nat>, owner: map<nat, int>, waits: map<nat, nat>) {
    forall t :: t in s.sleep && t in s.addr && (s.addr[t] in sems || s.addr[t] in owner) ==>
      && t in waits && waits[t] == s.addr[t]
      && (s.addr[t] in sems ==> sems[s.addr[t]] == 0)
      && (s.addr[t] in owner ==> owner[s.addr[t]] >= 0)
  }

  // ---------- what the thread steps keep ----------

  lemma QuietResumed(s: Sys, sems: map<nat, nat>, owner: map<nat, int>, waits: map<nat, nat>)
    requires s.Inv() && Quiet(s, sems, owner, waits)
    ensures Quiet(Resumed(s, []), sems, owner, waits)
  {
    OnePlaceEach(s);
    if s.ready != [] {
      assert s.ready[0] in s.ready;
    }
  }

  lemma QuietSleep(s: Sys, sems: map<nat, nat>, owner: map<nat, int>, waits: map<nat, nat>, a: nat)
    requires s.Inv() && s.cur >= 0 && Quiet(s, sems, owner, waits)
    requires (a in sems ==> sems[a] == 0) && (a in owner ==> owner[a] >= 0)
    ensures Quiet(ToSleep(s, a), sems, owner, waits[s.cur := a])
  {
    OnePlaceEach(s);
  }

  lemma QuietPutAway(s: Sys, sems: map<nat, nat>, owner: map<nat, int>, waits: map<nat, nat>, next: State, a: nat)
    requires s.Inv() && s.cur >= 0 && s.num > 0 && Quiet(s, sems, owner, waits) && a !in sems && a !in owner
    ensures Quiet(PutAway(s, next, a), sems, owner, waits)
  {
    OnePlaceEach(s);
  }

  lemma QuietBorn(s: Sys, sems: map<nat, nat>, owner: map<nat, int>, waits: map<nat, nat>, t: nat)
    requires s.Inv() && t !in s.structs && Quiet(s, sems, owner, waits)
    ensures Quiet(Born(s, t), sems, owner, waits)
  {
    OnePlaceEach(s);
    ZombiesApart(s);
  }

  // Once nobody sleeps on a, its count or owner may change.
  lemma QuietWoken(s: Sys, sems: map<nat, nat>, owner: map<nat, int>, waits: map<nat, nat>, sems': map<nat, nat>,
                   owner': map<nat, int>, a: nat)
    requires s.Inv() && Quiet(s, sems, owner, waits) && sems'.Keys == sems.Keys && owner'.Keys == owner.Keys
    requires forall b :: b in sems && b != a ==> sems'[b] == sems[b]
    requires forall b :: b in owner && b != a ==> owner'[b] == owner[b]
    ensures Quiet(Woken(s, a), sems', owner', waits)
  {
    hide Matching, Others;
    WakeupMembers(s.sleep, s.addr, a);
  }

  lemma QuietLeaves(s: Sys, sems: map<nat, nat>, owner: map<nat, int>, waits: map<nat, nat>)
    requires s.Inv() && s.cur >= 0 && Quiet(s, sems, owner, waits)
    ensures Quiet(s, sems, owner, waits - {s.cur})
  {
    OnePlaceEach(s);
  }

  // Nobody sleeps where the count is positive or the lock is free, so there
  // the count may drop and the lock be taken.
  lemma QuietTake(s: Sys, sems: map<nat, nat>, owner: map<nat, int>, waits: map<nat, nat>, sems': map<nat, nat>,
                  owner': map<nat, int>, a: nat)
    requires Quiet(s, sems, owner, waits) && sems'.Keys == sems.Keys && owner'.Keys == owner.Keys &&
             sems.Keys !! owner.Keys
    requires (a in sems ==> sems[a] > 0) && (a in owner ==> owner[a] < 0)
    requires forall b :: b in sems && b != a ==> sems'[b] == sems[b]
    requires forall b :: b in owner && b != a ==> owner'[b] == owner[b]
    ensures Quiet(s, sems', owner', waits)
  {}

  lemma QuietP(s: Sys, sems: map<nat, nat>, owner: map<nat, int>, waits: map<nat, nat>, a: nat)
    requires s.Inv() && s.cur >= 0 && Quiet(s, sems, owner, waits) && sems.Keys !! owner.Keys && a in sems &&
             sems[a] > 0
    ensures Quiet(s, sems[a := sems[a] - 1], owner, waits - {s.cur})
  {
    hide Quiet, Sys.Inv;
    QuietLeaves(s, sems, owner, waits);
    QuietTake(s, sems, owner, waits - {s.cur}, sems[a := sems[a] - 1], owner, a);
  }

  // ---------- the kernel as a value ----------

  // The largest count; one more and the assertion in V fails.
  const MAXCOUNT: nat := 0x7fff_ffff

  datatype Kern = Kern(s: Sys, sems: map<nat, nat>, owner: map<nat, int>, waits: map<nat, nat>)
  {
    // The current thread is inside P or lock_acquire.
    predicate Busy() {
      s.cur in waits
    }

    // The current thread may go to the loop test of P or lock_acquire on a.
    predicate MayTest(a: nat) {
      s.cur >= 0 && (Busy() ==> waits[s.cur] == a)
    }
  }

  datatype Event =
    | Down(sem: nat)          // P
    | Up(sem: nat)            // V, also from an interrupt
    | Lock(lock: nat)
    | Unlock(lock: nat)
    | Spawn(thread: nat)
    | Switch(next: State, elsewhere: nat)
    | Signal(elsewhere: nat)
    | Poll

  // e is a P on a that goes through.
  predicate Passes(k: Kern, e: Event, a: nat) {
    e == Down(a) && a in k.sems && k.MayTest(a) && k.sems[a] > 0
  }

  // e is a V on a.
  predicate Raises(k: Kern, e: Event, a: nat) {
    e == Up(a) && a in k.sems && !k.Busy() && k.sems[a] < MAXCOUNT
  }

  // e is a V on a that its assertion stops.
  predicate Overflows(k: Kern, e: Event) {
    e.Up? && e.sem in k.sems && !k.Busy() && k.sems[e.sem] >= MAXCOUNT
  }

  // e is a lock_acquire of l that goes through.
  predicate Takes(k: Kern, e: Event, l: nat) {
    e == Lock(l) && l in k.owner && k.MayTest(l) && k.owner[l] < 0
  }

  // e is a lock_release of l by its owner.
  predicate Drops(k: Kern, e: Event, l: nat) {
    e == Unlock(l) && l in k.owner && !k.Busy() && 0 <= k.owner[l] == k.s.cur
  }

  // e is a test in P or lock_acquire that finds it must sleep.
  predicate Waits(k: Kern, e: Event, a: nat) {
    && k.MayTest(a)
    && ((e == Down(a) && a in k.sems && k.sems[a] == 0) || (e == Lock(a) && a in k.owner && k.owner[a] >= 0))
  }

  // The kernel after an event. What the current thread cannot do, or what
  // makes no sense, changes nothing.
  function After(k: Kern, e: Event): Kern {
    match e
    case Down(a) =>
      if Passes(k, e, a) then k.(sems := k.sems[a := k.sems[a] - 1], waits := k.waits - {k.s.cur})
      else if Waits(k, e, a) then k.(s := Resumed(ToSleep(k.s, a), []), waits := k.waits[k.s.cur := a])
      else k
    case Up(a) =>
      if Raises(k, e, a) then k.(s := Woken(k.s, a), sems := k.sems[a := k.sems[a] + 1]) else k
    case Lock(l) =>
      if Takes(k, e, l) then k.(owner := k.owner[l := k.s.cur], waits := k.waits - {k.s.cur})
      else if Waits(k, e, l) then k.(s := Resumed(ToSleep(k.s, l), []), waits := k.waits[k.s.cur := l])
      else k
    case Unlock(l) =>
      if Drops(k, e, l) then k.(s := Woken(k.s, l), owner := k.owner[l := -1]) else k
    case Spawn(t) =>
      if k.s.cur >= 0 && !k.Busy() && t !in k.s.structs then k.(s := Born(k.s, t)) else k
    case Switch(next, a) =>
      if k.s.cur >= 0 && k.s.num > 0 && !k.Busy() && a !in k.sems && a !in k.owner
      then k.(s := Resumed(PutAway(k.s, next, a), [])) else k
    case Signal(a) =>
      if a !in k.sems && a !in k.owner then k.(s := Woken(k.s, a)) else k
    case Poll =>
      if k.s.cur < 0 then k.(s := Resumed(k.s, [])) else k
  }

  // ... and after several
  function AfterAll(k: Kern, es: seq<Event>): Kern {
    if es == [] then k else After(AfterAll(k, es[..|es| - 1]), es[|es| - 1])
  }

  // ---------- what the events do ----------

  // A V raises the count below the largest, whoever is current and also if
  // nobody is, and leaves nobody asleep on the semaphore.
  lemma UpRaises(k: Kern, a: nat)
    requires a in k.sems && k.sems[a] < MAXCOUNT && k.s.cur !in k.waits
    ensures var k' := After(k, Up(a));
            && k'.sems == k.sems[a := k.sems[a] + 1] && k'.owner == k.owner && k'.waits == k.waits
            && k'.s.cur == k.s.cur && (forall t :: t in k'.s.sleep ==> !(t in k'.s.addr && k'.s.addr[t] == a))
            && (forall t :: t in k.s.sleep && t in k.s.addr && k.s.addr[t] == a ==> t in k'.s.ready)
            && (forall t :: t in k.s.sleep && !(t in k.s.addr && k.s.addr[t] == a) ==> t in k'.s.sleep)
  {
    hide Matching, Others;
    WakeupMembers(k.s.sleep, k.s.addr, a);
  }

  // A P at a positive count takes one and goes on; at 0 it sleeps.
  lemma DownTakesOrSleeps(k: Kern, a: nat)
    requires a in k.sems && k.s.Inv() && k.s.cur >= 0 && (k.s.cur in k.waits ==> k.waits[k.s.cur] == a)
    ensures var k' := After(k, Down(a));
            if k.sems[a] > 0
            then k'.sems == k.sems[a := k.sems[a] - 1] && k'.s == k.s && k.s.cur !in k'.waits && k'.owner == k.owner
            else k'.sems == k.sems && k'.owner == k.owner && Asleep(k.s.cur, k', a)
  {
    if k.sems[a] == 0 { PutsToSleep(k.s, a); }
  }

  // A free lock is taken by the current thread; for another it sleeps.
  lemma LockTakesOrSleeps(k: Kern, l: nat)
    requires l in k.owner && k.s.Inv() && k.s.cur >= 0 && (k.s.cur in k.waits ==> k.waits[k.s.cur] == l) && l !in k.sems
    ensures var k' := After(k, Lock(l));
            if k.owner[l] < 0
            then k'.owner == k.owner[l := k.s.cur] && k'.s == k.s && k.s.cur !in k'.waits && k'.sems == k.sems
            else k'.owner == k.owner && k'.sems == k.sems && Asleep(k.s.cur, k', l)
  {
    if k.owner[l] >= 0 { PutsToSleep(k.s, l); }
  }

  // Thread t sleeps on a and is waiting for it.
  ghost predicate Asleep(t: int, k: Kern, a: nat) {
    t in k.waits && k.waits[t] == a && t in k.s.sleep && t in k.s.addr && k.s.addr[t] == a && k.s.cur != t
  }

  lemma PutsToSleep(s: Sys, a: nat)
    requires s.Inv() && s.cur >= 0
    ensures var s' := Resumed(ToSleep(s, a), []);
            s'.cur != s.cur && s.cur in s'.sleep && s.cur in s'.addr && s'.addr[s.cur] == a
  {
    OnePlaceEach(s);
    var i := ToSleep(s, a);
    assert i.sleep[|s.sleep|] == s.cur;
    if i.ready != [] {
      assert i.ready[0] in s.ready;
    }
  }

  // The owner's release frees the lock and leaves nobody asleep on it.
  lemma UnlockFrees(k: Kern, l: nat)
    requires l in k.owner && k.s.cur >= 0 && k.owner[l] == k.s.cur && k.s.cur !in k.waits
    ensures var k' := After(k, Unlock(l));
            && k'.owner == k.owner[l := -1] && k'.sems == k.sems && k'.waits == k.waits && k'.s.cur == k.s.cur
            && (forall t :: t in k'.s.sleep ==> !(t in k'.s.addr && k'.s.addr[t] == l))
            && (forall t :: t in k.s.sleep && t in k.s.addr && k.s.addr[t] == l ==> t in k'.s.ready)
  {
    hide Matching, Others;
    WakeupMembers(k.s.sleep, k.s.addr, l);
  }

  // No wakeup is lost on an idle processor: after the V of an interrupt the
  // first of the sleepers on the semaphore runs, if nothing else was ready.
  lemma IdleUpWakes(k: Kern, a: nat, i: nat)
    requires a in k.sems && k.sems[a] < MAXCOUNT && k.s.cur == -1 && k.s.ready == [] && i < |k.s.sleep|
    requires SleepsOn(k.s.addr, k.s.sleep[i], a) && forall j :: 0 <= j < i ==> !SleepsOn(k.s.addr, k.s.sleep[j], a)
    ensures var k' := AfterAll(k, [Up(a), Poll]);
            k'.s.cur == k.s.sleep[i] && a in k'.sems && k'.sems[a] == k.sems[a] + 1
  {
    hide Matching, Others;
    var es := [Up(a), Poll];
    assert es[..1] == [Up(a)] && [Up(a)][..0] == [];
    assert AfterAll(k, []) == k;
    assert AfterAll(k, [Up(a)]) == After(k, Up(a));
    assert AfterAll(k, es) == After(After(k, Up(a)), Poll);
    FirstMatch(k.s.sleep, k.s.addr, a, i);
  }

  // ---------- the counts over a run ----------

  // The V's on a in a run from k: every one below the largest count, from a
  // thread or, with none current, from an interrupt
  function Ups(k: Kern, es: seq<Event>, a: nat): nat {
    if es == [] then 0
    else
      var n := |es| - 1;
      var now := AfterAll(k, es[..n]);
      var raised := es[n] == Up(a) && a in now.sems && now.sems[a] < MAXCOUNT && now.s.cur !in now.waits;
      Ups(k, es[..n], a) + if raised then 1 else 0
  }

  // The P's on a that went through: every test at a positive count by a thread
  // that is not waiting elsewhere
  function Downs(k: Kern, es: seq<Event>, a: nat): nat {
    if es == [] then 0
    else
      var n := |es| - 1;
      var now := AfterAll(k, es[..n]);
      var passed := es[n] == Down(a) && a in now.sems && now.sems[a] > 0 && now.s.cur >= 0 &&
                    (now.s.cur in now.waits ==> now.waits[now.s.cur] == a);
      Downs(k, es[..n], a) + if passed then 1 else 0
  }

  // Over any run the count is the initial count plus the V's less the P's.
  // As it is never negative, no more P's go through than that allows.
  lemma {:induction false} CountIsUpsLessDowns(k: Kern, es: seq<Event>, a: nat)
    requires a in k.sems
    ensures a in AfterAll(k, es).sems
    ensures AfterAll(k, es).sems[a] + Downs(k, es, a) == k.sems[a] + Ups(k, es, a)
  {
    if es != [] {
      var n := |es| - 1;
      CountIsUpsLessDowns(k, es[..n], a);
      CountStep(AfterAll(k, es[..n]), es[n], a);
    }
  }

  lemma CountStep(k: Kern, e: Event, a: nat)
    requires a in k.sems
    ensures a in After(k, e).sems
    ensures After(k, e).sems[a] + (if Passes(k, e, a) then 1 else 0) == k.sems[a] + (if Raises(k, e, a) then 1 else 0)
  {
    hide Resumed, Woken, PutAway, Born;
  }

  // ---------- the holders of a lock over a run ----------

  datatype Grip = Taken(thread: int) | Dropped(thread: int)

  // Who acquired and who released lock l, in order, in a run from k
  function Grips(k: Kern, es: seq<Event>, l: nat): seq<Grip> {
    if es == [] then []
    else
      var n := |es| - 1;
      var now := AfterAll(k, es[..n]);
      var cur := now.s.cur;
      Grips(k, es[..n], l) +
      if l !in now.owner || cur < 0 then []
      else if es[n] == Lock(l) && now.owner[l] < 0 && (cur in now.waits ==> now.waits[cur] == l) then [Taken(cur)]
      else if es[n] == Unlock(l) && now.owner[l] == cur && cur !in now.waits then [Dropped(cur)]
      else []
  }

  // Nobody acquires the lock between an acquisition and its release, which is
  // by the same thread; o is the owner before.
  ghost predicate Exclusive(o: int, g: seq<Grip>) {
    forall i :: 0 <= i < |g| ==> GripFits(o, g, i)
  }

  ghost predicate GripFits(o: int, g: seq<Grip>, i: nat)
    requires i < |g|
  {
    match g[i]
    case Taken(t) => t >= 0 && if i == 0 then o < 0 else g[i - 1].Dropped?
    case Dropped(t) => if i == 0 then o == t else g[i - 1] == Taken(t)
  }

  function Holder(o: int, g: seq<Grip>): int {
    if g == [] then o
    else match g[|g| - 1]
      case Taken(t) => t
      case Dropped(_) => -1
  }

  lemma {:induction false} MutualExclusion(k: Kern, es: seq<Event>, l: nat)
    requires l in k.owner
    ensures l in AfterAll(k, es).owner && AfterAll(k, es).owner[l] == Holder(k.owner[l], Grips(k, es, l))
    ensures Exclusive(k.owner[l], Grips(k, es, l))
  {
    hide After, Exclusive, Holder;
    if es == [] {
      NoGrips(k.owner[l]);
    } else {
      var n := |es| - 1;
      MutualExclusion(k, es[..n], l);
      var now, g := AfterAll(k, es[..n]), Grips(k, es[..n], l);
      OwnerStep(now, es[n], l);
      if Takes(now, es[n], l) {
        ExclusiveMore(k.owner[l], g, Taken(now.s.cur));
      } else if Drops(now, es[n], l) {
        ExclusiveMore(k.owner[l], g, Dropped(now.s.cur));
      } else {
        assert g + [] == g;
      }
    }
  }

  lemma NoGrips(o: int)
    ensures Exclusive(o, []) && Holder(o, []) == o
  {}

  lemma ExclusiveMore(o: int, g: seq<Grip>, x: Grip)
    requires Exclusive(o, g) && x.thread >= 0
    requires if x.Taken? then Holder(o, g) < 0 else Holder(o, g) == x.thread
    ensures Exclusive(o, g + [x]) && Holder(o, g + [x]) == if x.Taken? then x.thread else -1
  {
    if g != [] {
      assert GripFits(o, g, |g| - 1);
    }
    forall i | 0 <= i < |g|
      ensures GripFits(o, g + [x], i)
    {
      assert GripFits(o, g, i);
    }
  }

  lemma OwnerStep(k: Kern, e: Event, l: nat)
    requires l in k.owner
    ensures l in After(k, e).owner
    ensures After(k, e).owner[l] == if Takes(k, e, l) then k.s.cur else if Drops(k, e, l) then -1 else k.owner[l]
    ensures Takes(k, e, l) ==> k.s.cur >= 0 > k.owner[l]
    ensures Drops(k, e, l) ==> k.s.cur == k.owner[l] >= 0
  {
    hide Resumed, Woken, PutAway, Born;
  }

  // ---------- the primitives ----------

  class Kernel {
    const sys: System
    var sems: map<nat, nat>              // count of each semaphore
    var owner: map<nat, int>             // myOwner of each lock; -1 is null
    var waits: map<nat, nat>             // who is inside P or lock_acquire, on what

    ghost function K(): Kern
      reads this, sys, sys.tab
    {
      Kern(sys.S(), sems, owner, waits)
    }

    ghost predicate Consistent()
      reads this
    {
      sems.Keys !! owner.Keys && forall a :: a in sems ==> sems[a] <= MAXCOUNT
    }

    ghost predicate Valid()
      reads this, sys, sys.tab, sys.tab.Repr
    {
      sys.Valid() && this !in sys.tab.Repr && Consistent() && Quiet(sys.S(), sems, owner, waits)
    }

    // A kernel with one thread and the given semaphores and locks.
    constructor (me: nat, counts: map<nat, nat>, locks: set<nat>)
      requires counts.Keys !! locks && forall a :: a in counts ==> counts[a] <= MAXCOUNT
      ensures Valid() && fresh(sys) && fresh(sys.tab.Repr)
      ensures K() == Kern(Started(me), counts, map l | l in locks :: -1, map[])
    {
      sys := new System(me);
      sems, owner, waits := counts, map l | l in locks :: -1, map[];
    }

    // The sleep inside P and lock_acquire.
    method Block(a: nat)
      requires Valid() && K().MayTest(a)
      requires (a in sems && sems[a] == 0) || (a in owner && owner[a] >= 0)
      modifies this, sys, sys.tab.Repr
      ensures Valid() && fresh(sys.tab.Repr - old(sys.tab.Repr)) && sems == old(sems) && owner == old(owner)
      ensures waits == old(waits)[old(sys.curthread) := a] && sys.S() == Resumed(ToSleep(old(sys.S()), a), [])
    {
      hide System.Valid, Quiet, Resumed, Sys.Inv;
      ghost var s := sys.S();
      SystemFacts(sys);
      QuietSleep(s, sems, owner, waits, a);
      ToSleepKeeps(s, a);
      QuietResumed(ToSleep(s, a), sems, owner, waits[s.cur := a]);
      waits := waits[sys.curthread := a];
      var _, _ := sys.Sleep(a, [], true);
    }

    // P from its loop test on: false if the thread went to sleep.
    method P(a: nat) returns (done: bool)
      requires Valid() && a in sems && K().MayTest(a)
      modifies this, sys, sys.tab.Repr
      ensures Valid() && fresh(sys.tab.Repr - old(sys.tab.Repr)) && owner == old(owner)
      ensures done == (old(sems)[a] > 0)
      ensures done ==> sems == old(sems)[a := old(sems)[a] - 1]
      ensures done ==> sys.S() == old(sys.S()) && waits == old(waits) - {old(sys.curthread)}
      ensures !done ==> sems == old(sems) && waits == old(waits)[old(sys.curthread) := a]
      ensures !done ==> sys.S() == Resumed(ToSleep(old(sys.S()), a), [])
    {
      hide System.Valid, Quiet, Resumed, Sys.Inv;
      if sems[a] == 0 {
        Block(a);
        return false;
      }
      SystemFacts(sys);
      QuietP(sys.S(), sems, owner, waits, a);
      sems := sems[a := sems[a] - 1];
      waits := waits - {sys.curthread};
      return true;
    }

    // V, from a thread or from an interrupt. Its assertion fails exactly at
    // the largest count.
    method V(a: nat) returns (panic: bool)
      requires Valid() && a in sems
      modifies this, sys, sys.tab.Repr
      ensures Valid() && fresh(sys.tab.Repr - old(sys.tab.Repr)) && panic == (old(sems)[a] == MAXCOUNT)
      ensures panic ==> K() == old(K())
      ensures !panic ==> owner == old(owner) && waits == old(waits)
      ensures !panic ==> sems == old(sems)[a := old(sems)[a] + 1] && sys.S() == Woken(old(sys.S()), a)
    {
      hide System.Valid, Quiet, Woken, Sys.Inv;
      if sems[a] == MAXCOUNT {
        return true;
      }
      SystemFacts(sys);
      QuietWoken(sys.S(), sems, owner, waits, sems[a := sems[a] + 1], owner, a);
      sems := sems[a := sems[a] + 1];
      sys.Wakeup(a, true);
      return false;
    }

    // lock_acquire from its loop test on: false if the thread went to sleep.
    method Acquire(a: nat) returns (done: bool)
      requires Valid() && a in owner && K().MayTest(a)
      modifies this, sys, sys.tab.Repr
      ensures Valid() && fresh(sys.tab.Repr - old(sys.tab.Repr)) && sems == old(sems)
      ensures done == (old(owner)[a] < 0)
      ensures done ==>
                sys.S() == old(sys.S()) && owner == old(owner)[a := sys.curthread] &&
                waits == old(waits) - {sys.curthread}
      ensures !done ==> owner == old(owner) && waits == old(waits)[old(sys.curthread) := a]
      ensures !done ==> sys.S() == Resumed(ToSleep(old(sys.S()), a), [])
    {
      hide System.Valid, Quiet, Resumed, Sys.Inv;
      ghost var s := sys.S();
      SystemFacts(sys);
      if owner[a] >= 0 {
        Block(a);
        return false;
      }
      QuietLeaves(s, sems, owner, waits);
      QuietTake(s, sems, owner, waits - {s.cur}, sems, owner[a := s.cur], a);
      owner := owner[a := sys.curthread];
      waits := waits - {sys.curthread};
      return true;
    }

    // lock_do_i_hold
    predicate DoIHold(a: nat)
      requires a in owner
      reads this, sys
    {
      sys.curthread == owner[a]
    }

    // lock_release
    method Release(a: nat)
      requires Valid() && sys.curthread >= 0 && a in owner && DoIHold(a)
      modifies this, sys, sys.tab.Repr
      ensures Valid() && fresh(sys.tab.Repr - old(sys.tab.Repr)) && sems == old(sems) && waits == old(waits)
      ensures owner == old(owner)[a := -1]
      ensures sys.S() == Woken(old(sys.S()), a)
    {
      hide System.Valid, Quiet, Woken, Sys.Inv;
      SystemFacts(sys);
      QuietWoken(sys.S(), sems, owner, waits, sems, owner[a := -1], a);
      owner := owner[a := -1];
      sys.Wakeup(a, true);
    }

    // ---------- what else goes on ----------

    method Fork(t: nat)
      requires Valid() && sys.curthread >= 0 && t !in sys.structs
      modifies this, sys, sys.tab.Repr
      ensures Valid() && fresh(sys.tab.Repr - old(sys.tab.Repr)) && unchanged(this)
      ensures sys.S() == Born(old(sys.S()), t)
    {
      hide System.Valid, Quiet, Sys.Inv, Born;
      SystemFacts(sys);
      QuietBorn(sys.S(), sems, owner, waits, t);
      var _ := sys.Fork(t, true, true, true);
    }

    // A thread that is inside no call yields, exits or sleeps elsewhere.
    method Leave(next: State, a: nat)
      requires Valid() && sys.curthread >= 0 && sys.curthread !in waits && a !in sems && a !in owner
      modifies this, sys, sys.tab.Repr
      ensures Valid() && fresh(sys.tab.Repr - old(sys.tab.Repr)) && unchanged(this)
      ensures old(sys.numthreads) > 0 && sys.S() == Resumed(PutAway(old(sys.S()), next, a), [])
    {
      hide System.Valid, Quiet, Sys.Inv, Resumed, PutAway;
      ghost var s := sys.S();
      SystemFacts(sys);
      PutAwayKeeps(s, next, a);
      QuietPutAway(s, sems, owner, waits, next, a);
      QuietResumed(PutAway(s, next, a), sems, owner, waits);
      var _, _ := sys.MiSwitch(next, a, [], true);
    }

    // A wakeup on some other address.
    method Wakeup(a: nat)
      requires Valid() && a !in sems && a !in owner
      modifies this, sys, sys.tab.Repr
      ensures Valid() && fresh(sys.tab.Repr - old(sys.tab.Repr)) && unchanged(this)
      ensures sys.S() == Woken(old(sys.S()), a)
    {
      hide System.Valid, Quiet, Woken, Sys.Inv;
      SystemFacts(sys);
      QuietWoken(sys.S(), sems, owner, waits, sems, owner, a);
      sys.Wakeup(a, true);
    }

    // The processor, idle until now, looks at the run queue again.
    method Resume()
      requires Valid() && sys.curthread < 0
      modifies this, sys, sys.tab.Repr
      ensures Valid() && fresh(sys.tab.Repr - old(sys.tab.Repr)) && unchanged(this)
      ensures sys.S() == Resumed(old(sys.S()), [])
    {
      hide System.Valid, Quiet, Resumed, Sys.Inv;
      SystemFacts(sys);
      QuietResumed(sys.S(), sems, owner, waits);
      var _ := sys.Resume([]);
    }
  }

  // ---------- any run ----------

  // One event: exactly After, unless a V overflows. A thread inside P or
  // lock_acquire does nothing but test again.
  method Step(k: Kernel, e: Event) returns (panic: bool)
    requires k.Valid()
    modifies k, k.sys, k.sys.tab.Repr
    ensures k.Valid() && fresh(k.sys.tab.Repr - old(k.sys.tab.Repr))
    ensures panic == old(Overflows(k.K(), e)) && k.K() == After(old(k.K()), e)
  {
    hide System.Valid, Quiet, Sys.Inv, Kernel.Consistent, Resumed, Woken, Born, PutAway, ToSleep;
    panic := false;
    var cur := k.sys.curthread;
    var busy := cur in k.waits;
    match e {
      case Down(a) =>
        if cur >= 0 && a in k.sems && (busy ==> k.waits[cur] == a) {
          var _ := k.P(a);
        }
      case Up(a) =>
        if a in k.sems && !busy {
          CountFits(k, a);
          panic := k.V(a);
        }
      case Lock(a) =>
        if cur >= 0 && a in k.owner && (busy ==> k.waits[cur] == a) {
          var _ := k.Acquire(a);
        }
      case Unlock(a) =>
        if cur >= 0 && a in k.owner && !busy && k.DoIHold(a) {
          k.Release(a);
        }
      case Spawn(t) =>
        if cur >= 0 && !busy && t !in k.sys.structs {
          k.Fork(t);
        }
      case Switch(next, a) =>
        if cur >= 0 && !busy && a !in k.sems && a !in k.owner {
          k.Leave(next, a);
        }
      case Signal(a) =>
        if a !in k.sems && a !in k.owner {
          k.Wakeup(a);
        }
      case Poll =>
        if cur < 0 {
          k.Resume();
        }
    }
  }

  lemma CountFits(k: Kernel, a: nat)
    requires k.Consistent() && a in k.sems
    ensures k.sems[a] <= MAXCOUNT
  {}

  // Any interleaving of threads and interrupts does what AfterAll says, up to
  // a V at the largest count, and keeps every sleeper justified. So the count
  // of a semaphore is its initial count plus the V's less the P's, and each
  // lock is released by its holder before the next one has it.
  method Run(k: Kernel, events: seq<Event>) returns (panic: bool, n: nat)
    requires k.Valid()
    modifies k, k.sys, k.sys.tab.Repr
    ensures k.Valid() && n <= |events| && k.K() == AfterAll(old(k.K()), events[..n])
    ensures if panic then n < |events| && Overflows(k.K(), events[n]) else n == |events|
    ensures forall a :: a in old(k.sems) ==>
              && a in k.sems
              && k.sems[a] + Downs(old(k.K()), events[..n], a) == old(k.sems)[a] + Ups(old(k.K()), events[..n], a)
    ensures forall l :: l in old(k.owner) ==>
              && l in k.owner && k.owner[l] == Holder(old(k.owner)[l], Grips(old(k.K()), events[..n], l))
              && Exclusive(old(k.owner)[l], Grips(old(k.K()), events[..n], l))
  {
    hide System.Valid, Quiet, Sys.Inv, Kernel.Consistent, After, Overflows, Downs, Ups, Grips, Exclusive, Holder;
    ghost var k0 := k.K();
    panic, n := false, 0;
    while n < |events| && !panic
      invariant k.Valid() && fresh(k.sys.tab.Repr - old(k.sys.tab.Repr)) && n <= |events|
      invariant k.K() == AfterAll(k0, events[..n])
      invariant panic ==> n < |events| && Overflows(k.K(), events[n])
      decreases |events| - n, !panic
    {
      assert events[..n + 1][..n] == events[..n];
      ghost var k1 := k.K();
      panic := Step(k, events[n]);
      if panic {
        OverflowStays(k1, events[n]);
      } else {
        n := n + 1;
      }
    }
    forall a | a in k0.sems
      ensures a in k.sems && k.sems[a] + Downs(k0, events[..n], a) == k0.sems[a] + Ups(k0, events[..n], a)
    {
      CountIsUpsLessDowns(k0, events[..n], a);
    }
    forall l | l in k0.owner
      ensures l in k.owner && k.owner[l] == Holder(k0.owner[l], Grips(k0, events[..n], l))
      ensures Exclusive(k0.owner[l], Grips(k0, events[..n], l))
    {
      MutualExclusion(k0, events[..n], l);
    }
  }

  lemma OverflowStays(k: Kern, e: Event)
    requires Overflows(k, e)
    ensures After(k, e) == k
  {}

  lemma SystemFacts(sys: System)
    requires sys.Valid()
    ensures sys.S().Inv() && sys !in sys.tab.Repr
  {
    hide Sys.Inv, Tables.Valid;
  }
}
