/**
 kern/thread/thread.c and kern/thread/scheduler.c. Each method is one
 stretch with interrupts off, up to a context switch. Threads are named by
 numbers, -1 being the null pointer; what memory and the devices do is a
 parameter. Where ok is false, no memory is to be had.
 */
module Threads {
  import opened Errno
  import opened ThreadModel
  import opened ThreadTables

  class System {
    var curthread: int
    const tab: Tables
    var numthreads: nat
    var addr: map<nat, nat>
    ghost var alive: set<nat>
    var structs: set<nat>
    var started: set<nat>
    ghost var forked: bool         // some thread_fork has succeeded

    ghost function S(): Sys
      reads this, tab
    {
      Sys(curthread, tab.ready, tab.sleep, tab.zomb, numthreads, addr, alive, structs, started)
    }

    ghost predicate Valid()
      reads this, tab, tab.Repr
    {
      tab.Valid() && this !in tab.Repr && S().Inv() && Roomy(S(), tab.qsize, tab.smax, forked)
    }

    // thread_bootstrap, after scheduler_bootstrap
    constructor (me: nat)
      ensures Valid() && fresh(tab.Repr) && fresh(tab) && S() == Started(me) && tab.qsize == 32 && tab.zmax == 0
    {
      tab := new Tables();
      curthread, numthreads, addr, alive, structs, started, forked := me, 1, map[me := 0], {me}, {me}, {me}, false;
      new;
      hide Sys.Inv;
      StartedKeeps(me);
    }

    // thread_fork; newguy is the structure that kmalloc returns, and a, z and
    // q say whether it succeeds for the sleepers, the zombies and the queue.
    method Fork(newguy: nat, a: bool, z: bool, q: bool) returns (err: Err)
      requires Valid() && curthread >= 0 && newguy !in structs
      modifies this, tab.Repr
      ensures Valid() && fresh(tab.Repr - old(tab.Repr))
      ensures tab.qsize >= old(tab.qsize) && (old(numthreads) < old(tab.qsize) ==> tab.qsize == old(tab.qsize))
      ensures S() == if err == OK then Born(old(S()), newguy) else old(S())
      ensures (err == OK ==> tab.zmax >= numthreads) && forked == (old(forked) || err == OK)
      ensures err == OK || err == ENOMEM
      ensures a && z && q ==> err == OK
    {
      hide Sys.Inv, Tables.Valid;
      CurrentAlive(S());
      err := tab.Preallocate(numthreads + 1, a, z, q);
      if err != OK {
        return;
      }
      BornKeeps(S(), newguy);
      err := tab.MakeRunnable(newguy, false);
      assert err == OK;
      numthreads := numthreads + 1;
      addr, structs, started := addr[newguy := 0], structs + {newguy}, started - {newguy};
      alive, forked := alive + {newguy}, true;
    }

    // With a thread current, all the sleepers fit in the run queue.
    lemma RoomToWake()
      requires Valid() && curthread >= 0
      ensures |tab.ready| + |tab.sleep| < tab.qsize
    {
      hide Sys.Inv, Tables.Valid;
      CurrentAlive(S());
    }

    // What the wakeup loops do with the sleeper at place i, having looked at
    // p of the sleepers of s.
    method Look(ghost s: Sys, a: nat, ghost p: nat, i: nat, ok: bool) returns (woke: bool)
      requires tab.Valid() && this !in tab.Repr && addr == s.addr && p <= |s.sleep|
      requires Scan(s, a, p, tab.ready, tab.sleep) && i == Passed(s, a, p) < |tab.sleep|
      requires ok || |tab.ready| + |tab.sleep| < tab.qsize
      modifies tab.Repr
      ensures tab.Valid() && fresh(tab.Repr - old(tab.Repr))
      ensures tab.zomb == old(tab.zomb) && tab.smax == old(tab.smax) && tab.zmax == old(tab.zmax)
      ensures p < |s.sleep| && woke == SleepsOn(s.addr, s.sleep[p], a)
      ensures Scan(s, a, p + 1, tab.ready, tab.sleep) && Passed(s, a, p + 1) == if woke then i else i + 1
      ensures |tab.ready| + |tab.sleep| == old(|tab.ready| + |tab.sleep|) && tab.qsize >= old(tab.qsize)
      ensures old(|tab.ready| + |tab.sleep|) < old(tab.qsize) ==> tab.qsize == old(tab.qsize)
    {
      hide Tables.Valid, Scan, Passed;
      ScanStep(s, a, p, tab.ready, tab.sleep);
      var t := tab.Sleeper(i);
      woke := t in addr && addr[t] == a;
      if woke {
        tab.Rouse(i, ok);
      }
    }

    // thread_wakeup
    method Wakeup(a: nat, ok: bool)
      requires Valid() && (ok || curthread >= 0)
      modifies this, tab.Repr
      ensures Valid() && fresh(tab.Repr - old(tab.Repr)) && S() == Woken(old(S()), a) && forked == old(forked)
      ensures tab.zmax == old(tab.zmax)
      ensures curthread >= 0 ==> tab.qsize == old(tab.qsize)
    {
      hide Sys.Inv, Tables.Valid, Scan, Passed, Woken, Roomy, Matching, Others;
      ghost var s, p := S(), 0;
      WokenKeeps(s, a);
      if curthread >= 0 { RoomToWake(); }
      ScanStart(s, a);
      var i := 0;
      var n := tab.NumSleepers();
      while i < n
        invariant tab.Valid() && this !in tab.Repr && fresh(tab.Repr - old(tab.Repr)) && unchanged(this)
        invariant p <= |s.sleep| && Scan(s, a, p, tab.ready, tab.sleep) && i == Passed(s, a, p) && n == |tab.sleep|
        invariant tab.zomb == s.zomb && tab.smax == old(tab.smax) && tab.qsize >= old(tab.qsize) &&
                  tab.zmax == old(tab.zmax)
        invariant curthread >= 0 ==> tab.qsize == old(tab.qsize) > |tab.ready| + |tab.sleep|
        decreases |s.sleep| - p
      {
        var woke := Look(s, a, p, i, ok);
        if !woke {
          i := i + 1;
        }
        p := p + 1;
        n := tab.NumSleepers();
      }
      ScanEnd(s, a, p, tab.ready, tab.sleep);
      StillRoomy(s, S(), old(tab.qsize), tab.qsize, tab.smax, forked);
    }

    // thread_wakeup_n
    method WakeupN(a: nat, count: int, ok: bool)
      requires Valid() && (ok || curthread >= 0)
      modifies this, tab.Repr
      ensures Valid() && fresh(tab.Repr - old(tab.Repr)) && S() == SomeWoken(old(S()), a, count) &&
              forked == old(forked)
      ensures curthread >= 0 ==> tab.qsize == old(tab.qsize)
    {
      hide Sys.Inv, Tables.Valid, Scan, Passed, SomeWoken, Reach, ReachFrom, Roomy, Matching, Others, Woken;
      ghost var s, p := S(), 0;
      SomeWokenKeeps(s, a, count);
      if curthread >= 0 { RoomToWake(); }
      ScanStart(s, a);
      var i: int := 0;
      var n := tab.NumSleepers();
      var done := false;
      while i < n && !done
        invariant tab.Valid() && this !in tab.Repr && fresh(tab.Repr - old(tab.Repr)) && unchanged(this)
        invariant p <= |s.sleep| && Scan(s, a, p, tab.ready, tab.sleep) && i == Passed(s, a, p) && n == |tab.sleep|
        invariant ReachFrom(s, a, count, 0) == if done then p else ReachFrom(s, a, count, p)
        invariant tab.zomb == s.zomb && tab.smax == old(tab.smax) && tab.qsize >= old(tab.qsize)
        invariant curthread >= 0 ==> tab.qsize == old(tab.qsize) > |tab.ready| + |tab.sleep|
        decreases |s.sleep| - p
      {
        var woke := Look(s, a, p, i, ok);
        ReachStep(s, a, count, p);
        if woke {
          i := i - 1;
          done := count - 1 == i;
        }
        i := i + 1;
        p := p + 1;
        n := tab.NumSleepers();
      }
      if !done {
        ScanEnd(s, a, p, tab.ready, tab.sleep);
        ReachStop(s, a, count, p);
      }
      ScanReach(s, a, count, p, tab.ready, tab.sleep);
      StillRoomy(s, S(), old(tab.qsize), tab.qsize, tab.smax, forked);
    }

    // exorcise
    method Exorcise()
      requires Valid()
      modifies this, tab.Repr
      ensures Valid() && fresh(tab.Repr - old(tab.Repr)) && S() == Exorcised(old(S())) && forked == old(forked)
      ensures tab.qsize == old(tab.qsize) && tab.zmax == Shrunk(old(tab.zmax))
    {
      hide Sys.Inv, Tables.Valid;
      ghost var s := S();
      ExorcisedKeeps(s);
      if curthread >= 0 { CurrentAlive(s); }
      var n := tab.NumZombies();
      for i := 0 to n
        invariant tab.Valid() && this !in tab.Repr && S() == s.(structs := structs) && n == |s.zomb| &&
                  tab.Repr == old(tab.Repr)
        invariant structs == s.structs - (set z | z in s.zomb[..i]) && forked == old(forked) && unchanged(tab)
      {
        var z := tab.Zombie(i);
        assert z != curthread;
        structs := structs - {z};
      }
      assert s.zomb[..n] == s.zomb;
      var result := tab.ClearZombies();
      assert result == OK;
    }

    // The idle loop of scheduler; irqs are the addresses that interrupts
    // wake meanwhile.
    method IdleLoop(irqs: seq<nat>) returns (any: bool)
      requires Valid() && curthread < 0
      modifies this, tab.Repr
      ensures Valid() && fresh(tab.Repr - old(tab.Repr)) && S() == Idle(old(S()), irqs) && forked == old(forked)
      ensures any == (tab.ready != []) && curthread < 0 && tab.zmax == old(tab.zmax)
    {
      hide Sys.Inv, Tables.Valid, Woken, Roomy;
      ghost var s := S();
      var k := 0;
      any := tab.AnyReady();
      while !any && k < |irqs|
        invariant Valid() && fresh(tab.Repr - old(tab.Repr)) && k <= |irqs| && any == (tab.ready != []) &&
                  forked == old(forked)
        invariant curthread < 0 && Idle(s, irqs) == Idle(S(), irqs[k..]) && tab.zmax == old(tab.zmax)
        decreases |irqs| - k
      {
        assert irqs[k..][0] == irqs[k] && irqs[k..][1..] == irqs[k + 1..];
        WokenKeeps(S(), irqs[k]);
        Wakeup(irqs[k], true);
        k := k + 1;
        any := tab.AnyReady();
      }
    }

    // The end of scheduler and of mi_switch.
    method Dispatch()
      requires Valid() && curthread < 0 && tab.ready != []
      modifies this, tab.Repr
      ensures Valid() && fresh(tab.Repr - old(tab.Repr)) && forked == old(forked) && curthread >= 0
      ensures S() == if old(tab.ready[0]) in old(started) then Exorcised(Dispatched(old(S()))) else Dispatched(old(S()))
      ensures tab.zmax == if old(tab.ready[0]) in old(started) then Shrunk(old(tab.zmax)) else old(tab.zmax)
    {
      hide Sys.Inv, Tables.Valid, Exorcised;
      DispatchedKeeps(S());
      ExorcisedKeeps(Dispatched(S()));
      var next := tab.NextReady();
      var came := next in started;
      curthread := next;
      addr, started := addr[next := 0], started + {next};
      if came {
        Exorcise();
      }
    }

    // scheduler and the rest of mi_switch, once the current thread is put
    // away. False if nothing is ready yet and the processor still idles.
    method Resume(irqs: seq<nat>) returns (runs: bool)
      requires Valid() && curthread < 0
      modifies this, tab.Repr
      ensures Valid() && fresh(tab.Repr - old(tab.Repr)) && S() == Resumed(old(S()), irqs) && forked == old(forked)
      ensures runs == (curthread >= 0) && tab.zmax == ZombieSlots(old(S()), irqs, old(tab.zmax))
    {
      hide Sys.Inv, Tables.Valid, Idle, Exorcised, Dispatched, Roomy, Shrunk;
      runs := IdleLoop(irqs);
      if runs {
        Dispatch();
      }
    }

    // The list the current thread is to go on has no room left.
    ghost predicate NoRoom(next: State)
      reads this, tab
    {
      match next
      case S_READY => |tab.ready| + 1 == tab.qsize
      case S_SLEEP => |tab.sleep| == tab.smax
      case S_ZOMB => |tab.zomb| == tab.zmax
    }

    // After the first fork there is always room to sleep.
    lemma RoomToSleep()
      requires Valid() && curthread >= 0 && forked
      ensures !NoRoom(S_SLEEP)
    {
      hide Sys.Inv;
      CurrentAlive(S());
    }

    // mi_switch. It panics, and nothing is promised of the system, exactly
    // if the list is full and no memory is to be had.
    method MiSwitch(next: State, a: nat, irqs: seq<nat>, ok: bool) returns (panic: bool, runs: bool)
      requires Valid() && curthread >= 0
      modifies this, tab.Repr
      ensures panic <==> !ok && old(NoRoom(next))
      ensures fresh(tab.Repr - old(tab.Repr)) && forked == old(forked)
      ensures !panic ==> Valid() && S() == Resumed(PutAway(old(S()), next, a), irqs) && runs == (curthread >= 0)
      ensures !panic && |old(tab.zomb)| < old(tab.zmax) ==>
                tab.zmax == ZombieSlots(PutAway(old(S()), next, a), irqs, old(tab.zmax))
    {
      hide Sys.Inv, Tables.Valid, Resumed, ZombieSlots;
      ghost var s := S();
      CurrentAlive(s);
      PutAwayKeeps(s, next, a);
      var cur, result := curthread, OK;
      curthread := -1;
      match next {
        case S_READY => result := tab.MakeRunnable(cur, ok);
        case S_SLEEP =>
          addr := addr[cur := a];
          result := tab.AddSleeper(cur, ok);
        case S_ZOMB =>
          numthreads, alive := numthreads - 1, alive - {cur};
          result := tab.AddZombie(cur, ok);
      }
      if result != OK {
        return true, false;
      }
      assert S() == PutAway(s, next, a);
      panic := false;
      runs := Resume(irqs);
    }

    // thread_yield, from a thread or from a timer interrupt
    method Yield(irqs: seq<nat>, ok: bool) returns (panic: bool, runs: bool)
      requires Valid()
      modifies this, tab.Repr
      ensures panic <==> !ok && old(curthread) >= 0 && old(NoRoom(S_READY))
      ensures fresh(tab.Repr - old(tab.Repr)) && forked == old(forked) &&
              (!panic ==> Valid() && runs == (curthread >= 0))
      ensures !panic ==> S() == if old(curthread) < 0 then old(S()) else Resumed(ToReady(old(S())), irqs)
      ensures !panic && old(curthread) >= 0 && |old(tab.zomb)| < old(tab.zmax) ==>
                tab.zmax == ZombieSlots(ToReady(old(S())), irqs, old(tab.zmax))
    {
      hide Sys.Inv, Tables.Valid, Resumed, ZombieSlots;
      panic, runs := false, false;
      if curthread >= 0 {
        panic, runs := MiSwitch(S_READY, 0, irqs, ok);
      }
    }

    // thread_sleep: after the first fork no memory is needed.
    method Sleep(a: nat, irqs: seq<nat>, ok: bool) returns (panic: bool, runs: bool)
      requires Valid() && curthread >= 0
      modifies this, tab.Repr
      ensures panic <==> !ok && old(NoRoom(S_SLEEP))
      ensures panic ==> !forked
      ensures fresh(tab.Repr - old(tab.Repr)) && forked == old(forked) &&
              (!panic ==> Valid() && runs == (curthread >= 0))
      ensures !panic ==> S() == Resumed(ToSleep(old(S()), a), irqs)
    {
      hide Sys.Inv, Tables.Valid, Resumed, Roomy, NoRoom;
      if forked { RoomToSleep(); }
      panic, runs := MiSwitch(S_SLEEP, a, irqs, ok);
    }

    // thread_exit
    method Exit(irqs: seq<nat>, ok: bool) returns (panic: bool, runs: bool)
      requires Valid() && curthread >= 0
      modifies this, tab.Repr
      ensures panic <==> !ok && old(NoRoom(S_ZOMB))
      ensures fresh(tab.Repr - old(tab.Repr)) && forked == old(forked) &&
              (!panic ==> Valid() && runs == (curthread >= 0))
      ensures !panic ==> curthread != old(curthread) && S() == Resumed(PutAway(old(S()), S_ZOMB, 0), irqs)
      ensures !panic && |old(tab.zomb)| < old(tab.zmax) ==>
                old(numthreads) > 0 && tab.zmax == ZombieSlots(ToGrave(old(S())), irqs, old(tab.zmax))
    {
      hide Sys.Inv, Tables.Valid, Resumed, ZombieSlots;
      CurrentAlive(S());
      NobodyBackFromTheDead(S(), irqs);
      panic, runs := MiSwitch(S_ZOMB, 0, irqs, ok);
    }
  }

  // How many slots for zombies are left of z when scheduler and the rest of
  // mi_switch are done: a thread that comes back exorcises.
  ghost function ZombieSlots(s: Sys, irqs: seq<nat>, z: nat): nat {
    var i := Idle(s, irqs);
    if i.ready != [] && i.ready[0] in i.started then Shrunk(z) else z
  }

  // Preallocation does not cover yielding: a boot thread that forks 31 others
  // has a run queue of 32 slots in which its own return would be one too many.
  method FullHouse() returns (sys: System)
    ensures sys.Valid() && sys.curthread >= 0 && sys.numthreads == 32 == sys.tab.qsize
    ensures fresh(sys) && fresh(sys.tab.Repr) && sys.NoRoom(S_READY)
  {
    hide Sys.Inv, Tables.Valid, Roomy;
    sys := new System(0);
    for i := 1 to 32
      invariant sys.Valid() && fresh(sys) && fresh(sys.tab.Repr) && sys.curthread == 0 && sys.numthreads == i
      invariant sys.tab.qsize == 32 && |sys.tab.ready| == i - 1 && forall t :: t in sys.structs ==> t < i
    {
      var _ := sys.Fork(i, true, true, true);
    }
  }

  // So there a yield without memory panics.
  method FullHousePanics(irqs: seq<nat>) returns (panic: bool)
    ensures panic
  {
    hide Sys.Inv, Tables.Valid, Roomy, Resumed;
    var sys := FullHouse();
    var runs;
    panic, runs := sys.Yield(irqs, false);
  }

  // Nor does it cover exiting. A boot thread forks 16 others, for which the
  // zombies get 17 slots or more; they exit one after another; the boot
  // thread runs again and exorcises, which gives the slots back.

  function Upto(lo: nat, hi: nat): seq<nat>
    requires lo <= hi
  {
    seq(hi - lo, i => lo + i)
  }

  method Crowd() returns (sys: System)
    ensures sys.Valid() && fresh(sys) && fresh(sys.tab.Repr) && sys.forked && sys.curthread == 0 && sys.started == {0}
    ensures sys.tab.ready == Upto(1, 17) && sys.tab.sleep == [] && sys.tab.zomb == [] && sys.tab.zmax >= 17
  {
    hide Sys.Inv, Tables.Valid, Roomy;
    sys := new System(0);
    for i := 1 to 17
      invariant sys.Valid() && fresh(sys) && fresh(sys.tab.Repr) && sys.curthread == 0 && sys.numthreads == i
      invariant sys.tab.ready == Upto(1, i) && sys.tab.sleep == [] && sys.tab.zomb == [] && sys.started == {0}
      invariant (forall t :: t in sys.structs ==> t < i) && (i > 1 ==> sys.forked && sys.tab.zmax >= i)
    {
      var _ := sys.Fork(i, true, true, true);
      assert Upto(1, i) + [i] == Upto(1, i + 1);
    }
  }

  // Thread i runs, those after it have not run yet, and those before it are
  // zombies.
  ghost predicate Marching(s: Sys, i: nat) {
    && i <= 16 && s.cur == i && s.ready == Upto(i + 1, 17) + [0] && |s.zomb| < i && s.num > 0
    && 0 in s.started && forall t :: t in s.started ==> t <= i
  }

  lemma MarchStarts(s: Sys, z: nat)
    requires s.cur == 0 && s.ready == Upto(1, 17) && s.zomb == [] && s.started == {0} && s.num > 0
    ensures Marching(Resumed(ToReady(s), []), 1) && ZombieSlots(ToReady(s), [], z) == z
  {
    assert (Upto(1, 17) + [0])[1..] == Upto(2, 17) + [0];
  }

  lemma MarchGoesOn(s: Sys, i: nat, z: nat)
    requires Marching(s, i) && s.num > 1
    ensures i < 16 ==> Marching(Resumed(ToGrave(s), []), i + 1) && ZombieSlots(ToGrave(s), [], z) == z
    ensures i == 16 ==> var s' := Resumed(ToGrave(s), []);
                        s'.cur == 0 && s'.zomb == [] && ZombieSlots(ToGrave(s), [], z) == Shrunk(z)
  {
    if i < 16 {
      assert (Upto(i + 1, 17) + [0])[1..] == Upto(i + 2, 17) + [0];
    } else {
      assert Upto(17, 17) + [0] == [0];
    }
  }

  // The boot thread and those that wait behind it are alive.
  lemma MarchCount(s: Sys, i: nat)
    requires s.Inv() && Marching(s, i)
    ensures s.num > 1
  {
    OnePlaceEach(s);
  }

  method GravesGone() returns (sys: System)
    ensures sys.Valid() && fresh(sys) && fresh(sys.tab.Repr) && sys.forked && sys.curthread == 0 && sys.NoRoom(S_ZOMB)
  {
    hide Sys.Inv, Tables.Valid, Roomy, Resumed, Marching, ZombieSlots;
    sys := Crowd();
    ghost var z := sys.tab.zmax;
    CurrentAlive(sys.S());
    MarchStarts(sys.S(), z);
    var panic, runs := sys.Yield([], true);
    for i := 1 to 16
      invariant sys.Valid() && fresh(sys) && fresh(sys.tab.Repr) && sys.forked && Marching(sys.S(), i) &&
                sys.tab.zmax == z
    {
      MarchFacts(sys.S(), i);
      MarchCount(sys.S(), i);
      MarchGoesOn(sys.S(), i, z);
      panic, runs := sys.Exit([], false);
    }
    MarchFacts(sys.S(), 16);
    MarchCount(sys.S(), 16);
    MarchGoesOn(sys.S(), 16, z);
    panic, runs := sys.Exit([], false);
  }

  lemma MarchFacts(s: Sys, i: nat)
    requires Marching(s, i)
    ensures s.cur >= 0 && |s.zomb| < 17 && s.num > 0
  {}

  // So there an exit without memory panics, forks or no forks.
  method GravesGonePanics(irqs: seq<nat>) returns (panic: bool)
    ensures panic
  {
    hide Sys.Inv, Tables.Valid, Roomy, Resumed, ZombieSlots;
    var sys := GravesGone();
    var runs;
    panic, runs := sys.Exit(irqs, false);
  }

  // ---------- any run ----------

  // Each event says what memory and the devices do meanwhile.
  datatype Event =
    | DoFork(t: nat, sleepOk: bool, zombOk: bool, queueOk: bool)
    | DoYield(irqs: seq<nat>, ok: bool)
    | DoSleep(a: nat, irqs: seq<nat>, ok: bool)
    | DoExit(irqs: seq<nat>, ok: bool)
    | DoWakeup(a: nat)
    | DoWakeupN(a: nat, n: int)
    | DoIdle(irqs: seq<nat>)

  // The threads an event can bring to life.
  function Forks(e: Event): set<nat> {
    if e.DoFork? then {e.t} else {}
  }

  predicate MayPanic(e: Event) {
    (e.DoYield? || e.DoSleep? || e.DoExit?) && !e.ok
  }

  // What an event does to the thread system, when nothing panics. Only a
  // fork may or may not happen, as memory allows.
  ghost predicate Follows(s: Sys, e: Event, s': Sys) {
    match e
    case DoFork(t, a, z, q) =>
      var can := s.cur >= 0 && t !in s.structs;
      (s' == s && !(can && a && z && q)) || (can && s' == Born(s, t))
    case DoYield(irqs, _) => s' == if s.cur < 0 then s else Resumed(ToReady(s), irqs)
    case DoSleep(a, irqs, _) => s' == if s.cur < 0 then s else Resumed(ToSleep(s, a), irqs)
    case DoExit(irqs, _) => s' == if s.cur < 0 || s.num == 0 then s else Resumed(ToGrave(s), irqs)
    case DoWakeup(a) => s' == Woken(s, a)
    case DoWakeupN(a, n) => s' == SomeWoken(s, a, n)
    case DoIdle(irqs) => s' == if s.cur >= 0 then s else Resumed(s, irqs)
  }

  // One event
  method Step(sys: System, e: Event) returns (panic: bool)
    requires sys.Valid()
    modifies sys, sys.tab.Repr
    ensures fresh(sys.tab.Repr - old(sys.tab.Repr))
    ensures !panic ==> sys.Valid() && Follows(old(sys.S()), e, sys.S())
    ensures panic ==> MayPanic(e)
  {
    hide Sys.Inv, Tables.Valid, Roomy, Resumed, Woken, SomeWoken;
    panic := false;
    match e {
      case DoFork(t, a, z, q) =>
        if sys.curthread >= 0 && t !in sys.structs {
          var _ := sys.Fork(t, a, z, q);
        }
      case DoYield(irqs, ok) =>
        var runs;
        panic, runs := sys.Yield(irqs, ok);
      case DoSleep(a, irqs, ok) =>
        if sys.curthread >= 0 {
          var runs;
          panic, runs := sys.Sleep(a, irqs, ok);
        }
      case DoExit(irqs, ok) =>
        if sys.curthread >= 0 {
          CurrentAlive(sys.S());
          var runs;
          panic, runs := sys.Exit(irqs, ok);
        }
      case DoWakeup(a) => sys.Wakeup(a, true);
      case DoWakeupN(a, n) => sys.WakeupN(a, n, true);
      case DoIdle(irqs) =>
        if sys.curthread < 0 {
          var _ := sys.Resume(irqs);
        }
    }
  }

  lemma StillRoomy(s: Sys, s': Sys, qsize: nat, qsize': nat, smax: nat, forked: bool)
    requires Roomy(s, qsize, smax, forked) && s'.num == s.num && qsize' >= qsize
    ensures Roomy(s', qsize', smax, forked)
  {}

  // trace[k] is the system before event k.
  ghost predicate IsTrace(trace: seq<Sys>, events: seq<Event>) {
    0 < |trace| <= |events| + 1 && forall k :: 0 <= k < |trace| - 1 ==> FollowsAt(trace, events, k)
  }

  ghost predicate FollowsAt(trace: seq<Sys>, events: seq<Event>, k: nat)
    requires k + 1 < |trace| && k < |events|
  {
    Follows(trace[k], events[k], trace[k + 1])
  }

  // Whatever threads and devices do, in any order, the system goes from each
  // state to the next as Follows says, unless it panics, and threads are
  // conserved.
  method Run(sys: System, events: seq<Event>) returns (panic: bool, ghost trace: seq<Sys>)
    requires sys.Valid()
    modifies sys, sys.tab.Repr
    ensures IsTrace(trace, events) && trace[0] == old(sys.S())
    ensures !panic ==> sys.Valid() && |trace| == |events| + 1 && trace[|events|] == sys.S()
    ensures panic ==> |trace| <= |events| && MayPanic(events[|trace| - 1])
    ensures forall j, t: nat :: 0 <= j < |trace| && trace[j].cur == t ==>
              t in old(sys.alive) || ForkedIn(events, 0, j, t)
  {
    hide Sys.Inv, Tables.Valid, Roomy, Follows, ForkedIn;
    var k := 0;
    panic, trace := false, [sys.S()];
    assert trace[0].Inv();
    while k < |events|
      invariant sys.Valid() && fresh(sys.tab.Repr - old(sys.tab.Repr)) && !panic
      invariant k <= |events| && |trace| == k + 1 && trace[0] == old(sys.S()) && trace[k] == sys.S()
      invariant forall j :: 0 <= j < k ==> FollowsAt(trace, events, j)
    {
      panic := Step(sys, events[k]);
      if panic {
        break;
      }
      ghost var trace0 := trace;
      trace := trace + [sys.S()];
      assert forall j :: 0 <= j < k ==> FollowsAt(trace0, events, j) ==> FollowsAt(trace, events, j);
      k := k + 1;
    }
    forall j, t: nat | 0 <= j < |trace| && trace[j].cur == t
      ensures t in old(sys.alive) || ForkedIn(events, 0, j, t)
    {
      AliveOrForked(trace, events, 0, j, t);
    }
  }

  // ---------- what holds over a run ----------

  lemma FollowsKeeps(s: Sys, e: Event, s': Sys)
    requires s.Inv() && Follows(s, e, s')
    ensures s'.Inv() && s'.alive <= s.alive + Forks(e)
    ensures e.DoExit? && s.cur >= 0 ==> s'.alive == s.alive - {s.cur}
  {
    hide Sys.Inv, Resumed, Woken, SomeWoken;
    match e {
      case DoFork(t, _, _, _) =>
        if s' != s { BornKeeps(s, t); }
      case DoYield(irqs, _) =>
        if s.cur >= 0 {
          ToReadyKeeps(s);
          ResumedKeeps(ToReady(s), irqs);
        }
      case DoSleep(a, irqs, _) =>
        if s.cur >= 0 {
          ToSleepKeeps(s, a);
          ResumedKeeps(ToSleep(s, a), irqs);
        }
      case DoExit(irqs, _) =>
        if s.cur >= 0 {
          ToGraveKeeps(s);
          ResumedKeeps(ToGrave(s), irqs);
        }
      case DoWakeup(a) =>
        WokenKeeps(s, a);
        WokenAlive(s, a, 0);
      case DoWakeupN(a, n) =>
        SomeWokenKeeps(s, a, n);
        WokenAlive(s, a, n);
      case DoIdle(irqs) =>
        if s.cur < 0 { ResumedKeeps(s, irqs); }
    }
  }

  lemma WokenAlive(s: Sys, a: nat, n: int)
    ensures Woken(s, a).alive == s.alive && SomeWoken(s, a, n).alive == s.alive
  {}

  // Some event from i up to j forks t.
  predicate ForkedIn(events: seq<Event>, i: nat, j: nat, t: nat) {
    exists k :: i <= k < j && k < |events| && t in Forks(events[k])
  }

  // Every state of a run is in order, and who is alive in it was alive at the
  // start or has been forked since. What runs is alive.
  lemma {:induction false} AliveOrForked(trace: seq<Sys>, events: seq<Event>, i: nat, j: nat, t: nat)
    requires IsTrace(trace, events) && i <= j < |trace| && trace[i].Inv()
    ensures trace[j].Inv()
    ensures t in trace[j].alive ==> t in trace[i].alive || ForkedIn(events, i, j, t)
    ensures trace[j].cur == t ==> t in trace[j].alive
    decreases j
  {
    hide Sys.Inv, Follows;
    if i < j {
      AliveOrForked(trace, events, i, j - 1, t);
      assert FollowsAt(trace, events, j - 1);
      FollowsKeeps(trace[j - 1], events[j - 1], trace[j]);
    }
    if trace[j].cur >= 0 { CurrentAlive(trace[j]); }
  }

  // A thread that exits in a run does not run again, nor is it alive, until
  // its structure is forked anew.
  lemma NeverRunsAgain(trace: seq<Sys>, events: seq<Event>, i: nat, j: nat, t: nat)
    requires IsTrace(trace, events) && trace[0].Inv() && i < j < |trace|
    requires events[i].DoExit? && trace[i].cur == t && !ForkedIn(events, i, j, t)
    ensures trace[j].cur != t && t !in trace[j].alive
  {
    hide Sys.Inv, Follows;
    AliveOrForked(trace, events, 0, i, t);
    assert FollowsAt(trace, events, i);
    FollowsKeeps(trace[i], events[i], trace[i + 1]);
    AliveOrForked(trace, events, i + 1, j, t);
  }

  // ---------- the walk over the sleepers ----------

  // After p of the sleepers of s have been looked at.
  ghost predicate Scan(s: Sys, a: nat, p: nat, ready: seq<nat>, sleep: seq<nat>) {
    && p <= |s.sleep|
    && sleep == Others(s.sleep[..p], s.addr, a) + s.sleep[p..]
    && ready == s.ready + Matching(s.sleep[..p], s.addr, a)
    && |ready| + |sleep| == |s.ready| + |s.sleep|
  }

  ghost function Passed(s: Sys, a: nat, p: nat): nat
    requires p <= |s.sleep|
  {
    |Others(s.sleep[..p], s.addr, a)|
  }

  ghost function ReachFrom(s: Sys, a: nat, n: int, p: nat): nat
    requires p <= |s.sleep|
  {
    Reach(s.sleep, s.addr, a, n, p)
  }

  lemma ScanStart(s: Sys, a: nat)
    ensures Scan(s, a, 0, s.ready, s.sleep) && Passed(s, a, 0) == 0
  {
    assert s.sleep[..0] == [] && s.sleep[0..] == s.sleep;
  }

  lemma ScanStep(s: Sys, a: nat, p: nat, ready: seq<nat>, sleep: seq<nat>)
    requires p <= |s.sleep| && Scan(s, a, p, ready, sleep) && Passed(s, a, p) < |sleep|
    ensures p < |s.sleep| && sleep[Passed(s, a, p)] == s.sleep[p] && |ready| + |sleep| == |s.ready| + |s.sleep|
    ensures var i := Passed(s, a, p);
            if SleepsOn(s.addr, s.sleep[p], a)
            then Scan(s, a, p + 1, ready + [s.sleep[p]], sleep[..i] + sleep[i + 1..]) && Passed(s, a, p + 1) == i
            else Scan(s, a, p + 1, ready, sleep) && Passed(s, a, p + 1) == i + 1
  {
    hide Matching, Others;
    StepSplits(s.sleep, s.addr, a, p);
    Following(Others(s.sleep[..p], s.addr, a), s.sleep, p);
  }

  // Where the sleeper looked at stands in the table.
  lemma Following(o: seq<nat>, s: seq<nat>, p: nat)
    requires p < |s|
    ensures (o + s[p..])[|o|] == s[p]
    ensures (o + s[p..])[..|o|] + (o + s[p..])[|o| + 1..] == o + s[p + 1..]
    ensures o + s[p..] == o + [s[p]] + s[p + 1..]
  {}

  lemma ScanEnd(s: Sys, a: nat, p: nat, ready: seq<nat>, sleep: seq<nat>)
    requires p <= |s.sleep| && Scan(s, a, p, ready, sleep) && Passed(s, a, p) >= |sleep|
    ensures p == |s.sleep| && Woken(s, a) == s.(ready := ready, sleep := sleep)
  {
    hide Matching, Others;
    assert s.sleep[..p] == s.sleep && s.sleep[p..] == [];
    assert Others(s.sleep, s.addr, a) + [] == Others(s.sleep, s.addr, a);
  }

  lemma ReachStep(s: Sys, a: nat, n: int, p: nat)
    requires p < |s.sleep|
    ensures ReachFrom(s, a, n, p) == if SleepsOn(s.addr, s.sleep[p], a) &&
            Passed(s, a, p) == n then p + 1 else ReachFrom(s, a, n, p + 1)
  {}

  lemma ReachStop(s: Sys, a: nat, n: int, p: nat)
    requires p == |s.sleep|
    ensures ReachFrom(s, a, n, p) == p
  {}

  lemma ScanReach(s: Sys, a: nat, n: int, p: nat, ready: seq<nat>, sleep: seq<nat>)
    requires Scan(s, a, p, ready, sleep) && ReachFrom(s, a, n, 0) == p
    ensures SomeWoken(s, a, n) == s.(ready := ready, sleep := sleep)
  {
    hide Matching, Others, Reach;
  }
}
