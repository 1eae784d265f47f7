/**
 The process table of kern/syscalls/process.c and the calls that use it:
 fork, _exit and waitpid. Process structures are named by numbers, -1 being
 the null pointer; a structure that has been freed is no longer in procs, so
 that following a stale pointer would be an error here. Each table operation
 is one step, and a call that blocks is a step up to there and one from there.
 */
module ProcTable {
  import opened Errno

  const MIN_PROCESS := 1
  const MAX_PROCESS := 100

  datatype Proc = Proc(pid: nat, code: int, exit: bool, parent: int)
  type Procs = map<int, Proc>

  // How far a fork is: the parent is blocked until its child is set up.
  datatype Fork = Asked | Added(child: int) | Adopted(child: int)

  // Every structure sits at the index that is its PID, and nowhere else.
  ghost predicate Indexed(table: seq<int>, procs: Procs) {
    && |table| == MAX_PROCESS
    && (forall i :: MIN_PROCESS <= i < MAX_PROCESS && table[i] != -1 ==> table[i] in procs && procs[table[i]].pid == i)
    && (forall p :: p in procs ==> p >= 0 && MIN_PROCESS <= procs[p].pid < MAX_PROCESS && table[procs[p].pid] == p)
  }

  // A parent is a structure that is still there and has not exited.
  ghost predicate Parented(procs: Procs) {
    forall p :: p in procs && procs[p].parent != -1 ==>
      procs[p].parent in procs && !procs[procs[p].parent].exit && procs[p].parent != p
  }

  // Who runs, who is blocked in waitpid for whom, and who is forking.
  ghost predicate Scheduled(procs: Procs, running: set<int>, waiting: map<int, int>, forking: map<int, Fork>) {
    && (forall p :: p in running ==> p in procs && !procs[p].exit)
    && (forall p :: p in waiting ==>
         p in running && p !in forking && waiting[p] in procs && procs[waiting[p]].parent == p)
    && (forall p :: p in forking ==> p in running)
    && (forall p :: p in forking && !forking[p].Asked? ==> Unborn(procs, running, p, forking[p]))
    && (forall p, q :: p in forking && q in forking && p != q && !forking[p].Asked? && !forking[q].Asked? ==>
         forking[p].child != forking[q].child)
  }

  // The child of a fork under way.
  ghost predicate Unborn(procs: Procs, running: set<int>, p: int, f: Fork)
    requires !f.Asked?
  {
    && f.child in procs && f.child >= 0 && !procs[f.child].exit && f.child !in running
    && procs[f.child].parent == (if f.Added? then -1 else p)
    && forall q :: q in procs ==> procs[q].parent != f.child
  }

  // Parents are older than their children. born counts the processes made
  // before each, and clock all of them.
  ghost predicate Ordered(procs: Procs, forking: map<int, Fork>, born: map<int, nat>, clock: nat) {
    && (forall p :: p in procs ==> p in born && born[p] < clock)
    && (forall p :: p in procs && procs[p].parent != -1 && procs[p].parent in procs ==> born[procs[p].parent] < born[p])
    && (forall p :: p in forking && p in procs && !forking[p].Asked? && forking[p].child in procs ==>
          born[p] < born[forking[p].child])
  }

  // A process with a parent runs, has exited or is about to start.
  ghost predicate Settled(procs: Procs, running: set<int>, forking: map<int, Fork>) {
    forall p :: p in procs && p !in running && !procs[p].exit && procs[p].parent != -1 ==>
      procs[p].parent in forking && forking[procs[p].parent] == Adopted(p)
  }

  // What each process that has exited said.
  ghost predicate Said(procs: Procs, said: map<int, int>) {
    && (forall p :: p in said <==> p in procs && procs[p].exit)
    && (forall p :: p in said ==> procs[p].code == said[p])
  }

  // The slot search may take a slot that is empty or whose process has exited
  // with nobody left to wait for it.
  predicate Reclaimable(procs: Procs, p: int) {
    p in procs && procs[p].exit && procs[p].parent == -1
  }

  class Table {
    const proctable: array<int>
    var procs: Procs
    var running: set<int>          // processes whose thread has not exited
    var waiting: map<int, int>
    var forking: map<int, Fork>
    ghost var said: map<int, int>
    ghost var born: map<int, nat>
    ghost var clock: nat

    ghost predicate Valid()
      reads this, proctable
    {
      Sound() && Settled(procs, running, forking)
    }

    // Valid but for a child that is being set up or taken down.
    ghost predicate Sound()
      reads this, proctable
    {
      && proctable.Length == MAX_PROCESS && Indexed(proctable[..], procs) && Parented(procs)
      && Scheduled(procs, running, waiting, forking) && Said(procs, said) && Ordered(procs, forking, born, clock)
    }

    // proctable_init
    constructor ()
      ensures Valid() && fresh(proctable) && procs == map[] && running == {} && waiting == map[] && forking == map[]
    {
      proctable := new int[MAX_PROCESS](_ => -1);
      procs, running, waiting, forking, said := map[], {}, map[], map[], map[];
      born, clock := map[], 0;
    }

    // remove_process
    method Remove(pid: nat)
      requires Sound() && MIN_PROCESS <= pid < MAX_PROCESS && proctable[pid] in procs
      requires Removable(procs, running, waiting, forking, proctable[pid])
      modifies this, proctable
      ensures Sound() && proctable[..] == old(proctable[..])[pid := -1] && procs == old(procs) - {old(proctable[pid])}
      ensures running == old(running) && waiting == old(waiting) && forking == old(forking) &&
              said == old(said) - {old(proctable[pid])}
      ensures born == old(born) && clock == old(clock)
    {
      hide Indexed, Parented, Scheduled, Said, Removable, Ordered;
      RemoveOrdered(procs, forking, born, clock, proctable[pid]);
      var kill := proctable[pid];
      RemoveKeeps(proctable[..], procs, running, waiting, forking, said, pid);
      ghost var table0 := proctable[..];
      procs, said := procs - {kill}, said - {kill};
      proctable[pid] := -1;
      assert proctable[..] == table0[pid := -1];
    }

    // The slot search of add_process_new and add_process_child: the first
    // slot that is empty or can be reclaimed, emptied; or 0.
    method FindSlot() returns (pid: nat)
      requires Valid()
      modifies this, proctable
      ensures Valid() && pid < MAX_PROCESS && running == old(running) && waiting == old(waiting) &&
              forking == old(forking)
      ensures forall i :: MIN_PROCESS <= i < (if pid == 0 then MAX_PROCESS else pid) ==>
                Taken(old(procs), old(proctable[i]))
      ensures pid == 0 ==> unchanged(this) && unchanged(proctable)
      ensures pid != 0 ==> !Taken(old(procs), old(proctable[pid])) && proctable[..] == old(proctable[..])[pid := -1]
      ensures procs == if pid == 0 then old(procs) else old(procs) - {old(proctable[pid])}
      ensures said == if pid == 0 then old(said) else old(said) - {old(proctable[pid])}
      ensures born == old(born) && clock == old(clock)
    {
      hide Scheduled, Said, Removable, Ordered, Settled;
      for i := MIN_PROCESS to MAX_PROCESS
        invariant unchanged(this) && unchanged(proctable) && Valid()
        invariant forall j :: MIN_PROCESS <= j < i ==> Taken(procs, proctable[j])
      {
        var p := proctable[i];
        if p == -1 {
          assert procs - {-1} == procs && proctable[..][i := -1] == proctable[..];
          assert said - {-1} == said by { NotNull(procs, said); }
          return i;
        } else if (procs[p].exit && procs[p].parent == -1) || (procs[p].exit && procs[procs[p].parent].exit) {
          ReclaimRemovable(procs, running, waiting, forking, p);
          RemoveSettled(procs, running, forking, p);
          Remove(procs[p].pid);
          return i;
        }
      }
      return 0;
    }

    // add_process_new and add_process_child with no parent; who is what
    // kmalloc returns.
    method Add(who: nat) returns (pid: nat)
      requires Valid() && who !in procs
      modifies this, proctable
      ensures Valid() && pid < MAX_PROCESS && running == old(running) && waiting == old(waiting) &&
              forking == old(forking)
      ensures pid == 0 ==> unchanged(this) && unchanged(proctable)
      ensures forall i :: MIN_PROCESS <= i < (if pid == 0 then MAX_PROCESS else pid) ==>
                Taken(old(procs), old(proctable[i]))
      ensures pid != 0 ==> !Taken(old(procs), old(proctable[pid])) && proctable[..] == old(proctable[..])[pid := who]
      ensures pid != 0 ==> procs == (old(procs) - {old(proctable[pid])})[who := Proc(pid, 0, false, -1)]
      ensures forall c :: c in old(procs) && !Reclaimable(old(procs), c) ==> c in procs && procs[c] == old(procs)[c]
      ensures born == (if pid == 0 then old(born) else old(born)[who := old(clock)])
      ensures clock == (if pid == 0 then old(clock) else old(clock) + 1)
      ensures forall c :: c in running ==> c in procs && c != who && !Reclaimable(old(procs), c)
      ensures who !in running && forall q :: q in forking && !forking[q].Asked? ==> forking[q].child != who
      ensures pid != 0 ==> forall q :: q in procs ==> procs[q].parent != who
    {
      hide Scheduled, Said, Parented, Indexed, Ordered, Settled;
      ghost var procs0, running0, table0 := procs, running, proctable[..];
      pid := FindSlot();
      SlotSpares(procs0, running0, table0, pid, waiting, forking);
      if pid != 0 {
        AddKeeps(proctable[..], procs, running, waiting, forking, said, pid, who);
        AddOrdered(procs, forking, born, clock, pid, who);
        AddSettled(procs, running, forking, pid, who);
        born, clock := born[who := clock], clock + 1;
        procs := procs[who := Proc(pid, 0, false, -1)];
        proctable[pid] := who;
        assert proctable[..] == table0[pid := who];
      }
    }

    // A program started from the menu: a process without a parent.
    method Start(who: nat) returns (pid: nat)
      requires Valid() && who !in procs
      modifies this, proctable
      ensures Valid() && pid < MAX_PROCESS && waiting == old(waiting) && forking == old(forking)
      ensures pid == 0 ==> unchanged(this) && unchanged(proctable)
      ensures forall i :: MIN_PROCESS <= i < (if pid == 0 then MAX_PROCESS else pid) ==>
                Taken(old(procs), old(proctable[i]))
      ensures pid != 0 ==> !Taken(old(procs), old(proctable[pid])) && proctable[..] == old(proctable[..])[pid := who]
      ensures pid != 0 ==> procs == (old(procs) - {old(proctable[pid])})[who := Proc(pid, 0, false, -1)]
      ensures pid != 0 ==> running == old(running) + {who}
      ensures forall c :: c in old(procs) && !Reclaimable(old(procs), c) ==> c in procs && procs[c] == old(procs)[c]
    {
      hide Indexed, Parented, Said, Taken, Scheduled, Ordered;
      pid := Add(who);
      if pid != 0 {
        StartKeeps(procs, running, waiting, forking, who);
        running := running + {who};
      }
    }

    // sys_fork up to where the parent waits for its child.
    method ForkAsk(p: int)
      requires Valid() && Free(p)
      modifies this
      ensures Valid() && forking == old(forking)[p := Asked] && procs == old(procs) && running == old(running) &&
              waiting == old(waiting)
      ensures born == old(born) && said == old(said)
    {
      hide Indexed, Parented, Said;
      forking := forking[p := Asked];
    }

    // md_forkentry without memory for the child's address space; ret is what
    // fork then returns in the parent.
    method ForkNoMemory(p: int) returns (ret: int)
      requires Valid() && p in forking && forking[p] == Asked
      modifies this
      ensures Valid() && forking == old(forking) - {p} && procs == old(procs) && running == old(running) &&
              waiting == old(waiting)
      ensures ret == ForkReturn(Number(ENOMEM)) && born == old(born)
    {
      hide Indexed, Parented, Said;
      forking := forking - {p};
      ret := ForkReturn(Number(ENOMEM));
    }

    // md_forkentry, in the child: take a slot. Without one the fork is over,
    // and ret is what it returns in the parent.
    method ForkAdd(p: int, who: nat) returns (ok: bool, ret: int)
      requires Valid() && p in forking && forking[p] == Asked && who !in procs
      modifies this, proctable
      ensures Valid() && running == old(running) && waiting == old(waiting) && ok == (p in forking)
      ensures forking == if ok then old(forking)[p := Added(who)] else old(forking) - {p}
      ensures ok ==> who in procs && MIN_PROCESS <= procs[who].pid < MAX_PROCESS &&
                     procs[who] == Proc(procs[who].pid, 0, false, -1)
      ensures ok ==> var i := procs[who].pid;
                     !Taken(old(procs), old(proctable[..])[i]) &&
                     procs == (old(procs) - {old(proctable[..])[i]})[who := Proc(i, 0, false, -1)]
      ensures ok ==> forall i :: MIN_PROCESS <= i < procs[who].pid ==> Taken(old(procs), old(proctable[i]))
      ensures !ok ==> procs == old(procs) && proctable[..] == old(proctable[..])
      ensures !ok <==> forall i :: MIN_PROCESS <= i < MAX_PROCESS ==> Taken(old(procs), old(proctable[i]))
      ensures !ok ==> ret == ForkReturn(Number(EAGAIN)) && born == old(born)
      ensures forall c :: c in old(procs) && !Reclaimable(old(procs), c) ==> c in procs && procs[c] == old(procs)[c]
      ensures forall c :: c in procs ==> c == who || c in old(procs)
      ensures ok ==> born == old(born)[who := old(clock)]
    {
      hide Indexed, Parented, Said, Taken, Scheduled, Ordered, Settled;
      ret := 0;
      AskedRuns(procs, running, waiting, forking, p);
      AskedEnds(procs, running, waiting, forking, born, clock, p);
      var pid := Add(who);
      if pid == 0 {
        forking := forking - {p};
        return false, ForkReturn(Number(EAGAIN));
      }
      AddedKeeps(procs, running, waiting, forking, p, who);
      AddedOrdered(procs, running, forking, born, clock, p, who);
      forking := forking[p := Added(who)];
      ok := true;
    }

    // md_forkentry: the child gets its parent.
    method ForkAdopt(p: int)
      requires Valid() && p in forking && forking[p].Added?
      modifies this
      ensures Valid() && running == old(running) && waiting == old(waiting) && born == old(born)
      ensures var c := old(forking[p].child);
              && forking == old(forking)[p := Adopted(c)] && c in old(procs) &&
                 procs == old(procs)[c := old(procs)[c].(parent := p)]
    {
      hide Indexed, Parented, Scheduled, Said, Ordered, Settled;
      AdoptKeeps(proctable[..], procs, running, waiting, forking, said, p);
      AdoptOrdered(procs, running, waiting, forking, born, clock, p);
      var c := forking[p].child;
      procs := procs[c := procs[c].(parent := p)];
      forking := forking[p := Adopted(c)];
    }

    // The end of md_forkentry: with a file table the child runs, without one,
    // for want of what e says, it is removed; the parent goes on, and ret is
    // what fork returns there.
    method ForkDone(p: int, e: Err) returns (ret: int)
      requires Valid() && p in forking && forking[p].Adopted?
      modifies this, proctable
      ensures Valid() && forking == old(forking) - {p} && waiting == old(waiting) && born == old(born)
      ensures var c := old(forking[p].child);
              && c in old(procs) && old(procs)[c].parent == p && !old(procs)[c].exit
              && running == (if e == OK then old(running) + {c} else old(running))
              && procs == (if e == OK then old(procs) else old(procs) - {c})
              && ret == (if e == OK then old(procs)[c].pid else ForkReturn(Number(e)))
    {
      hide Indexed, Said, Parented, Scheduled, Ordered, Settled;
      var c := forking[p].child;
      DoneFacts(proctable[..], procs, running, waiting, forking, said, p);
      DoneOrdered(procs, running, forking, born, clock, p);
      forking := forking - {p};
      if e == OK {
        running := running + {c};
        ret := ForkReturn(procs[c].pid);
      } else {
        ret := ForkReturn(Number(e));
        Remove(procs[c].pid);
      }
    }

    // exit_process
    method ExitProcess(e: int, code: int)
      requires Valid() && Free(e) && procs[e].parent != -1
      modifies this
      ensures Valid() && procs == Exited(old(procs), e, code) && running == old(running) - {e}
      ensures waiting == old(waiting) && forking == old(forking) && said == old(said)[e := code] && born == old(born)
    {
      hide Scheduled, Said, Parented, Indexed, ExitedTo, Ordered, Settled;
      ghost var procs0, t := procs, proctable[..];
      RunningKnown(procs, running, waiting, forking, e);
      ExitKeeps(t, procs, running, waiting, forking, said, e, code);
      ExitOrdered(procs, running, forking, born, clock, e, code);
      procs := procs[e := procs[e].(code := code, exit := true)];
      ExitStart(t, procs0, e, code);
      for i := MIN_PROCESS to MAX_PROCESS
        invariant procs == ExitedTo(procs0, e, code, i)
        invariant running == old(running) && waiting == old(waiting) && forking == old(forking) && said == old(said)
        invariant born == old(born) && clock == old(clock)
      {
        ExitStep(t, procs0, e, code, i);
        var q := proctable[i];
        if q != -1 && procs[q].parent != -1 && i != procs[e].pid && procs[procs[q].parent].pid == procs[e].pid {
          procs := procs[q := procs[q].(parent := -1)];
        }
      }
      ExitEnd(t, procs0, e, code);
      running, said := running - {e}, said[e := code];
    }

    // _exit. What is left of the process can never leave the table again,
    // exactly unless it has a parent that is still running.
    method Exit(p: int, code: int)
      requires Valid() && Free(p)
      modifies this
      ensures Valid() && running == old(running) - {p} && waiting == old(waiting) && forking == old(forking) &&
              p in old(procs)
      ensures old(procs)[p].parent != -1 ==> procs == Exited(old(procs), p, code) && said == old(said)[p := code]
      ensures old(procs)[p].parent == -1 ==> procs == old(procs) && said == old(said)
      ensures born == old(born)
      ensures Doomed(procs, running, forking, p) <==>
                !(old(procs)[p].parent != -1 && old(procs)[p].parent in old(running))
    {
      hide Indexed, Parented, Said, Exited, Scheduled, Ordered, Settled;
      RunningKnown(procs, running, waiting, forking, p);
      LeaveDoomed(procs, running, waiting, forking, p, code);
      if procs[p].parent == -1 {
        LeaveKeeps(procs, running, waiting, forking, p);
        running := running - {p};
      } else {
        ExitProcess(p, code);
      }
    }

    // waitpid up to where it has to wait.
    method Waitpid(p: int, pid: int, options: int) returns (r: Waited)
      requires Valid() && Free(p) && pid != MAX_PROCESS
      modifies this, proctable
      ensures Valid() && running == old(running) && forking == old(forking) && born == old(born)
      ensures r.Failed? ==>
                unchanged(this) && unchanged(proctable) &&
                r.err == WaitError(old(procs), old(proctable[..]), p, pid, options) != OK
      ensures !r.Failed? ==>
                WaitError(old(procs), old(proctable[..]), p, pid, options) == OK && MIN_PROCESS <= pid < MAX_PROCESS
      ensures !r.Failed? ==> old(proctable[pid]) in old(procs) && (r.Got? <==> old(procs)[old(proctable[pid])].exit)
      ensures r.Blocks? ==>
                waiting == old(waiting)[p := old(proctable[pid])] && procs == old(procs) && said == old(said)
      ensures r.Got? ==>
                Collected(old(procs), procs, old(said), said, old(proctable[pid]), r.status) && waiting == old(waiting)
      ensures r.Got? ==> r.status == old(procs)[old(proctable[pid])].code
    {
      hide Said, Parented, Removable, Ordered, Settled;
      if options != 0 {
        return Failed(EINVAL);
      }
      var kid := if MIN_PROCESS <= pid <= MAX_PROCESS then proctable[pid] else -1;
      if kid == -1 {
        return Failed(EAGAIN);
      }
      if procs[kid].parent != p {
        return Failed(ENOMEM);
      }
      if procs[kid].exit {
        KidRemovable(procs, running, waiting, forking, said, kid, p);
        RemoveSettled(procs, running, forking, kid);
        var status := procs[kid].code;
        Remove(procs[kid].pid);
        return Got(status);
      }
      waiting := waiting[p := kid];
      return Blocks;
    }

    // The rest of waitpid, once the child has exited.
    method WaitDone(p: int) returns (status: int)
      requires Valid() && p in waiting && procs[waiting[p]].exit
      modifies this, proctable
      ensures Valid() && running == old(running) && forking == old(forking) && waiting == old(waiting) - {p} &&
              born == old(born)
      ensures old(waiting[p]) in old(procs) && old(procs)[old(waiting[p])].exit &&
              old(procs)[old(waiting[p])].parent == p
      ensures Collected(old(procs), procs, old(said), said, old(waiting[p]), status)
      ensures status == old(procs)[old(waiting[p])].code
    {
      hide Said, Parented, Removable, Indexed, Ordered, Settled;
      var kid := waiting[p];
      RemoveSettled(procs, running, forking, kid);
      PidOf(proctable[..], procs, kid);
      KidRemovable(procs, running, waiting - {p}, forking, said, kid, p);
      waiting := waiting - {p};
      status := procs[kid].code;
      Remove(procs[kid].pid);
    }

    // Running and not blocked in a call.
    ghost predicate Free(p: int)
      reads this
    {
      p in running && p !in waiting && p !in forking
    }
  }

  // ---------- what fork returns ----------

  // sys_fork takes any positive number that the child leaves it for the
  // child's PID; -1 is the error return.
  function ForkReturn(childPid: int): int {
    if childPid <= 0 then -1 else childPid
  }

  // So no error of the child is ever reported: fork returns its number as a PID.
  lemma ForkHidesErrors(e: Err)
    requires e != OK
    ensures ForkReturn(Number(e)) == Number(e) > 0
  {}

  // ---------- two forks at once ----------

  // The slot is chosen before the structure is allocated and stored after.
  // Storing keeps the index in order if and only if the slot is still empty.
  lemma StoreInOrder(table: seq<int>, procs: Procs, pid: nat, who: nat)
    requires Indexed(table, procs) && MIN_PROCESS <= pid < MAX_PROCESS && who !in procs
    ensures Indexed(table[pid := who], procs[who := Proc(pid, 0, false, -1)]) <==> table[pid] == -1
  {
    var table', procs' := table[pid := who], procs[who := Proc(pid, 0, false, -1)];
    if table[pid] != -1 {
      assert table[pid] in procs';
      assert table'[procs'[table[pid]].pid] == who;
    }
  }

  // Two searches with no store between them find the same slot...
  method TwoSearches(t: Table) returns (pid1: nat, pid2: nat)
    requires t.Valid()
    modifies t, t.proctable
    ensures t.Valid() && pid2 == pid1 < MAX_PROCESS && (pid1 != 0 ==> t.proctable[pid1] == -1)
  {
    hide Parented, Scheduled, Said, Ordered, Settled, Indexed, Taken;
    ghost var table0, procs0 := t.proctable[..], t.procs;
    pid1 := t.FindSlot();
    ghost var table1, procs1 := t.proctable[..], t.procs;
    pid2 := t.FindSlot();
    SameSlot(table0, procs0, table1, procs1, pid1, pid2);
  }

  lemma SameSlot(table: seq<int>, procs: Procs, table': seq<int>, procs': Procs, pid1: nat, pid2: nat)
    requires |table| == |table'| == MAX_PROCESS && pid1 < MAX_PROCESS && pid2 < MAX_PROCESS
    requires table' == if pid1 == 0 then table else table[pid1 := -1]
    requires procs' == if pid1 == 0 then procs else procs - {table[pid1]}
    requires forall i :: MIN_PROCESS <= i < (if pid1 == 0 then MAX_PROCESS else pid1) ==> Taken(procs, table[i])
    requires forall i :: MIN_PROCESS <= i < (if pid2 == 0 then MAX_PROCESS else pid2) ==> Taken(procs', table'[i])
    requires pid2 != 0 ==> !Taken(procs', table'[pid2])
    ensures pid2 == pid1
  {
    assert forall i :: MIN_PROCESS <= i < MAX_PROCESS && i != pid1 && Taken(procs, table[i]) ==>
             Taken(procs', table'[i]);
    assert pid1 != 0 ==> !Taken(procs', table'[pid1]);
  }

  // ... so that of two forks that do so the second store breaks the index.
  lemma TwoStores(table: seq<int>, procs: Procs, pid: nat, who1: nat, who2: nat)
    requires Indexed(table, procs) && MIN_PROCESS <= pid < MAX_PROCESS && table[pid] == -1
    requires who1 !in procs && who2 !in procs && who1 != who2
    ensures Indexed(table[pid := who1], procs[who1 := Proc(pid, 0, false, -1)])
    ensures !Indexed(table[pid := who1][pid := who2],
            procs[who1 := Proc(pid, 0, false, -1)][who2 := Proc(pid, 0, false, -1)])
  {
    StoreInOrder(table, procs, pid, who1);
    StoreInOrder(table[pid := who1], procs[who1 := Proc(pid, 0, false, -1)], pid, who2);
  }

  lemma NoNull(table: seq<int>, procs: Procs)
    requires Indexed(table, procs)
    ensures -1 !in procs
  {}

  // ---------- _exit and waitpid ----------

  // e has exited with code, and its children have no parent any more.
  ghost function Exited(procs: Procs, e: int, code: int): Procs
    requires e in procs
  {
    map q | q in procs ::
      if q == e then procs[q].(code := code, exit := true)
      else if procs[q].parent == e then procs[q].(parent := -1)
      else procs[q]
  }

  // The same with the children below index i told so far.
  ghost function ExitedTo(procs: Procs, e: int, code: int, i: nat): Procs
    requires e in procs
  {
    map q | q in procs :: if q == e || procs[q].pid < i then Exited(procs, e, code)[q] else procs[q]
  }

  lemma RunningKnown(procs: Procs, running: set<int>, waiting: map<int, int>, forking: map<int, Fork>, e: int)
    requires Scheduled(procs, running, waiting, forking) && e in running
    ensures e in procs && !procs[e].exit
  {}

  lemma ExitStart(table: seq<int>, procs: Procs, e: int, code: int)
    requires Indexed(table, procs) && e in procs
    ensures ExitedTo(procs, e, code, MIN_PROCESS) == procs[e := procs[e].(code := code, exit := true)]
  {}

  lemma ExitEnd(table: seq<int>, procs: Procs, e: int, code: int)
    requires Indexed(table, procs) && e in procs
    ensures ExitedTo(procs, e, code, MAX_PROCESS) == Exited(procs, e, code)
  {}

  lemma ExitStep(table: seq<int>, procs: Procs, e: int, code: int, i: nat)
    requires Indexed(table, procs) && Parented(procs) && e in procs && MIN_PROCESS <= i < MAX_PROCESS
    ensures e in ExitedTo(procs, e, code, i) && ExitedTo(procs, e, code, i)[e].pid == procs[e].pid
    ensures var q := table[i]; var now := ExitedTo(procs, e, code, i);
            && (q != -1 ==> q in now)
            && (q != -1 && now[q].parent != -1 ==> now[q].parent in now)
            && ExitedTo(procs, e, code, i + 1)
               == if q != -1 && now[q].parent != -1 && i != procs[e].pid && now[now[q].parent].pid == procs[e].pid
                  then now[q := now[q].(parent := -1)] else now
  {
    var q, now, then' := table[i], ExitedTo(procs, e, code, i), ExitedTo(procs, e, code, i + 1);
    assert forall r :: r in procs && procs[r].pid == i ==> r == q;
    if q != -1 && now[q].parent != -1 {
      assert now[now[q].parent].pid == procs[e].pid <==> now[q].parent == e;
    }
  }

  lemma ExitIndexed(table: seq<int>, procs: Procs, e: int, code: int)
    requires Indexed(table, procs) && e in procs
    ensures Indexed(table, Exited(procs, e, code))
  {}

  lemma ExitParented(procs: Procs, e: int, code: int)
    requires Parented(procs) && e in procs
    ensures Parented(Exited(procs, e, code))
  {}

  lemma ExitScheduled(procs: Procs, running: set<int>, waiting: map<int, int>, forking: map<int, Fork>, e: int,
                      code: int)
    requires Scheduled(procs, running, waiting, forking) && e in running && e !in waiting && e !in forking
    ensures e in procs && Scheduled(Exited(procs, e, code), running - {e}, waiting, forking)
  {
    var procs' := Exited(procs, e, code);
    forall p | p in forking && !forking[p].Asked?
      ensures Unborn(procs', running - {e}, p, forking[p])
    {
      assert Unborn(procs, running, p, forking[p]);
    }
  }

  lemma ExitKeeps(table: seq<int>, procs: Procs, running: set<int>, waiting: map<int, int>, forking: map<int, Fork>,
                  said: map<int, int>, e: int, code: int)
    requires Indexed(table, procs) && Parented(procs) && Scheduled(procs, running, waiting, forking) &&
             Said(procs, said)
    requires e in running && e !in waiting && e !in forking
    ensures e in procs
    ensures var procs' := Exited(procs, e, code);
            && Indexed(table, procs') && Parented(procs') && Scheduled(procs', running - {e}, waiting, forking)
            && Said(procs', said[e := code])
  {
    hide Indexed, Parented, Scheduled;
    ExitScheduled(procs, running, waiting, forking, e, code);
    ExitIndexed(table, procs, e, code);
    ExitParented(procs, e, code);
  }

  datatype Waited = Failed(err: Err) | Got(status: int) | Blocks

  // Why waitpid refuses, if it does.
  ghost function WaitError(procs: Procs, table: seq<int>, p: int, pid: int, options: int): Err {
    if options != 0 then EINVAL
    else if !(MIN_PROCESS <= pid < MAX_PROCESS && pid < |table| && table[pid] in procs) then EAGAIN
    else if procs[table[pid]].parent != p then ENOMEM
    else OK
  }

  // The exit code that kid gave, and no trace of kid any more: nobody can
  // collect it again.
  ghost predicate Collected(procs: Procs, procs': Procs, said: map<int, int>, said': map<int, int>, kid: int,
                            status: int) {
    kid in said && status == said[kid] && said' == said - {kid} && procs' == procs - {kid}
  }

  lemma KidRemovable(procs: Procs, running: set<int>, waiting: map<int, int>, forking: map<int, Fork>,
                     said: map<int, int>, kid: int, p: int)
    requires Parented(procs) && Scheduled(procs, running, waiting, forking) && Said(procs, said)
    requires kid in procs && kid != -1 && procs[kid].exit && procs[kid].parent == p && p !in waiting
    ensures Removable(procs, running, waiting, forking, kid) && kid in said && said[kid] == procs[kid].code
  {}

  lemma PidOf(table: seq<int>, procs: Procs, p: int)
    requires Indexed(table, procs) && p in procs
    ensures p >= 0 && |table| == MAX_PROCESS && MIN_PROCESS <= procs[p].pid < MAX_PROCESS && table[procs[p].pid] == p
  {}

  // process_get admits one index past the table: it stays inside exactly for
  // the other PIDs.
  lemma ProcessGetInBounds(pid: int)
    ensures (MIN_PROCESS <= pid <= MAX_PROCESS ==> 0 <= pid < MAX_PROCESS) <==> pid != MAX_PROCESS
  {}

  lemma RemoveKeeps(table: seq<int>, procs: Procs, running: set<int>, waiting: map<int, int>, forking: map<int, Fork>,
                    said: map<int, int>, pid: nat)
    requires Indexed(table, procs) && Parented(procs) && Scheduled(procs, running, waiting, forking) &&
             Said(procs, said)
    requires MIN_PROCESS <= pid < MAX_PROCESS && table[pid] in procs &&
             Removable(procs, running, waiting, forking, table[pid])
    ensures var procs' := procs - {table[pid]};
            && Indexed(table[pid := -1], procs') && Parented(procs') && Scheduled(procs', running, waiting, forking)
            && Said(procs', said - {table[pid]})
  {}

  lemma AdoptKeeps(table: seq<int>, procs: Procs, running: set<int>, waiting: map<int, int>, forking: map<int, Fork>,
                   said: map<int, int>, p: int)
    requires Indexed(table, procs) && Parented(procs) && Scheduled(procs, running, waiting, forking) &&
             Said(procs, said)
    requires p in forking && forking[p].Added?
    ensures var c := forking[p].child; c in procs
    ensures var c := forking[p].child; var procs' := procs[c := procs[c].(parent := p)];
            && Indexed(table, procs') && Parented(procs') &&
               Scheduled(procs', running, waiting, forking[p := Adopted(c)])
            && Said(procs', said)
  {
    hide Indexed, Parented, Said, Scheduled;
    var c := forking[p].child;
    UnbornKnown(procs, running, waiting, forking, p);
    NoNull(table, procs);
    AdoptScheduled(procs, running, waiting, forking, p);
    PointersOnly(table, procs, said, c, p);
    AdoptParented(procs, c, p);
  }

  lemma UnbornKnown(procs: Procs, running: set<int>, waiting: map<int, int>, forking: map<int, Fork>, p: int)
    requires Scheduled(procs, running, waiting, forking) && p in forking && !forking[p].Asked?
    ensures Unborn(procs, running, p, forking[p]) && p in running && p in procs && !procs[p].exit &&
            p != forking[p].child
  {}

  lemma AdoptScheduled(procs: Procs, running: set<int>, waiting: map<int, int>, forking: map<int, Fork>, p: int)
    requires Scheduled(procs, running, waiting, forking) && -1 !in procs
    requires p in forking && forking[p].Added? && forking[p].child in procs
    ensures var c := forking[p].child;
            Scheduled(procs[c := procs[c].(parent := p)], running, waiting, forking[p := Adopted(c)])
  {
    var c := forking[p].child;
    UnbornKnown(procs, running, waiting, forking, p);
    var procs', forking' := procs[c := procs[c].(parent := p)], forking[p := Adopted(c)];
    forall q | q in forking' && !forking'[q].Asked?
      ensures Unborn(procs', running, q, forking'[q])
    {
      UnbornKnown(procs, running, waiting, forking, q);
    }
  }

  // The index and what was said do not depend on parents.
  lemma PointersOnly(table: seq<int>, procs: Procs, said: map<int, int>, c: int, p: int)
    requires Indexed(table, procs) && Said(procs, said) && c in procs
    ensures Indexed(table, procs[c := procs[c].(parent := p)]) && Said(procs[c := procs[c].(parent := p)], said)
  {}

  lemma AdoptParented(procs: Procs, c: int, p: int)
    requires Parented(procs) && c in procs && p in procs && !procs[p].exit && p != c && !procs[c].exit
    ensures Parented(procs[c := procs[c].(parent := p)])
  {}

  lemma AdoptOrdered(procs: Procs, running: set<int>, waiting: map<int, int>, forking: map<int, Fork>,
                     born: map<int, nat>, clock: nat, p: int)
    requires Scheduled(procs, running, waiting, forking) && Ordered(procs, forking, born, clock) &&
             Settled(procs, running, forking)
    requires p in forking && forking[p].Added? && forking[p].child in procs
    ensures var c := forking[p].child; var procs' := procs[c := procs[c].(parent := p)];
            Ordered(procs', forking[p := Adopted(c)], born, clock) && Settled(procs', running, forking[p := Adopted(c)])
  {
    hide Scheduled;
    UnbornKnown(procs, running, waiting, forking, p);
  }

  // ---------- age ----------

  lemma RemoveOrdered(procs: Procs, forking: map<int, Fork>, born: map<int, nat>, clock: nat, p: int)
    requires Ordered(procs, forking, born, clock)
    ensures Ordered(procs - {p}, forking, born, clock)
  {}

  lemma RemoveSettled(procs: Procs, running: set<int>, forking: map<int, Fork>, p: int)
    requires Settled(procs, running, forking)
    ensures Settled(procs - {p}, running, forking)
  {}

  lemma AddOrdered(procs: Procs, forking: map<int, Fork>, born: map<int, nat>, clock: nat, pid: nat, who: nat)
    requires Ordered(procs, forking, born, clock) && who !in procs
    requires forall q :: q in procs ==> procs[q].parent != who
    requires who !in forking && forall q :: q in forking && !forking[q].Asked? ==> forking[q].child != who
    ensures Ordered(procs[who := Proc(pid, 0, false, -1)], forking, born[who := clock], clock + 1)
  {}

  lemma AddSettled(procs: Procs, running: set<int>, forking: map<int, Fork>, pid: nat, who: nat)
    requires Settled(procs, running, forking)
    ensures Settled(procs[who := Proc(pid, 0, false, -1)], running, forking)
  {}

  lemma AskedRuns(procs: Procs, running: set<int>, waiting: map<int, int>, forking: map<int, Fork>, p: int)
    requires Scheduled(procs, running, waiting, forking) && p in forking
    ensures p in running && p in procs
  {}

  // A fork that is given up leaves no child behind.
  lemma AskedEnds(procs: Procs, running: set<int>, waiting: map<int, int>, forking: map<int, Fork>,
                  born: map<int, nat>, clock: nat, p: int)
    requires Scheduled(procs, running, waiting, forking) && Ordered(procs, forking, born, clock) &&
             Settled(procs, running, forking)
    requires p in forking && forking[p].Asked?
    ensures Scheduled(procs, running, waiting, forking - {p}) && Ordered(procs, forking - {p}, born, clock)
    ensures Settled(procs, running, forking - {p})
  {}

  lemma AddedOrdered(procs: Procs, running: set<int>, forking: map<int, Fork>, born: map<int, nat>, clock: nat,
                     p: int, who: int)
    requires Ordered(procs, forking, born, clock) && Settled(procs, running, forking)
    requires p in forking && forking[p].Asked? && p in procs && who in procs && procs[who].parent == -1
    requires p != who && born[who] == clock - 1 && born[p] < born[who]
    ensures Ordered(procs, forking[p := Added(who)], born, clock) && Settled(procs, running, forking[p := Added(who)])
  {}

  lemma DoneOrdered(procs: Procs, running: set<int>, forking: map<int, Fork>, born: map<int, nat>, clock: nat, p: int)
    requires Ordered(procs, forking, born, clock) && Settled(procs, running, forking)
    requires p in forking && forking[p].Adopted?
    ensures var c := forking[p].child;
            && Ordered(procs, forking - {p}, born, clock) && Settled(procs, running + {c}, forking - {p})
            && Settled(procs - {c}, running, forking - {p})
  {}

  lemma ExitOrdered(procs: Procs, running: set<int>, forking: map<int, Fork>, born: map<int, nat>, clock: nat, e: int,
                    code: int)
    requires Ordered(procs, forking, born, clock) && Settled(procs, running, forking) && e in procs && e !in forking
    ensures Ordered(Exited(procs, e, code), forking, born, clock) &&
            Settled(Exited(procs, e, code), running - {e}, forking)
  {}

  lemma LeaveKeeps(procs: Procs, running: set<int>, waiting: map<int, int>, forking: map<int, Fork>, p: int)
    requires Scheduled(procs, running, waiting, forking) && Settled(procs, running, forking)
    requires p in procs && p !in waiting && p !in forking && procs[p].parent == -1
    ensures Scheduled(procs, running - {p}, waiting, forking) && Settled(procs, running - {p}, forking)
  {}

  // ---------- slots that are lost ----------

  // A process that left without a parent: not running, never exited, and no
  // child of a fork.
  ghost predicate Stuck(procs: Procs, running: set<int>, forking: map<int, Fork>, p: int) {
    && p in procs && p !in running && !procs[p].exit && procs[p].parent == -1
    && forall q :: q in forking && !forking[q].Asked? ==> forking[q].child != p
  }

  // ... or one that exited and whose parent left in that way
  ghost predicate Doomed(procs: Procs, running: set<int>, forking: map<int, Fork>, p: int) {
    || Stuck(procs, running, forking, p)
    || (p in procs && procs[p].exit && procs[p].parent != -1 && Stuck(procs, running, forking, procs[p].parent))
  }

  // A parent that does not run has left without a parent of its own.
  lemma ParentStuck(procs: Procs, running: set<int>, waiting: map<int, int>, forking: map<int, Fork>, p: int)
    requires Parented(procs) && Scheduled(procs, running, waiting, forking) && Settled(procs, running, forking)
    requires p in procs && procs[p].parent != -1
    ensures procs[p].parent in procs && !procs[procs[p].parent].exit
    ensures Stuck(procs, running, forking, procs[p].parent) <==> procs[p].parent !in running
  {
    var q := procs[p].parent;
    if q !in running {
      forall r | r in forking && !forking[r].Asked?
        ensures forking[r].child != q
      {
        UnbornKnown(procs, running, waiting, forking, r);
      }
      if procs[q].parent != -1 {
        UnbornKnown(procs, running, waiting, forking, procs[q].parent);
      }
    }
  }

  lemma LeaveDoomed(procs: Procs, running: set<int>, waiting: map<int, int>, forking: map<int, Fork>, p: int, code: int)
    requires Parented(procs) && Scheduled(procs, running, waiting, forking) && Settled(procs, running, forking)
    requires p in running && p in procs && !procs[p].exit
    ensures procs[p].parent == -1 ==> Doomed(procs, running - {p}, forking, p)
    ensures procs[p].parent != -1 ==>
              (Doomed(Exited(procs, p, code), running - {p}, forking, p) <==> procs[p].parent !in running)
  {
    hide Settled, Parented;
    forall r | r in forking && !forking[r].Asked?
      ensures forking[r].child != p
    {
      UnbornKnown(procs, running, waiting, forking, r);
    }
    if procs[p].parent != -1 {
      ParentStuck(procs, running, waiting, forking, p);
      assert procs[p].parent != p by { NoSelf(procs, p); }
    }
  }

  lemma NoSelf(procs: Procs, p: int)
    requires Parented(procs) && p in procs && procs[p].parent != -1
    ensures procs[p].parent != p
  {}

  lemma StartKeeps(procs: Procs, running: set<int>, waiting: map<int, int>, forking: map<int, Fork>, who: int)
    requires Scheduled(procs, running, waiting, forking) && who in procs && !procs[who].exit
    requires forall q :: q in forking && !forking[q].Asked? ==> forking[q].child != who
    ensures Scheduled(procs, running + {who}, waiting, forking)
  {}

  lemma AddedKeeps(procs: Procs, running: set<int>, waiting: map<int, int>, forking: map<int, Fork>, p: int, who: int)
    requires Scheduled(procs, running, waiting, forking) && p in forking && who >= 0 && who in procs && who !in running
    requires !procs[who].exit && procs[who].parent == -1 && (forall q :: q in procs ==> procs[q].parent != who)
    requires forall q :: q in forking && !forking[q].Asked? ==> forking[q].child != who
    ensures Scheduled(procs, running, waiting, forking[p := Added(who)])
  {}

  lemma DoneFacts(table: seq<int>, procs: Procs, running: set<int>, waiting: map<int, int>, forking: map<int, Fork>,
                  said: map<int, int>, p: int)
    requires Indexed(table, procs) && Parented(procs) && Scheduled(procs, running, waiting, forking)
    requires p in forking && forking[p].Adopted?
    ensures var c := forking[p].child;
            && c in procs && MIN_PROCESS <= procs[c].pid < MAX_PROCESS && table[procs[c].pid] == c
            && Scheduled(procs, running, waiting, forking - {p})
            && Scheduled(procs, running + {c}, waiting, forking - {p})
            && Removable(procs, running, waiting, forking - {p}, c) && procs[c].parent == p && !procs[c].exit
  {}

  // A slot the search passes over.
  predicate Taken(procs: Procs, p: int) {
    p != -1 && !Reclaimable(procs, p)
  }

  lemma NotNull(procs: Procs, said: map<int, int>)
    requires Said(procs, said) && -1 !in procs
    ensures -1 !in said
  {}

  lemma ReclaimRemovable(procs: Procs, running: set<int>, waiting: map<int, int>, forking: map<int, Fork>, p: int)
    requires Parented(procs) && Scheduled(procs, running, waiting, forking) && -1 !in procs
    requires p in procs && procs[p].exit && (procs[p].parent == -1 || procs[procs[p].parent].exit)
    ensures Removable(procs, running, waiting, forking, p) && procs[p].parent == -1
  {}

  // Reclaiming a slot spares every running process and every child that
  // someone may wait for.
  lemma SlotSpares(procs: Procs, running: set<int>, table: seq<int>, pid: nat, waiting: map<int, int>,
                   forking: map<int, Fork>)
    requires Indexed(table, procs) && Scheduled(procs, running, waiting, forking) && pid < MAX_PROCESS
    requires pid != 0 ==> !Taken(procs, table[pid])
    ensures pid != 0 ==> forall c :: c in procs && !Reclaimable(procs, c) ==> c != table[pid]
    ensures forall c :: c in running ==> c in procs && !Reclaimable(procs, c)
    ensures forall q :: q in forking && !forking[q].Asked? ==> forking[q].child in procs
  {}

  lemma AddKeeps(table: seq<int>, procs: Procs, running: set<int>, waiting: map<int, int>, forking: map<int, Fork>,
                 said: map<int, int>, pid: nat, who: nat)
    requires Indexed(table, procs) && Parented(procs) && Scheduled(procs, running, waiting, forking) &&
             Said(procs, said)
    requires MIN_PROCESS <= pid < MAX_PROCESS && table[pid] == -1 && who !in procs
    ensures var procs' := procs[who := Proc(pid, 0, false, -1)];
            && Indexed(table[pid := who], procs') && Parented(procs') && Scheduled(procs', running, waiting, forking)
            && Said(procs', said) && forall q :: q in procs' ==> procs'[q].parent != who
    ensures forall q :: q in procs ==> procs[q].parent != who
    ensures who !in forking && forall q :: q in forking && !forking[q].Asked? ==> forking[q].child != who
  {}

  // Nobody else refers to p.
  ghost predicate Removable(procs: Procs, running: set<int>, waiting: map<int, int>, forking: map<int, Fork>, p: int) {
    && p !in running
    && (forall q :: q in procs ==> procs[q].parent != p)
    && (forall q :: q in waiting ==> waiting[q] != p)
    && (forall q :: q in forking && !forking[q].Asked? ==> forking[q].child != p)
  }
}
