/**
 The three containers of the thread system: the sleepers and zombies of
 kern/thread/thread.c and the run queue of kern/thread/scheduler.c, behind
 the sequences they hold and the room they have.
 */
module ThreadTables {
  import opened Errno
  import opened PtrArray
  import opened QueueLib
  import opened ThreadModel

  // The slots left in an array set to size 0: more than 16 are given back,
  // even if they were preallocated.
  function Shrunk(max: nat): nat {
    if max > 16 then 0 else max
  }

  class Tables {
    const sleepers: Array<nat>
    const zombies: Array<nat>
    const runqueue: Queue<nat>
    ghost var ready: seq<nat>
    ghost var sleep: seq<nat>
    ghost var zomb: seq<nat>
    ghost var qsize: nat           // slots in the run queue
    ghost var smax: nat            // slots for sleepers
    ghost var zmax: nat            // slots for zombies
    ghost var Repr: set<object>

    ghost predicate Valid()
      reads this, Repr
    {
      && sleepers in Repr && zombies in Repr && runqueue in Repr
      && Repr == {this, sleepers, sleepers.v, zombies, zombies.v, runqueue, runqueue.data}
      && sleepers != zombies && sleepers.v != zombies.v && sleepers.v != runqueue.data && zombies.v != runqueue.data
      && sleepers.Valid() && zombies.Valid() && runqueue.Valid()
      && ready == runqueue.Contents() && sleep == sleepers.Contents() && zomb == zombies.Contents()
      && qsize == runqueue.size && smax == sleepers.max && zmax == zombies.max
      && |ready| < qsize && |sleep| <= smax && |zomb| <= zmax
    }

    constructor ()
      ensures Valid() && fresh(Repr) && ready == sleep == zomb == [] && qsize == 32 && smax == zmax == 0
    {
      sleepers := new Array();
      zombies := new Array();
      runqueue := new Queue(32);
      ready, sleep, zomb, qsize, smax, zmax := [], [], [], 32, 0, 0;
      new;
      Repr := {this, sleepers, sleepers.v, zombies, zombies.v, runqueue, runqueue.data};
    }

    // The preallocation in thread_fork; a, z and q say whether kmalloc
    // succeeds for the sleepers, the zombies and the run queue.
    method Preallocate(n: nat, a: bool, z: bool, q: bool) returns (err: Err)
      requires Valid()
      modifies Repr
      ensures Valid() && fresh(Repr - old(Repr))
      ensures ready == old(ready) && sleep == old(sleep) && zomb == old(zomb) && qsize >= old(qsize) &&
              smax >= old(smax)
      ensures err == OK ==> qsize >= n && smax >= n && zmax >= n
      ensures n <= old(qsize) ==> qsize == old(qsize)
      ensures err == OK || err == ENOMEM
      ensures a && z && q ==> err == OK
    {
      hide Valid;
      err := PreallocateLists(n, a, z);
      if err == OK {
        err := PreallocateQueue(n, q);
      }
    }

    method PreallocateLists(n: nat, a: bool, z: bool) returns (err: Err)
      requires Valid()
      modifies Repr
      ensures Valid() && fresh(Repr - old(Repr))
      ensures ready == old(ready) && sleep == old(sleep) && zomb == old(zomb) && qsize == old(qsize) &&
              smax >= old(smax)
      ensures err == OK ==> smax >= n && zmax >= n
      ensures err == if a && z then OK else ENOMEM
    {
      hide Ring;
      err := sleepers.Preallocate(n, a);
      if err == OK {
        err := zombies.Preallocate(n, z);
      }
      smax, zmax := sleepers.max, zombies.max;
      Repr := {this, sleepers, sleepers.v, zombies, zombies.v, runqueue, runqueue.data};
    }

    method PreallocateQueue(n: nat, q: bool) returns (err: Err)
      requires Valid()
      modifies Repr
      ensures Valid() && fresh(Repr - old(Repr))
      ensures ready == old(ready) && sleep == old(sleep) && zomb == old(zomb)
      ensures smax == old(smax) && zmax == old(zmax) && qsize >= old(qsize)
      ensures err == OK ==> qsize >= n
      ensures n <= old(qsize) ==> qsize == old(qsize)
      ensures err == OK || err == ENOMEM
      ensures q ==> err == OK
    {
      hide Ring;
      err := runqueue.Preallocate(n, q);
      qsize := runqueue.size;
      Repr := {this, sleepers, sleepers.v, zombies, zombies.v, runqueue, runqueue.data};
    }

    // make_runnable
    method MakeRunnable(t: nat, ok: bool) returns (err: Err)
      requires Valid()
      modifies Repr
      ensures Valid() && fresh(Repr - old(Repr))
      ensures sleep == old(sleep) && zomb == old(zomb) && smax == old(smax) && zmax == old(zmax)
      ensures err == if |old(ready)| + 1 == old(qsize) && !ok then ENOMEM else OK
      ensures ready == if err == OK then old(ready) + [t] else old(ready)
      ensures qsize >= old(qsize) && (qsize > old(qsize) <==> |old(ready)| + 1 == old(qsize) && ok)
    {
      hide Ring;
      err := runqueue.AddTail(t, ok);
      ready, qsize := runqueue.Contents(), runqueue.size;
      Repr := {this, sleepers, sleepers.v, zombies, zombies.v, runqueue, runqueue.data};
    }

    method AnyReady() returns (any: bool)
      requires Valid()
      ensures any == (ready != [])
    {
      any := !runqueue.Empty();
    }

    // What scheduler returns once something is ready.
    method NextReady() returns (t: nat)
      requires Valid() && ready != []
      modifies Repr
      ensures Valid() && Repr == old(Repr)
      ensures sleep == old(sleep) && zomb == old(zomb) && smax == old(smax) && zmax == old(zmax) && qsize == old(qsize)
      ensures old(ready) == [t] + ready
    {
      t := runqueue.RemHead();
      ready := runqueue.Contents();
    }

    method AddSleeper(t: nat, ok: bool) returns (err: Err)
      requires Valid()
      modifies Repr
      ensures Valid() && fresh(Repr - old(Repr))
      ensures ready == old(ready) && zomb == old(zomb) && qsize == old(qsize) && zmax == old(zmax)
      ensures err == if |old(sleep)| == old(smax) && !ok then ENOMEM else OK
      ensures sleep == if err == OK then old(sleep) + [t] else old(sleep)
      ensures smax >= old(smax) && (|old(sleep)| < old(smax) ==> smax == old(smax))
    {
      err := sleepers.Add(t, ok);
      sleep, smax := sleepers.Contents(), sleepers.max;
      Repr := {this, sleepers, sleepers.v, zombies, zombies.v, runqueue, runqueue.data};
    }

    method NumSleepers() returns (n: nat)
      requires Valid()
      ensures n == |sleep|
    {
      n := sleepers.num;
    }

    method Sleeper(i: nat) returns (t: nat)
      requires Valid() && i < |sleep|
      ensures t == sleep[i]
    {
      t := sleepers.GetGuy(i);
    }

    method RemoveSleeper(i: nat)
      requires Valid() && i < |sleep|
      modifies Repr
      ensures Valid() && Repr == old(Repr)
      ensures ready == old(ready) && zomb == old(zomb) && qsize == old(qsize) && smax == old(smax) && zmax == old(zmax)
      ensures sleep == old(sleep)[..i] + old(sleep)[i + 1..]
    {
      sleepers.Remove(i);
      sleep := sleepers.Contents();
    }

    // What the wakeup loops do to the sleeper they wake.
    method Rouse(i: nat, ok: bool)
      requires Valid() && i < |sleep| && (ok || |ready| + 1 < qsize)
      modifies Repr
      ensures Valid() && fresh(Repr - old(Repr))
      ensures zomb == old(zomb) && smax == old(smax) && zmax == old(zmax) && qsize >= old(qsize) &&
              (|old(ready)| + 1 < old(qsize) ==> qsize == old(qsize))
      ensures sleep == old(sleep)[..i] + old(sleep)[i + 1..] && ready == old(ready) + [old(sleep)[i]]
    {
      hide Valid;
      var t := Sleeper(i);
      RemoveSleeper(i);
      var err := MakeRunnable(t, ok);
      assert err == OK;
    }

    method AddZombie(t: nat, ok: bool) returns (err: Err)
      requires Valid()
      modifies Repr
      ensures Valid() && fresh(Repr - old(Repr))
      ensures ready == old(ready) && sleep == old(sleep) && qsize == old(qsize) && smax == old(smax)
      ensures |old(zomb)| < old(zmax) ==> zmax == old(zmax)
      ensures err == if |old(zomb)| == old(zmax) && !ok then ENOMEM else OK
      ensures zomb == if err == OK then old(zomb) + [t] else old(zomb)
    {
      err := zombies.Add(t, ok);
      zomb, zmax := zombies.Contents(), zombies.max;
      Repr := {this, sleepers, sleepers.v, zombies, zombies.v, runqueue, runqueue.data};
    }

    method NumZombies() returns (n: nat)
      requires Valid()
      ensures n == |zomb|
    {
      n := zombies.num;
    }

    method Zombie(i: nat) returns (t: nat)
      requires Valid() && i < |zomb|
      ensures t == zomb[i]
    {
      t := zombies.GetGuy(i);
    }

    // Shrinking, which cannot fail even without memory.
    method ClearZombies() returns (err: Err)
      requires Valid()
      modifies Repr
      ensures Valid() && fresh(Repr - old(Repr)) && err == OK
      ensures ready == old(ready) && sleep == old(sleep) && zomb == [] && qsize == old(qsize) && smax == old(smax)
      ensures zmax == Shrunk(old(zmax))
    {
      err := zombies.SetSize(0, false);
      zomb, zmax := zombies.Contents(), zombies.max;
      Repr := {this, sleepers, sleepers.v, zombies, zombies.v, runqueue, runqueue.data};
    }
  }

  // Threads made runnable and calls of scheduler, in any order, on the run
  // queue: a thread with k threads ahead of it is what the call after k
  // others returns.
  method Play(tab: Tables, es: seq<QueueEvent>) returns (out: seq<nat>)
    requires tab.Valid()
    modifies tab.Repr
    ensures tab.Valid() && fresh(tab.Repr - old(tab.Repr))
    ensures out == Served(old(tab.ready), es)
    ensures forall k :: 0 <= k < |out| && k < |old(tab.ready)| ==> out[k] == old(tab.ready)[k]
  {
    hide Tables.Valid;
    out := [];
    for i := 0 to |es|
      invariant tab.Valid() && fresh(tab.Repr - old(tab.Repr))
      invariant Served(old(tab.ready), es) == out + Served(tab.ready, es[i..])
    {
      assert es[i..][0] == es[i] && es[i..][1..] == es[i + 1..];
      match es[i] {
        case Append(t) => var _ := tab.MakeRunnable(t, true);
        case Next =>
          var any := tab.AnyReady();
          if any {
            var t := tab.NextReady();
            out := out + [t];
          }
      }
    }
    forall k | 0 <= k < |out| && k < |old(tab.ready)|
      ensures out[k] == old(tab.ready)[k]
    {
      RoundRobin(old(tab.ready), es, k);
    }
  }
}
