/**
 What any run of the thread system promises a thread: its turn comes in the
 order of the run queue, and it sleeps until its address is woken.
 */
module ThreadLaws {
  import opened ThreadModel
  import opened Threads

  // ---------- one event ----------

  // What runs next is the head of the run queue.
  lemma NextInLine(s: Sys, irqs: seq<nat>)
    requires s.ready != []
    ensures Resumed(s, irqs).cur == s.ready[0] && Resumed(s, irqs).ready == s.ready[1..] &&
            Resumed(s, irqs).sleep == s.sleep
  {}

  // A thread that yields goes behind the others that are ready, of which the
  // first runs; alone it runs on.
  lemma YieldLaw(s: Sys, irqs: seq<nat>, ok: bool, s': Sys)
    requires Follows(s, DoYield(irqs, ok), s') && s.cur >= 0
    ensures s'.sleep == s.sleep
    ensures if s.ready == [] then s'.cur == s.cur && s'.ready == []
            else s'.cur == s.ready[0] && s'.ready == s.ready[1..] + [s.cur]
  {
    NextInLine(ToReady(s), irqs);
    if s.ready != [] {
      assert (s.ready + [s.cur])[1..] == s.ready[1..] + [s.cur];
    }
  }

  // A thread that sleeps is among the sleepers with its address, and the
  // first that is ready runs.
  lemma SleepLaw(s: Sys, a: nat, irqs: seq<nat>, ok: bool, s': Sys)
    requires Follows(s, DoSleep(a, irqs, ok), s') && s.cur >= 0 && s.Inv() && s.ready != []
    ensures s'.cur == s.ready[0] && s'.ready == s.ready[1..] && s'.sleep == s.sleep + [s.cur]
    ensures s.cur in s'.addr && s'.addr[s.cur] == a
  {
    OnePlaceEach(s);
    assert s.ready[0] in s.ready;
    NextInLine(ToSleep(s, a), irqs);
  }

  // A thread that exits is alive no more, and the first that is ready runs.
  lemma ExitLaw(s: Sys, irqs: seq<nat>, ok: bool, s': Sys)
    requires Follows(s, DoExit(irqs, ok), s') && s.cur >= 0 && s.Inv() && s.ready != []
    ensures s'.cur == s.ready[0] && s'.ready == s.ready[1..] && s'.sleep == s.sleep && s'.num == s.num - 1
    ensures s'.alive == s.alive - {s.cur} && s.cur !in s'.ready && s.cur !in s'.sleep
  {
    OnePlaceEach(s);
    NextInLine(ToGrave(s), irqs);
    assert forall t :: t in s.ready[1..] ==> t in s.ready;
  }

  // A wakeup leaves nobody asleep on the address and wakes nobody else; the
  // woken are ready behind those that were.
  lemma WakeupLaw(s: Sys, a: nat, s': Sys)
    requires Follows(s, DoWakeup(a), s')
    ensures s'.cur == s.cur && s.ready <= s'.ready
    ensures forall t :: t in s.sleep ==>
              if SleepsOn(s.addr, t, a) then t in s'.ready && t !in s'.sleep else t in s'.sleep
  {
    hide Matching, Others;
    WakeupMembers(s.sleep, s.addr, a);
  }

  // A forked thread is ready behind the others and alive.
  lemma ForkLaw(s: Sys, t: nat, s': Sys)
    requires Follows(s, DoFork(t, true, true, true), s') && s.cur >= 0 && t !in s.structs
    ensures s'.ready == s.ready + [t] && s'.cur == s.cur && s'.sleep == s.sleep && s'.num == s.num + 1
    ensures s'.alive == s.alive + {t}
  {}

  // ---------- turns ----------

  // The event makes scheduler pick a thread.
  predicate Turn(s: Sys, e: Event) {
    if s.cur >= 0 then e.DoYield? || e.DoSleep? || e.DoExit? else e.DoIdle?
  }

  // How often scheduler picked between states i and k
  ghost function Turns(trace: seq<Sys>, events: seq<Event>, i: nat, k: nat): nat
    requires i <= k < |trace| <= |events| + 1
    decreases k
  {
    if i == k then 0 else Turns(trace, events, i, k - 1) + if Turn(trace[k - 1], events[k - 1]) then 1 else 0
  }

  // One event takes the head off the run queue if it is a turn, and otherwise
  // at most adds to the end.
  lemma QueueMoves(s: Sys, e: Event, s': Sys, p: nat)
    requires s.Inv() && Follows(s, e, s') && p < |s.ready|
    ensures Turn(s, e) ==> s'.cur == s.ready[0] && (p > 0 ==> p - 1 < |s'.ready| && s'.ready[p - 1] == s.ready[p])
    ensures !Turn(s, e) ==> s'.cur == s.cur && p < |s'.ready| && s'.ready[p] == s.ready[p]
  {
    hide Matching, Others, WokenN, AsleepN, Exorcised, Sys.Inv;
    if s.cur >= 0 { CurrentAlive(s); }
    match e {
      case DoYield(irqs, _) => if s.cur >= 0 { NextInLine(ToReady(s), irqs); }
      case DoSleep(a, irqs, _) => if s.cur >= 0 { NextInLine(ToSleep(s, a), irqs); }
      case DoExit(irqs, _) => if s.cur >= 0 { NextInLine(ToGrave(s), irqs); }
      case DoIdle(irqs) => if s.cur < 0 { NextInLine(s, irqs); }
      case _ =>
    }
  }

  // In any run a thread with p others ahead of it in the run queue is still
  // there, that much further on, until scheduler has picked p times, and the
  // pick after that is it.
  lemma {:induction false} InTurn(trace: seq<Sys>, events: seq<Event>, i: nat, k: nat, p: nat)
    requires IsTrace(trace, events) && i <= k < |trace| && trace[i].Inv() && p < |trace[i].ready|
    requires Turns(trace, events, i, k) <= p + 1
    ensures trace[k].Inv()
    ensures var d := Turns(trace, events, i, k);
            if d <= p then p - d < |trace[k].ready| && trace[k].ready[p - d] == trace[i].ready[p]
            else k > i && (Turns(trace, events, i, k - 1) == p ==> trace[k].cur == trace[i].ready[p])
    decreases k
  {
    hide Sys.Inv, Follows, Turn;
    if i < k {
      InTurn(trace, events, i, k - 1, p);
      assert FollowsAt(trace, events, k - 1);
      FollowsKeeps(trace[k - 1], events[k - 1], trace[k]);
      var d := Turns(trace, events, i, k - 1);
      if d <= p {
        QueueMoves(trace[k - 1], events[k - 1], trace[k], p - d);
      }
    }
  }

  // ---------- sleep ----------

  // The event wakes address a, itself or by an interrupt meanwhile.
  predicate Wakes(e: Event, a: nat) {
    match e
    case DoFork(_, _, _, _) => false
    case DoYield(irqs, _) => a in irqs
    case DoSleep(_, irqs, _) => a in irqs
    case DoExit(irqs, _) => a in irqs
    case DoWakeup(b) => b == a
    case DoWakeupN(b, _) => b == a
    case DoIdle(irqs) => a in irqs
  }

  ghost predicate SleepingOn(s: Sys, t: nat, a: nat) {
    t in s.sleep && SleepsOn(s.addr, t, a)
  }

  lemma WokenOther(s: Sys, b: nat, n: int, t: nat, a: nat)
    requires SleepingOn(s, t, a) && a != b
    ensures SleepingOn(Woken(s, b), t, a) && SleepingOn(SomeWoken(s, b, n), t, a)
  {
    hide Matching, Others, Reach;
    WakeupMembers(s.sleep, s.addr, b);
    var r := Reach(s.sleep, s.addr, b, n, 0);
    WakeupMembers(s.sleep[..r], s.addr, b);
    assert s.sleep == s.sleep[..r] + s.sleep[r..];
  }

  lemma {:induction false} IdleOther(s: Sys, irqs: seq<nat>, t: nat, a: nat)
    requires SleepingOn(s, t, a) && a !in irqs
    ensures SleepingOn(Idle(s, irqs), t, a)
    decreases |irqs|
  {
    hide Woken;
    if s.ready == [] && irqs != [] {
      WokenOther(s, irqs[0], 0, t, a);
      IdleOther(Woken(s, irqs[0]), irqs[1..], t, a);
    }
  }

  lemma ResumedOther(s: Sys, irqs: seq<nat>, t: nat, a: nat)
    requires s.Inv() && SleepingOn(s, t, a) && a !in irqs
    ensures SleepingOn(Resumed(s, irqs), t, a)
  {
    hide Sys.Inv, Idle;
    IdleOther(s, irqs, t, a);
    IdleKeeps(s, irqs);
    OnePlaceEach(Idle(s, irqs));
  }

  lemma SleepsOnward(s: Sys, e: Event, s': Sys, t: nat, a: nat)
    requires s.Inv() && Follows(s, e, s') && SleepingOn(s, t, a) && !Wakes(e, a)
    ensures SleepingOn(s', t, a)
  {
    hide Sys.Inv, Resumed, Woken, SomeWoken;
    OnePlaceEach(s);
    match e {
      case DoFork(u, _, _, _) => ZombiesApart(s);
      case DoYield(irqs, _) =>
        if s.cur >= 0 {
          ToReadyKeeps(s);
          ResumedOther(ToReady(s), irqs, t, a);
        }
      case DoSleep(b, irqs, _) =>
        if s.cur >= 0 {
          ToSleepKeeps(s, b);
          assert t in ToSleep(s, b).sleep;
          ResumedOther(ToSleep(s, b), irqs, t, a);
        }
      case DoExit(irqs, _) =>
        if s.cur >= 0 {
          ToGraveKeeps(s);
          ResumedOther(ToGrave(s), irqs, t, a);
        }
      case DoWakeup(b) => WokenOther(s, b, 0, t, a);
      case DoWakeupN(b, n) => WokenOther(s, b, n, t, a);
      case DoIdle(irqs) =>
        if s.cur < 0 { ResumedOther(s, irqs, t, a); }
    }
  }

  // In any run a sleeper sleeps on, and so does not run, until some event
  // wakes its address.
  lemma {:induction false} SleepsUntilWoken(trace: seq<Sys>, events: seq<Event>, i: nat, k: nat, t: nat, a: nat)
    requires IsTrace(trace, events) && i <= k < |trace| && trace[i].Inv() && SleepingOn(trace[i], t, a)
    requires forall j :: i <= j < k ==> !Wakes(events[j], a)
    ensures trace[k].Inv() && SleepingOn(trace[k], t, a) && trace[k].cur != t
    decreases k
  {
    hide Sys.Inv, Follows, Wakes;
    if i < k {
      SleepsUntilWoken(trace, events, i, k - 1, t, a);
      assert FollowsAt(trace, events, k - 1);
      FollowsKeeps(trace[k - 1], events[k - 1], trace[k]);
      SleepsOnward(trace[k - 1], events[k - 1], trace[k], t, a);
    }
    OnePlaceEach(trace[k]);
  }
}
