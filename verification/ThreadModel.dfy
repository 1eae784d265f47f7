/**
 The thread system of kern/thread/thread.c as a value: where every thread
 is, and what the atomic steps do.
 */
module ThreadModel {
  // ---------- who wakes up ----------

  // The sleepers on address a, in order.
  function Matching(s: seq<nat>, addr: map<nat, nat>, a: nat): seq<nat> {
    if s == [] then []
    else Matching(s[..|s| - 1], addr, a) + if SleepsOn(addr, s[|s| - 1], a) then [s[|s| - 1]] else []
  }

  // The sleepers on other addresses, in order.
  function Others(s: seq<nat>, addr: map<nat, nat>, a: nat): seq<nat> {
    if s == [] then []
    else Others(s[..|s| - 1], addr, a) + if SleepsOn(addr, s[|s| - 1], a) then [] else [s[|s| - 1]]
  }

  predicate SleepsOn(addr: map<nat, nat>, t: nat, a: nat) {
    t in addr && addr[t] == a
  }

  lemma {:induction false} WakeupSplits(s: seq<nat>, addr: map<nat, nat>, a: nat)
    ensures multiset(Matching(s, addr, a)) + multiset(Others(s, addr, a)) == multiset(s)
  {
    if s != [] {
      WakeupSplits(s[..|s| - 1], addr, a);
      assert s == s[..|s| - 1] + [s[|s| - 1]];
    }
  }

  lemma {:induction false} WakeupMembers(s: seq<nat>, addr: map<nat, nat>, a: nat)
    ensures forall t :: t in Matching(s, addr, a) <==> t in s && SleepsOn(addr, t, a)
    ensures forall t :: t in Others(s, addr, a) <==> t in s && !SleepsOn(addr, t, a)
  {
    if s != [] {
      WakeupMembers(s[..|s| - 1], addr, a);
      assert s == s[..|s| - 1] + [s[|s| - 1]];
    }
  }

  // Where the first match comes from
  lemma {:induction false} FirstMatch(s: seq<nat>, addr: map<nat, nat>, a: nat, i: nat)
    requires i < |s| && SleepsOn(addr, s[i], a) && forall j :: 0 <= j < i ==> !SleepsOn(addr, s[j], a)
    ensures Matching(s, addr, a) != [] && Matching(s, addr, a)[0] == s[i]
  {
    var n := |s| - 1;
    if i < n {
      FirstMatch(s[..n], addr, a, i);
    } else {
      NoMatch(s[..n], addr, a);
    }
  }

  lemma {:induction false} NoMatch(s: seq<nat>, addr: map<nat, nat>, a: nat)
    requires forall j :: 0 <= j < |s| ==> !SleepsOn(addr, s[j], a)
    ensures Matching(s, addr, a) == []
  {
    if s != [] {
      NoMatch(s[..|s| - 1], addr, a);
    }
  }

  lemma StepSplits(s: seq<nat>, addr: map<nat, nat>, a: nat, p: nat)
    requires p < |s|
    ensures Matching(s[..p + 1], addr, a) == Matching(s[..p], addr, a) + if SleepsOn(addr, s[p], a) then [s[p]] else []
    ensures Others(s[..p + 1], addr, a) == Others(s[..p], addr, a) + if SleepsOn(addr, s[p], a) then [] else [s[p]]
  {
    assert s[..p + 1][..p] == s[..p];
  }

  // How far thread_wakeup_n looks: up to and including the first sleeper on
  // a with exactly n others before it, or to the end.
  function Reach(s: seq<nat>, addr: map<nat, nat>, a: nat, n: int, p: nat): (r: nat)
    requires p <= |s|
    ensures p <= r <= |s|
    decreases |s| - p
  {
    if p == |s| then p
    else if SleepsOn(addr, s[p], a) && |Others(s[..p], addr, a)| == n then p + 1
    else Reach(s, addr, a, n, p + 1)
  }

  function WokenN(s: seq<nat>, addr: map<nat, nat>, a: nat, n: int): seq<nat> {
    Matching(s[..Reach(s, addr, a, n, 0)], addr, a)
  }

  function AsleepN(s: seq<nat>, addr: map<nat, nat>, a: nat, n: int): seq<nat> {
    var r := Reach(s, addr, a, n, 0);
    Others(s[..r], addr, a) + s[r..]
  }

  lemma {:induction false} MatchingPrefix(s: seq<nat>, addr: map<nat, nat>, a: nat, p: nat)
    requires p <= |s|
    ensures Matching(s[..p], addr, a) <= Matching(s, addr, a)
    decreases |s|
  {
    if p == |s| {
      assert s[..p] == s;
    } else {
      MatchingPrefix(s[..|s| - 1], addr, a, p);
      assert s[..|s| - 1][..p] == s[..p];
    }
  }

  // What the search stops at.
  predicate StopsAt(s: seq<nat>, addr: map<nat, nat>, a: nat, n: int, p: nat) {
    p < |s| && SleepsOn(addr, s[p], a) && |Others(s[..p], addr, a)| == n
  }

  // The search ends just past the first place to stop at, or at the end.
  lemma {:induction false} ReachEnds(s: seq<nat>, addr: map<nat, nat>, a: nat, n: int, p: nat)
    requires p <= |s|
    ensures var r := Reach(s, addr, a, n, p);
            && (r == |s| || (r > p && StopsAt(s, addr, a, n, r - 1)))
            && forall q :: p <= q < r - 1 ==> !StopsAt(s, addr, a, n, q)
    decreases |s| - p
  {
    if p < |s| && !StopsAt(s, addr, a, n, p) {
      ReachEnds(s, addr, a, n, p + 1);
    }
  }

  lemma WokenSome(s: seq<nat>, addr: map<nat, nat>, a: nat, n: int)
    requires Matching(s, addr, a) != []
    ensures WokenN(s, addr, a, n) != []
  {
    hide Matching, Others, Reach;
    var r := Reach(s, addr, a, n, 0);
    ReachEnds(s, addr, a, n, 0);
    if r == |s| {
      assert s[..r] == s;
    } else {
      StepSplits(s, addr, a, r - 1);
    }
  }

  lemma AsleepOthers(s: seq<nat>, addr: map<nat, nat>, a: nat, n: int)
    ensures Others(AsleepN(s, addr, a, n), addr, a) == Others(s, addr, a)
  {
    hide Matching, Others, Reach;
    var r := Reach(s, addr, a, n, 0);
    assert s == s[..r] + s[r..];
    OthersConcat(s[..r], s[r..], addr, a);
    OthersConcat(Others(s[..r], addr, a), s[r..], addr, a);
    OthersTwice(s[..r], addr, a);
  }

  // thread_wakeup_n wakes a prefix of the sleepers on a, never none of some,
  // and disturbs nobody else.
  lemma WakeupNSelects(s: seq<nat>, addr: map<nat, nat>, a: nat, n: int)
    ensures WokenN(s, addr, a, n) <= Matching(s, addr, a)
    ensures Matching(s, addr, a) != [] ==> WokenN(s, addr, a, n) != []
    ensures multiset(WokenN(s, addr, a, n)) + multiset(AsleepN(s, addr, a, n)) == multiset(s)
    ensures Others(AsleepN(s, addr, a, n), addr, a) == Others(s, addr, a)
  {
    hide Matching, Others, Reach;
    var r := Reach(s, addr, a, n, 0);
    MatchingPrefix(s, addr, a, r);
    if Matching(s, addr, a) != [] { WokenSome(s, addr, a, n); }
    WakeupSplits(s[..r], addr, a);
    assert s == s[..r] + s[r..];
    AsleepOthers(s, addr, a, n);
  }

  lemma {:induction false} OthersConcat(s: seq<nat>, u: seq<nat>, addr: map<nat, nat>, a: nat)
    ensures Others(s + u, addr, a) == Others(s, addr, a) + Others(u, addr, a)
    decreases |u|
  {
    if u == [] {
      assert s + u == s;
    } else {
      OthersConcat(s, u[..|u| - 1], addr, a);
      assert (s + u)[..|s + u| - 1] == s + u[..|u| - 1];
    }
  }

  lemma {:induction false} OthersTwice(s: seq<nat>, addr: map<nat, nat>, a: nat)
    ensures Others(Others(s, addr, a), addr, a) == Others(s, addr, a)
  {
    if s != [] {
      OthersTwice(s[..|s| - 1], addr, a);
      var o, x := Others(s[..|s| - 1], addr, a), s[|s| - 1];
      OthersConcat(o, if SleepsOn(addr, x, a) then [] else [x], addr, a);
      assert o + [] == o;
    }
  }

  // Of the first p sleepers, each is on a or is not.
  lemma {:induction false} CountsAdd(s: seq<nat>, addr: map<nat, nat>, a: nat, p: nat)
    requires p <= |s|
    ensures |Matching(s[..p], addr, a)| + |Others(s[..p], addr, a)| == p
  {
    if p > 0 {
      CountsAdd(s, addr, a, p - 1);
      StepSplits(s, addr, a, p - 1);
    }
  }

  lemma {:induction false} CountsGrow(s: seq<nat>, addr: map<nat, nat>, a: nat, p: nat, q: nat)
    requires p <= q <= |s|
    ensures |Matching(s[..p], addr, a)| <= |Matching(s[..q], addr, a)|
    ensures |Others(s[..p], addr, a)| <= |Others(s[..q], addr, a)|
    decreases q
  {
    if p < q {
      CountsGrow(s, addr, a, p, q - 1);
      StepSplits(s, addr, a, q - 1);
    }
  }

  lemma {:induction false} LaterMatch(s: seq<nat>, addr: map<nat, nat>, a: nat, r: nat, e: nat) returns (q: nat)
    requires r <= e <= |s| && |Matching(s[..r], addr, a)| < |Matching(s[..e], addr, a)|
    ensures r <= q < e && SleepsOn(addr, s[q], a)
    decreases e
  {
    StepSplits(s, addr, a, e - 1);
    if SleepsOn(addr, s[e - 1], a) {
      q := e - 1;
    } else {
      q := LaterMatch(s, addr, a, r, e - 1);
    }
  }

  // When thread_wakeup_n wakes the n sleepers it is asked for, or all if
  // there are fewer. With more than n to choose from, n of the first 2n
  // sleepers are on a, the last of these 2n among them and the one before it
  // not. Else nobody on a but the last has exactly n others before it.
  ghost predicate WakesAsAsked(s: seq<nat>, addr: map<nat, nat>, a: nat, n: nat) {
    if |Matching(s, addr, a)| > n
    then n >= 1 && |s| >= 2 * n && |Matching(s[..2 * n], addr, a)| == n
         && SleepsOn(addr, s[2 * n - 1], a) && !SleepsOn(addr, s[2 * n - 2], a)
    else forall p, q :: 0 <= p < q < |s| && SleepsOn(addr, s[p], a) && SleepsOn(addr, s[q], a) ==>
           |Others(s[..p], addr, a)| != n
  }

  lemma WakeupNCounts(s: seq<nat>, addr: map<nat, nat>, a: nat, n: nat)
    ensures |WokenN(s, addr, a, n)| == (if |Matching(s, addr, a)| > n then n else |Matching(s, addr, a)|)
            <==> WakesAsAsked(s, addr, a, n)
  {
    hide Matching, Others, Reach, StopsAt;
    ReachEnds(s, addr, a, n, 0);
    if |Matching(s, addr, a)| > n {
      ManyWoken(s, addr, a, n, Reach(s, addr, a, n, 0));
    } else {
      FewWoken(s, addr, a, n, Reach(s, addr, a, n, 0));
    }
  }

  lemma ManyWoken(s: seq<nat>, addr: map<nat, nat>, a: nat, n: nat, r: nat)
    requires r <= |s| && (r == |s| || (r > 0 && StopsAt(s, addr, a, n, r - 1)))
    requires forall q :: 0 <= q < r - 1 ==> !StopsAt(s, addr, a, n, q)
    requires |Matching(s, addr, a)| > n
    ensures |Matching(s[..r], addr, a)| == n <==> WakesAsAsked(s, addr, a, n)
  {
    hide Matching, Others;
    assert s[..|s|] == s;
    if |Matching(s[..r], addr, a)| == n {
      StepSplits(s, addr, a, r - 1);
      CountsAdd(s, addr, a, r);
      assert r == 2 * n;
      StepSplits(s, addr, a, r - 2);
      assert !StopsAt(s, addr, a, n, r - 2);
    }
    if WakesAsAsked(s, addr, a, n) {
      CountsAdd(s, addr, a, 2 * n);
      StepSplits(s, addr, a, 2 * n - 1);
      StepSplits(s, addr, a, 2 * n - 2);
      assert StopsAt(s, addr, a, n, 2 * n - 1);
      if r < 2 * n {
        CountsGrow(s, addr, a, r - 1, 2 * n - 2);
      }
    }
  }

  lemma FewWoken(s: seq<nat>, addr: map<nat, nat>, a: nat, n: nat, r: nat)
    requires r <= |s| && (r == |s| || (r > 0 && StopsAt(s, addr, a, n, r - 1)))
    requires forall q :: 0 <= q < r - 1 ==> !StopsAt(s, addr, a, n, q)
    requires |Matching(s, addr, a)| <= n
    ensures |Matching(s[..r], addr, a)| == |Matching(s, addr, a)| <==> WakesAsAsked(s, addr, a, n)
  {
    hide Matching, Others;
    assert s[..|s|] == s;
    CountsGrow(s, addr, a, r, |s|);
    if |Matching(s[..r], addr, a)| < |Matching(s, addr, a)| {
      var q := LaterMatch(s, addr, a, r, |s|);
      assert SleepsOn(addr, s[r - 1], a) && SleepsOn(addr, s[q], a);
    } else {
      forall p, q | 0 <= p < q < |s| && SleepsOn(addr, s[p], a) && SleepsOn(addr, s[q], a)
        ensures |Others(s[..p], addr, a)| != n
      {
        if StopsAt(s, addr, a, n, p) {
          CountsGrow(s, addr, a, r, p + 1);
          CountsGrow(s, addr, a, p + 1, q);
          StepSplits(s, addr, a, q);
          CountsGrow(s, addr, a, q + 1, |s|);
        }
      }
    }
  }

  // The count is not what the search stops at: asked for two it may wake
  // three, and asked for none it may wake one.
  lemma WakeupNNotACount()
    ensures var addr: map<nat, nat> := map[1 := 7, 2 := 7, 3 := 7];
            WokenN([1, 2, 3], addr, 7, 2) == [1, 2, 3] && WokenN([1, 2, 3], addr, 7, 0) == [1]
  {
    var addr: map<nat, nat> := map[1 := 7, 2 := 7, 3 := 7];
    var s: seq<nat> := [1, 2, 3];
    assert s[..0] == [] && s[..1] == [1] && s[..2] == [1, 2] && s[..3] == s;
    assert [1, 2][..1] == [1];
    assert Reach(s, addr, 7, 0, 0) == 1;
    assert Reach(s, addr, 7, 2, 3) == 3;
  }

  // ---------- where every thread is ----------

  function Current(cur: int): multiset<nat> {
    if cur < 0 then multiset{} else multiset{cur}
  }

  predicate Distinct(s: seq<nat>) {
    forall i, j :: 0 <= i < j < |s| ==> s[i] != s[j]
  }

  datatype Sys = Sys(cur: int, ready: seq<nat>, sleep: seq<nat>, zomb: seq<nat>, num: nat,
                     addr: map<nat, nat>,    // t_sleepaddr; 0 is null
                     alive: set<nat>,        // forked and not exited
                     structs: set<nat>,      // thread structures not yet freed
                     started: set<nat>)      // threads that have run
  {
    // Every live thread is in exactly one place, numthreads counts them, and
    // the other thread structures are zombies, once each.
    ghost predicate Inv() {
      && -1 <= cur
      && multiset(alive) == multiset(ready) + multiset(sleep) + Current(cur)
      && multiset(structs) == multiset(alive) + multiset(zomb)
      && num == |alive| && (cur >= 0 ==> num > 0)
      && forall t :: t in structs ==> t in addr
    }
  }

  // The containers have room: the run queue for every thread once one is
  // current, and after the first fork the sleepers for every thread.
  ghost predicate Roomy(s: Sys, qsize: nat, smax: nat, forked: bool) {
    qsize >= s.num && (forked ==> smax >= s.num)
  }

  // What conservation means: the places are disjoint and no list names a
  // thread twice, numthreads is their total, and no list names a structure
  // that has been freed.
  lemma OnePlaceEach(s: Sys)
    requires s.Inv()
    ensures Distinct(s.ready) && Distinct(s.sleep)
    ensures forall t: nat :: t in s.alive <==> t in s.ready || t in s.sleep || t == s.cur
    ensures forall t :: t in s.ready ==> t !in s.sleep && t != s.cur
    ensures forall t :: t in s.sleep ==> t != s.cur
    ensures s.num == |s.ready| + |s.sleep| + if s.cur < 0 then 0 else 1
  {
    var r: multiset<nat>, p: multiset<nat>, c := multiset(s.ready), multiset(s.sleep), Current(s.cur);
    var m: multiset<nat> := multiset(s.alive);
    assert forall t: nat :: m[t] == (r + p + c)[t] == r[t] + p[t] + c[t];
    assert forall t: nat :: m[t] == if t in s.alive then 1 else 0;
    OnceDistinct(s.ready);
    OnceDistinct(s.sleep);
    assert |m| == |r| + |p| + |c|;
    assert forall t: nat :: (t in s.ready <==> r[t] >= 1) && (t in s.sleep <==> p[t] >= 1);
    assert forall t: nat :: t == s.cur <==> c[t] >= 1;
  }

  // Zombies are thread structures of no live thread, once each.
  lemma ZombiesApart(s: Sys)
    requires s.Inv()
    ensures Distinct(s.zomb) && forall z :: z in s.zomb ==> z !in s.alive
    ensures forall t :: t in s.structs <==> t in s.alive || t in s.zomb
  {
    var z: multiset<nat>, l: multiset<nat>, m: multiset<nat> := multiset(s.zomb), multiset(s.alive),
      multiset(s.structs);
    assert forall t: nat :: m[t] == (l + z)[t] == l[t] + z[t];
    assert forall t: nat :: m[t] == if t in s.structs then 1 else 0;
    assert forall t: nat :: l[t] == if t in s.alive then 1 else 0;
    OnceDistinct(s.zomb);
    assert forall t: nat :: t in s.zomb <==> z[t] >= 1;
  }

  lemma {:induction false} OnceDistinct(s: seq<nat>)
    requires forall t: nat :: multiset(s)[t] <= 1
    ensures Distinct(s)
  {
    if s != [] {
      var u: seq<nat>, x: nat := s[..|s| - 1], s[|s| - 1];
      assert s == u + [x];
      assert multiset(s) == multiset(u) + multiset{x};
      assert forall t: nat :: multiset(u)[t] <= multiset(s)[t];
      OnceDistinct(u);
      assert multiset(u)[x] == 0;
      assert x !in u;
    }
  }

  // ---------- the atomic steps ----------

  function Started(me: nat): Sys {
    Sys(me, [], [], [], 1, map[me := 0], {me}, {me}, {me})
  }

  // The current thread goes to the run queue, to sleep or to the grave.
  function ToReady(s: Sys): Sys
    requires s.cur >= 0
  {
    s.(cur := -1, ready := s.ready + [s.cur])
  }

  function ToSleep(s: Sys, a: nat): Sys
    requires s.cur >= 0
  {
    s.(cur := -1, sleep := s.sleep + [s.cur], addr := s.addr[s.cur := a])
  }

  function ToGrave(s: Sys): Sys
    requires s.cur >= 0 && s.num > 0
  {
    s.(cur := -1, zomb := s.zomb + [s.cur], num := s.num - 1, alive := s.alive - {s.cur})
  }

  datatype State = S_READY | S_SLEEP | S_ZOMB

  function PutAway(s: Sys, next: State, a: nat): Sys
    requires s.cur >= 0 && s.num > 0
  {
    match next
    case S_READY => ToReady(s)
    case S_SLEEP => ToSleep(s, a)
    case S_ZOMB => ToGrave(s)
  }

  lemma PutAwayKeeps(s: Sys, next: State, a: nat)
    requires s.Inv() && s.cur >= 0
    ensures s.num > 0 && PutAway(s, next, a).Inv() && PutAway(s, next, a).num <= s.num
  {
    hide Sys.Inv;
    CurrentAlive(s);
    ToReadyKeeps(s);
    ToSleepKeeps(s, a);
    ToGraveKeeps(s);
  }

  // The head of the run queue runs; if it slept, it clears its address.
  function Dispatched(s: Sys): Sys
    requires s.ready != []
  {
    s.(cur := s.ready[0], ready := s.ready[1..], addr := s.addr[s.ready[0] := 0], started := s.started + {s.ready[0]})
  }

  // exorcise
  function Exorcised(s: Sys): Sys {
    s.(zomb := [], structs := s.structs - (set z | z in s.zomb))
  }

  // thread_fork
  function Born(s: Sys, t: nat): Sys {
    s.(ready := s.ready + [t], num := s.num + 1, alive := s.alive + {t}, structs := s.structs + {t},
       addr := s.addr[t := 0], started := s.started - {t})
  }

  // Some sleepers join the run queue and the rest stay asleep.
  function Moved(s: Sys, woken: seq<nat>, asleep: seq<nat>): Sys {
    s.(ready := s.ready + woken, sleep := asleep)
  }

  // thread_wakeup and thread_wakeup_n
  function Woken(s: Sys, a: nat): Sys {
    Moved(s, Matching(s.sleep, s.addr, a), Others(s.sleep, s.addr, a))
  }

  function SomeWoken(s: Sys, a: nat, n: int): Sys {
    Moved(s, WokenN(s.sleep, s.addr, a, n), AsleepN(s.sleep, s.addr, a, n))
  }

  // The idle loop: interrupts wake sleepers until something is ready.
  function Idle(s: Sys, irqs: seq<nat>): Sys
    decreases |irqs|
  {
    if s.ready != [] || irqs == [] then s else Idle(Woken(s, irqs[0]), irqs[1..])
  }

  // The rest of mi_switch once the current thread is put away: what runs
  // next, if anything is ready, and what it does first. A thread that runs
  // for the first time does not come back through mi_switch.
  function Resumed(s: Sys, irqs: seq<nat>): Sys {
    var i := Idle(s, irqs);
    if i.ready == [] then i
    else if i.ready[0] in i.started then Exorcised(Dispatched(i))
    else Dispatched(i)
  }

  lemma CurrentAlive(s: Sys)
    requires s.Inv() && s.cur >= 0
    ensures s.cur in s.alive && s.num > 0 && s.cur !in s.zomb && |s.ready| + |s.sleep| + 1 == s.num
  {
    OnePlaceEach(s);
    ZombiesApart(s);
  }

  lemma StartedKeeps(me: nat)
    ensures Started(me).Inv()
  {}

  lemma ToReadyKeeps(s: Sys)
    requires s.Inv() && s.cur >= 0
    ensures ToReady(s).Inv()
  {}

  lemma ToSleepKeeps(s: Sys, a: nat)
    requires s.Inv() && s.cur >= 0
    ensures ToSleep(s, a).Inv()
  {}

  lemma ToGraveKeeps(s: Sys)
    requires s.Inv() && s.cur >= 0
    ensures s.num > 0 && ToGrave(s).Inv()
  {
    CurrentAlive(s);
    var s', r: multiset<nat>, p: multiset<nat> := ToGrave(s), multiset(s.ready), multiset(s.sleep);
    assert multiset(s'.alive) == multiset(s.alive) - Current(s.cur);
    assert multiset(s.alive) - Current(s.cur) == r + p;
    assert multiset(s'.zomb) == multiset(s.zomb) + Current(s.cur);
    assert multiset(s.alive) == multiset(s'.alive) + Current(s.cur);
  }

  // What runs next was ready, so it is no zombie.
  lemma DispatchedKeeps(s: Sys)
    requires s.Inv() && s.cur < 0 && s.ready != []
    ensures Dispatched(s).Inv() && Dispatched(s).cur in s.alive && Dispatched(s).cur !in s.zomb
  {
    var s' := Dispatched(s);
    assert s.ready == [s.ready[0]] + s.ready[1..];
    assert s'.alive == s.alive && s.ready[0] in s.ready;
    OnePlaceEach(s);
    ZombiesApart(s);
  }

  lemma ExorcisedKeeps(s: Sys)
    requires s.Inv()
    ensures Exorcised(s).Inv() && Exorcised(s).cur == s.cur
  {
    ZombiesApart(s);
    assert Exorcised(s).structs == s.alive;
  }

  lemma BornKeeps(s: Sys, t: nat)
    requires s.Inv() && t !in s.structs
    ensures Born(s, t).Inv()
  {
    hide Distinct;
    ZombiesApart(s);
    SetPlus(s.alive, t);
    SetPlus(s.structs, t);
    assert multiset(s.ready + [t]) == multiset(s.ready) + multiset{t};
  }

  lemma SetPlus(s: set<nat>, t: nat)
    requires t !in s
    ensures multiset(s + {t}) == multiset(s) + multiset{t}
  {}

  lemma MovedKeeps(s: Sys, woken: seq<nat>, asleep: seq<nat>)
    requires s.Inv() && multiset(woken) + multiset(asleep) == multiset(s.sleep)
    ensures Moved(s, woken, asleep).Inv()
  {
    assert multiset(s.ready + woken) == multiset(s.ready) + multiset(woken);
  }

  lemma WokenKeeps(s: Sys, a: nat)
    requires s.Inv()
    ensures Woken(s, a).Inv() && Woken(s, a).cur == s.cur
  {
    hide Sys.Inv;
    WakeupSplits(s.sleep, s.addr, a);
    MovedKeeps(s, Matching(s.sleep, s.addr, a), Others(s.sleep, s.addr, a));
  }

  lemma SomeWokenKeeps(s: Sys, a: nat, n: int)
    requires s.Inv()
    ensures SomeWoken(s, a, n).Inv()
  {
    hide Sys.Inv;
    WakeupNSelects(s.sleep, s.addr, a, n);
    MovedKeeps(s, WokenN(s.sleep, s.addr, a, n), AsleepN(s.sleep, s.addr, a, n));
  }

  lemma {:induction false} IdleKeeps(s: Sys, irqs: seq<nat>)
    requires s.Inv()
    ensures Idle(s, irqs).Inv() && Idle(s, irqs).cur == s.cur && Idle(s, irqs).num == s.num &&
            Idle(s, irqs).zomb == s.zomb
    ensures Idle(s, irqs).alive == s.alive
    decreases |irqs|
  {
    hide Sys.Inv;
    if s.ready == [] && irqs != [] {
      WokenKeeps(s, irqs[0]);
      IdleKeeps(Woken(s, irqs[0]), irqs[1..]);
    }
  }

  lemma ResumedKeeps(s: Sys, irqs: seq<nat>)
    requires s.Inv() && s.cur < 0
    ensures Resumed(s, irqs).Inv() && Resumed(s, irqs).num == s.num && Resumed(s, irqs).alive == s.alive
  {
    hide Sys.Inv;
    IdleKeeps(s, irqs);
    var i := Idle(s, irqs);
    if i.ready != [] {
      DispatchedKeeps(i);
      ExorcisedKeeps(Dispatched(i));
    }
  }

  // The thread that exits is not what runs next.
  lemma NobodyBackFromTheDead(s: Sys, irqs: seq<nat>)
    requires s.Inv() && s.cur >= 0 && s.num > 0
    ensures Resumed(ToGrave(s), irqs).cur != s.cur
  {
    hide Sys.Inv, Resumed;
    ToGraveKeeps(s);
    ResumedKeeps(ToGrave(s), irqs);
    if Resumed(ToGrave(s), irqs).cur >= 0 {
      CurrentAlive(Resumed(ToGrave(s), irqs));
    }
  }

  // Yielding overfills the run queue exactly when as many threads can run
  // as it has slots.
  lemma YieldGrows(s: Sys, qsize: nat)
    requires s.Inv() && s.cur >= 0
    ensures |s.ready| + 1 == qsize <==> s.num - |s.sleep| == qsize
  {
    OnePlaceEach(s);
  }

  // ---------- round robin ----------

  datatype QueueEvent = Append(t: nat) | Next

  // What scheduler calls return, in order, while threads are made runnable.
  function Served(q: seq<nat>, es: seq<QueueEvent>): seq<nat>
    decreases |es|
  {
    if es == [] then []
    else match es[0]
      case Append(t) => Served(q + [t], es[1..])
      case Next => if q == [] then Served(q, es[1..]) else [q[0]] + Served(q[1..], es[1..])
  }

  // A thread with k threads ahead of it is what the call after k others returns.
  lemma {:induction false} RoundRobin(q: seq<nat>, es: seq<QueueEvent>, k: nat)
    requires k < |q| && k < |Served(q, es)|
    ensures Served(q, es)[k] == q[k]
    decreases |es|
  {
    if es[0].Append? {
      RoundRobin(q + [es[0].t], es[1..], k);
    } else if k > 0 {
      RoundRobin(q[1..], es[1..], k - 1);
    }
  }
}
