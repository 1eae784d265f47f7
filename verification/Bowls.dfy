/**
 The bowl protocol of kern/asst1/catmouse.c with the checks of
 kern/asst1/bowls.c: a counting semaphore lets as many animals past as there
 are bowls, and each takes a bowl number off a locked list. Any number of
 cats and mice go through it in any interleaving. Cats and mice may meet:
 that check stops the simulation and is not excluded here.
 */
module Bowls {
  // Where an animal is in its loop.
  datatype Phase =
    | Outside            // before P(MaxBowlCount)
    | Admitted           // past it, without a bowl
    | Holding(bowl: nat) // took a bowl number
    | Eating(bowl: nat)  // inside cat_eat or mouse_eat, between its two halves
    | Fed(bowl: nat)     // out of cat_eat or mouse_eat
    | Returned           // bowl number back on the list, before V

  predicate HasBowl(p: Phase) {
    p.Holding? || p.Eating? || p.Fed?
  }

  // ---------- counting animals ----------

  function One(b: bool): nat {
    if b then 1 else 0
  }

  // Animals between P and V.
  ghost function Inside(ph: seq<Phase>): nat {
    if ph == [] then 0 else Inside(ph[..|ph| - 1]) + One(!ph[|ph| - 1].Outside?)
  }

  // Animals of one kind that eat.
  ghost function Feeding(ph: seq<Phase>, cats: seq<bool>, cat: bool): nat
    requires |ph| == |cats|
  {
    if ph == [] then 0
    else Feeding(ph[..|ph| - 1], cats[..|ph| - 1], cat) + One(ph[|ph| - 1].Eating? && cats[|ph| - 1] == cat)
  }

  // The bowls that animals have, each as often as it is had.
  ghost function Held(ph: seq<Phase>): multiset<nat> {
    if ph == [] then multiset{} else Held(ph[..|ph| - 1]) + Bag(ph[|ph| - 1])
  }

  function Bag(p: Phase): multiset<nat> {
    if HasBowl(p) then multiset{p.bowl} else multiset{}
  }

  lemma {:induction false} InsideUpdate(ph: seq<Phase>, i: nat, p: Phase)
    requires i < |ph|
    ensures Inside(ph[i := p]) + One(!ph[i].Outside?) == Inside(ph) + One(!p.Outside?)
  {
    var n := |ph| - 1;
    if i < n {
      InsideUpdate(ph[..n], i, p);
      assert ph[i := p][..n] == ph[..n][i := p];
    } else {
      assert ph[i := p][..n] == ph[..n];
    }
  }

  lemma {:induction false} FeedingUpdate(ph: seq<Phase>, cats: seq<bool>, cat: bool, i: nat, p: Phase)
    requires i < |ph| == |cats|
    ensures Feeding(ph[i := p], cats, cat) + One(ph[i].Eating? && cats[i] == cat) ==
            Feeding(ph, cats, cat) + One(p.Eating? && cats[i] == cat)
  {
    var n := |ph| - 1;
    if i < n {
      FeedingUpdate(ph[..n], cats[..n], cat, i, p);
      assert ph[i := p][..n] == ph[..n][i := p];
    } else {
      assert ph[i := p][..n] == ph[..n];
    }
  }

  lemma {:induction false} HeldUpdate(ph: seq<Phase>, i: nat, p: Phase)
    requires i < |ph|
    ensures Held(ph[i := p]) + Bag(ph[i]) == Held(ph) + Bag(p)
  {
    hide Bag;
    var n := |ph| - 1;
    if i < n {
      HeldUpdate(ph[..n], i, p);
      assert ph[i := p][..n] == ph[..n][i := p];
      Swap(Held(ph[..n][i := p]), Bag(ph[n]), Bag(ph[i]));
      Swap(Held(ph[..n]), Bag(ph[n]), Bag(p));
    } else {
      assert ph[i := p][..n] == ph[..n];
      Swap(Held(ph[..n]), Bag(p), Bag(ph[i]));
    }
  }

  lemma Swap(a: multiset<nat>, b: multiset<nat>, c: multiset<nat>)
    ensures a + b + c == a + c + b
  {}

  // Animals with bowls are between P and V.
  lemma {:induction false} HeldInside(ph: seq<Phase>)
    ensures |Held(ph)| <= Inside(ph)
    ensures (exists i :: 0 <= i < |ph| && (ph[i].Admitted? || ph[i].Returned?)) ==> |Held(ph)| < Inside(ph)
  {
    if ph != [] {
      HeldInside(ph[..|ph| - 1]);
    }
  }

  // Two animals with one bowl show in the bag.
  lemma {:induction false} HeldTwice(ph: seq<Phase>, i: nat, j: nat)
    requires i < j < |ph| && HasBowl(ph[i]) && HasBowl(ph[j]) && ph[i].bowl == ph[j].bowl
    ensures Held(ph)[ph[i].bowl] >= 2
  {
    hide Bag;
    var n, b := |ph| - 1, ph[i].bowl;
    Added(Held(ph[..n]), Bag(ph[n]), b);
    if j < n {
      HeldTwice(ph[..n], i, j);
    } else {
      HeldOnce(ph[..n], i);
      InBag(ph[n]);
    }
  }

  lemma {:induction false} HeldOnce(ph: seq<Phase>, i: nat)
    requires i < |ph| && HasBowl(ph[i])
    ensures Held(ph)[ph[i].bowl] >= 1
  {
    hide Bag;
    var n := |ph| - 1;
    Added(Held(ph[..n]), Bag(ph[n]), ph[i].bowl);
    if i < n {
      HeldOnce(ph[..n], i);
    } else {
      InBag(ph[n]);
    }
  }

  lemma Added(a: multiset<nat>, b: multiset<nat>, x: nat)
    ensures (a + b)[x] == a[x] + b[x]
  {}

  lemma InBag(p: Phase)
    requires HasBowl(p)
    ensures Bag(p)[p.bowl] == 1
  {}

  // The bowl numbers 1..n, once each.
  ghost function Numbers(n: nat): multiset<nat> {
    if n == 0 then multiset{} else Numbers(n - 1) + multiset{n}
  }

  lemma {:induction false} NumbersOnce(n: nat)
    ensures |Numbers(n)| == n && forall b: nat :: Numbers(n)[b] == One(1 <= b <= n)
  {
    if n > 0 {
      NumbersOnce(n - 1);
    }
  }

  // ---------- the invariant ----------

  // Every bowl number is on the list or with an animal, once.
  ghost predicate Shared(n: nat, free: seq<nat>, ph: seq<Phase>) {
    multiset(free) + Held(ph) == Numbers(n)
  }

  // A bowl shows who eats from it.
  ghost predicate Shown(n: nat, bowls: seq<char>, ph: seq<Phase>, cats: seq<bool>) {
    && |bowls| == n && |cats| == |ph|
    && (forall i :: 0 <= i < |ph| && ph[i].Eating? ==> 1 <= ph[i].bowl <= n && bowls[ph[i].bowl - 1] == Letter(cats[i]))
    && (forall b :: 0 <= b < n && bowls[b] != '-' ==> EatenFrom(ph, b + 1))
  }

  ghost predicate EatenFrom(ph: seq<Phase>, b: nat) {
    exists i :: 0 <= i < |ph| && ph[i] == Eating(b)
  }

  function Letter(cat: bool): char {
    if cat then 'c' else 'm'
  }

  // No two animals have one bowl, no bowl had is on the list, and an animal
  // between P and its bowl finds the list non-empty.
  lemma BowlsExclusive(n: nat, count: nat, free: seq<nat>, ph: seq<Phase>, i: nat)
    requires Shared(n, free, ph) && count + Inside(ph) == n && i < |ph|
    ensures HasBowl(ph[i]) ==> 1 <= ph[i].bowl <= n && ph[i].bowl !in free
    ensures HasBowl(ph[i]) ==> forall j :: 0 <= j < |ph| && j != i && HasBowl(ph[j]) ==> ph[j].bowl != ph[i].bowl
    ensures forall k :: 0 <= k < |free| ==> 1 <= free[k] <= n
    ensures ph[i].Admitted? || ph[i].Returned? ==> |free| > 0
    ensures |free| == n - |Held(ph)|
  {
    NumbersOnce(n);
    HeldInside(ph);
    var f: multiset<nat>, h := multiset(free), Held(ph);
    assert |f + h| == |f| + |h|;
    forall b: nat
      ensures f[b] + h[b] == One(1 <= b <= n)
    {
      assert (f + h)[b] == f[b] + h[b];
    }
    forall k | 0 <= k < |free|
      ensures 1 <= free[k] <= n
    {
      assert free[k] in f;
    }
    if HasBowl(ph[i]) {
      HeldOnce(ph, i);
      assert f[ph[i].bowl] == 0;
      forall j | 0 <= j < |ph| && j != i && HasBowl(ph[j])
        ensures ph[j].bowl != ph[i].bowl
      {
        if ph[j].bowl == ph[i].bowl {
          if i < j { HeldTwice(ph, i, j); } else { HeldTwice(ph, j, i); }
        }
      }
    }
  }

  lemma FeedingSome(ph: seq<Phase>, cats: seq<bool>, i: nat)
    requires i < |ph| == |cats| && ph[i].Eating?
    ensures Feeding(ph, cats, cats[i]) > 0
  {
    FeedingUpdate(ph, cats, cats[i], i, Outside);
  }

  // Nobody eats from a bowl that an animal has and does not eat from.
  lemma BowlUntouched(n: nat, count: nat, free: seq<nat>, bowls: seq<char>, ph: seq<Phase>, cats: seq<bool>, i: nat)
    requires Shared(n, free, ph) && count + Inside(ph) == n && Shown(n, bowls, ph, cats) && i < |ph| && ph[i].Holding?
    ensures 1 <= ph[i].bowl <= n && bowls[ph[i].bowl - 1] == '-'
  {
    BowlsExclusive(n, count, free, ph, i);
  }

  lemma EatenStays(ph: seq<Phase>, i: nat, p: Phase, b: nat)
    requires i < |ph| && ph[i] != Eating(b) && EatenFrom(ph, b)
    ensures EatenFrom(ph[i := p], b)
  {
    var j :| 0 <= j < |ph| && ph[j] == Eating(b);
    assert ph[i := p][j] == Eating(b);
  }

  // A bowl starts or stops showing its eater.
  lemma ShownBegin(n: nat, bowls: seq<char>, ph: seq<Phase>, cats: seq<bool>, i: nat)
    requires Shown(n, bowls, ph, cats) && i < |ph| && ph[i].Holding? && 1 <= ph[i].bowl <= n &&
             bowls[ph[i].bowl - 1] == '-'
    ensures Shown(n, bowls[ph[i].bowl - 1 := Letter(cats[i])], ph[i := Eating(ph[i].bowl)], cats)
  {
    hide EatenFrom;
    var b := ph[i].bowl;
    var bowls', ph' := bowls[b - 1 := Letter(cats[i])], ph[i := Eating(b)];
    forall c | 0 <= c < n && bowls'[c] != '-'
      ensures EatenFrom(ph', c + 1)
    {
      if c == b - 1 { EatsNow(ph', i); } else { EatenStays(ph, i, Eating(b), c + 1); }
    }
    forall j | 0 <= j < |ph'| && ph'[j].Eating?
      ensures 1 <= ph'[j].bowl <= n && bowls'[ph'[j].bowl - 1] == Letter(cats[j])
    {}
  }

  lemma EatsNow(ph: seq<Phase>, i: nat)
    requires i < |ph| && ph[i].Eating?
    ensures EatenFrom(ph, ph[i].bowl)
  {}

  lemma ShownEnd(n: nat, bowls: seq<char>, ph: seq<Phase>, cats: seq<bool>, i: nat)
    requires Shown(n, bowls, ph, cats) && i < |ph| && ph[i].Eating?
    requires forall j :: 0 <= j < |ph| && j != i && HasBowl(ph[j]) ==> ph[j].bowl != ph[i].bowl
    ensures 1 <= ph[i].bowl <= n && Shown(n, bowls[ph[i].bowl - 1 := '-'], ph[i := Fed(ph[i].bowl)], cats)
  {
    hide EatenFrom;
    var b := ph[i].bowl;
    var bowls', ph' := bowls[b - 1 := '-'], ph[i := Fed(b)];
    forall c | 0 <= c < n && bowls'[c] != '-'
      ensures EatenFrom(ph', c + 1)
    {
      EatenStays(ph, i, Fed(b), c + 1);
    }
    forall j | 0 <= j < |ph'| && ph'[j].Eating?
      ensures 1 <= ph'[j].bowl <= n && bowls'[ph'[j].bowl - 1] == Letter(cats[j])
    {
      assert ph'[j] == ph[j] && HasBowl(ph[j]);
    }
  }

  // Moves of an animal that does not eat before or after.
  lemma ShownSame(n: nat, bowls: seq<char>, ph: seq<Phase>, cats: seq<bool>, i: nat, p: Phase)
    requires Shown(n, bowls, ph, cats) && i < |ph| && !ph[i].Eating? && !p.Eating?
    ensures Shown(n, bowls, ph[i := p], cats)
  {
    hide EatenFrom;
    var ph' := ph[i := p];
    forall c | 0 <= c < n && bowls[c] != '-'
      ensures EatenFrom(ph', c + 1)
    {
      EatenStays(ph, i, p, c + 1);
    }
  }

  lemma SharedStay(n: nat, free: seq<nat>, ph: seq<Phase>, i: nat, p: Phase)
    requires Shared(n, free, ph) && i < |ph| && HasBowl(p) == HasBowl(ph[i]) && (HasBowl(p) ==> p.bowl == ph[i].bowl)
    ensures Shared(n, free, ph[i := p])
  {
    hide Held;
    HeldUpdate(ph, i, p);
    assert Held(ph[i := p]) == Held(ph[i := p]) + Bag(ph[i]) - Bag(ph[i]);
    assert Held(ph) == Held(ph) + Bag(p) - Bag(p);
  }

  lemma SharedTake(n: nat, free: seq<nat>, ph: seq<Phase>, i: nat)
    requires Shared(n, free, ph) && i < |ph| && !HasBowl(ph[i]) && free != []
    ensures Shared(n, free[1..], ph[i := Holding(free[0])])
  {
    hide Held;
    HeldUpdate(ph, i, Holding(free[0]));
    var one: multiset<nat>, rest: multiset<nat>, h := multiset{free[0]}, multiset(free[1..]), Held(ph);
    assert multiset(free) == one + rest by { assert free == [free[0]] + free[1..]; }
    assert Held(ph[i := Holding(free[0])]) == h + one;
    Rotate(rest, h, one);
  }

  lemma SharedGive(n: nat, free: seq<nat>, ph: seq<Phase>, i: nat)
    requires Shared(n, free, ph) && i < |ph| && ph[i].Fed?
    ensures Shared(n, free + [ph[i].bowl], ph[i := Returned])
  {
    hide Held;
    HeldUpdate(ph, i, Returned);
    var one: multiset<nat>, f: multiset<nat>, h := multiset{ph[i].bowl}, multiset(free), Held(ph[i := Returned]);
    assert multiset(free + [ph[i].bowl]) == f + one;
    assert Held(ph) == h + one;
    Rotate(f, h, one);
  }

  lemma Rotate(a: multiset<nat>, b: multiset<nat>, c: multiset<nat>)
    ensures a + (b + c) == (c + a) + b == (a + c) + b
  {}

  // ---------- the simulation ----------

  class Simulation {
    const n: nat                // NumBowls
    const cats: seq<bool>       // which animals are cats
    var count: nat              // of MaxBowlCount
    var free: seq<nat>          // FreeBowlsList
    const bowls: array<char>
    var eatingCats: nat         // as bowls.c counts them
    var eatingMice: nat
    var ph: seq<Phase>

    ghost predicate Valid()
      reads this, bowls
    {
      && |ph| == |cats| && bowls.Length == n
      && count + Inside(ph) == n && Shared(n, free, ph) && Shown(n, bowls[..], ph, cats)
      && eatingCats == Feeding(ph, cats, true) && eatingMice == Feeding(ph, cats, false)
    }

    ghost function S(): Scene
      reads this
    {
      Scene(count, free, ph)
    }

    // The setup in catmouse and initialize_bowls
    constructor (n: nat, cats: seq<bool>)
      ensures Valid() && fresh(bowls) && this.n == n && this.cats == cats && Proper(n, cats, S())
      ensures count == n && (forall i :: 0 <= i < |ph| ==> ph[i] == Outside) && |free| == n &&
              forall k :: 0 <= k < n ==> free[k] == k + 1
    {
      this.n, this.cats := n, cats;
      count, eatingCats, eatingMice := n, 0, 0;
      bowls := new char[n](_ => '-');
      ph := seq(|cats|, _ => Outside);
      free := [];
      new;
      hide Inside, Feeding, Held, Shared, Shown;
      AllOutside(ph, cats);
      Fill();
      SetUp(n, free, bowls[..], ph, cats);
    }

    // Every bowl number goes on the list.
    method Fill()
      modifies this`free
      requires free == []
      ensures multiset(free) == Numbers(n) && |free| == n && forall k :: 0 <= k < n ==> free[k] == k + 1
    {
      for b := 1 to n + 1
        invariant multiset(free) == Numbers(b - 1) && |free| == b - 1
        invariant forall k :: 0 <= k < b - 1 ==> free[k] == k + 1
      {
        free := free + [b];
      }
    }

    // P(MaxBowlCount), when it does not block
    method Down(i: nat)
      requires Valid() && i < |ph| && ph[i].Outside? && count > 0
      modifies this
      ensures Valid() && ph == old(ph)[i := Admitted] && count == old(count) - 1 && free == old(free)
    {
      hide Shown, Inside, Feeding, Shared;
      Moves(n, bowls[..], ph, cats, i, Admitted);
      SharedStay(n, free, ph, i, Admitted);
      count := count - 1;
      ph := ph[i := Admitted];
    }

    // Taking a bowl number: the list is not empty.
    method Take(i: nat)
      requires Valid() && i < |ph| && ph[i].Admitted?
      modifies this
      ensures Valid() && old(free) != [] && free == old(free)[1..] && ph == old(ph)[i := Holding(old(free)[0])] &&
              count == old(count)
      ensures 1 <= ph[i].bowl <= n
    {
      hide Shown, Inside, Feeding, Shared;
      BowlsExclusive(n, count, free, ph, i);
      var bowl := free[0];
      assert 1 <= bowl <= n;
      Moves(n, bowls[..], ph, cats, i, Holding(bowl));
      SharedTake(n, free, ph, i);
      free := free[1..];
      ph := ph[i := Holding(bowl)];
    }

    // The first half of cat_eat and mouse_eat. True if the other kind eats
    // already, which stops the simulation.
    method BeginEat(i: nat) returns (stop: bool)
      requires Valid() && i < |ph| && ph[i].Holding?
      modifies this, bowls
      ensures Valid() && free == old(free) && count == old(count)
      ensures stop == if cats[i] then old(eatingMice) > 0 else old(eatingCats) > 0
      ensures stop ==> unchanged(this) && unchanged(bowls)
      ensures !stop ==> ph == old(ph)[i := Eating(old(ph[i].bowl))]
    {
      hide Shown, Inside, Feeding, Shared;
      BowlUntouched(n, count, free, bowls[..], ph, cats, i);
      var b := ph[i].bowl;
      SameLengths(n, bowls[..], ph, cats);
      assert bowls[b - 1] != Letter(cats[i]);
      if (if cats[i] then eatingMice > 0 else eatingCats > 0) {
        return true;
      }
      assert bowls[b - 1] == '-';
      ShownBegin(n, bowls[..], ph, cats, i);
      Counts(ph, cats, i, Eating(b));
      SharedStay(n, free, ph, i, Eating(b));
      ghost var shown := bowls[..];
      if cats[i] {
        eatingCats := eatingCats + 1;
      } else {
        eatingMice := eatingMice + 1;
      }
      bowls[b - 1] := Letter(cats[i]);
      assert bowls[..] == shown[b - 1 := Letter(cats[i])];
      ph := ph[i := Eating(b)];
      return false;
    }

    // The second half of cat_eat and mouse_eat
    method EndEat(i: nat)
      requires Valid() && i < |ph| && ph[i].Eating?
      modifies this, bowls
      ensures Valid() && free == old(free) && count == old(count) && ph == old(ph)[i := Fed(old(ph[i].bowl))]
    {
      hide Shown, Inside, Feeding, Shared;
      var b := ph[i].bowl;
      BowlsExclusive(n, count, free, ph, i);
      ShownAt(n, bowls[..], ph, cats, i);
      FeedingSome(ph, cats, i);
      assert if cats[i] then eatingCats > 0 else eatingMice > 0;
      assert bowls[b - 1] == Letter(cats[i]);
      ShownEnd(n, bowls[..], ph, cats, i);
      Counts(ph, cats, i, Fed(b));
      SharedStay(n, free, ph, i, Fed(b));
      ghost var shown := bowls[..];
      if cats[i] {
        eatingCats := eatingCats - 1;
      } else {
        eatingMice := eatingMice - 1;
      }
      bowls[b - 1] := '-';
      assert bowls[..] == shown[b - 1 := '-'];
      ph := ph[i := Fed(b)];
    }

    // Putting the bowl number back
    method GiveBack(i: nat)
      requires Valid() && i < |ph| && ph[i].Fed?
      modifies this
      ensures Valid() && free == old(free) + [old(ph[i].bowl)] && ph == old(ph)[i := Returned] && count == old(count)
    {
      hide Shown, Inside, Feeding, Shared;
      Moves(n, bowls[..], ph, cats, i, Returned);
      SharedGive(n, free, ph, i);
      free := free + [ph[i].bowl];
      ph := ph[i := Returned];
    }

    // V(MaxBowlCount)
    method Up(i: nat)
      requires Valid() && i < |ph| && ph[i].Returned?
      modifies this
      ensures Valid() && free == old(free) && ph == old(ph)[i := Outside] && count == old(count) + 1
    {
      hide Shown, Inside, Feeding, Shared;
      Moves(n, bowls[..], ph, cats, i, Outside);
      SharedStay(n, free, ph, i, Outside);
      count := count + 1;
      ph := ph[i := Outside];
    }
  }

  lemma {:induction false} AllOutside(ph: seq<Phase>, cats: seq<bool>)
    requires |ph| == |cats| && forall i :: 0 <= i < |ph| ==> ph[i] == Outside
    ensures Inside(ph) == 0 && Held(ph) == multiset{} && Feeding(ph, cats, true) == 0 && Feeding(ph, cats, false) == 0
  {
    if ph != [] {
      AllOutside(ph[..|ph| - 1], cats[..|ph| - 1]);
    }
  }

  // Nobody has a bowl, and every bowl is empty and on the list.
  lemma SetUp(n: nat, free: seq<nat>, bowls: seq<char>, ph: seq<Phase>, cats: seq<bool>)
    requires |ph| == |cats| && |bowls| == n && Held(ph) == multiset{} && multiset(free) == Numbers(n)
    requires (forall i :: 0 <= i < |ph| ==> ph[i] == Outside) && forall b :: 0 <= b < n ==> bowls[b] == '-'
    ensures Shared(n, free, ph) && Shown(n, bowls, ph, cats)
  {
    hide Held, Numbers;
  }

  lemma Counts(ph: seq<Phase>, cats: seq<bool>, i: nat, p: Phase)
    requires i < |ph| == |cats|
    ensures Inside(ph[i := p]) + One(!ph[i].Outside?) == Inside(ph) + One(!p.Outside?)
    ensures Feeding(ph[i := p], cats, true) + One(ph[i].Eating? && cats[i]) ==
            Feeding(ph, cats, true) + One(p.Eating? && cats[i])
    ensures Feeding(ph[i := p], cats, false) + One(ph[i].Eating? && !cats[i]) ==
            Feeding(ph, cats, false) + One(p.Eating? && !cats[i])
  {
    hide Inside, Feeding;
    InsideUpdate(ph, i, p);
    FeedingUpdate(ph, cats, true, i, p);
    FeedingUpdate(ph, cats, false, i, p);
  }

  lemma Moves(n: nat, bowls: seq<char>, ph: seq<Phase>, cats: seq<bool>, i: nat, p: Phase)
    requires Shown(n, bowls, ph, cats) && i < |ph| && !ph[i].Eating? && !p.Eating?
    ensures |cats| == |ph| && Shown(n, bowls, ph[i := p], cats)
    ensures Inside(ph[i := p]) + One(!ph[i].Outside?) == Inside(ph) + One(!p.Outside?)
    ensures Feeding(ph[i := p], cats, true) == Feeding(ph, cats, true) &&
            Feeding(ph[i := p], cats, false) == Feeding(ph, cats, false)
  {
    hide Inside, Feeding;
    ShownSame(n, bowls, ph, cats, i, p);
    Counts(ph, cats, i, p);
  }

  lemma SameLengths(n: nat, bowls: seq<char>, ph: seq<Phase>, cats: seq<bool>)
    requires Shown(n, bowls, ph, cats)
    ensures |bowls| == n && |cats| == |ph|
  {}

  lemma ShownAt(n: nat, bowls: seq<char>, ph: seq<Phase>, cats: seq<bool>, i: nat)
    requires Shown(n, bowls, ph, cats) && i < |ph| && ph[i].Eating?
    ensures |bowls| == n && |cats| == |ph| && 1 <= ph[i].bowl <= n && bowls[ph[i].bowl - 1] == Letter(cats[i])
  {}

  datatype Event = DoDown(i: nat) | DoTake(i: nat) | DoBegin(i: nat) | DoEnd(i: nat) | DoGiveBack(i: nat) | DoUp(i: nat)

  // What the animals share, and where they are
  datatype Scene = Scene(count: nat, free: seq<nat>, ph: seq<Phase>)

  // The bowls are shared out properly, and only one kind eats.
  ghost predicate Proper(n: nat, cats: seq<bool>, s: Scene) {
    && |s.ph| == |cats| && s.count + Inside(s.ph) == n && Shared(n, s.free, s.ph)
    && (Feeding(s.ph, cats, true) == 0 || Feeding(s.ph, cats, false) == 0)
  }

  ghost predicate OtherKindEats(ph: seq<Phase>, cats: seq<bool>, i: nat)
    requires i < |ph| == |cats|
  {
    Feeding(ph, cats, !cats[i]) > 0
  }

  // What an event does: the animal goes on if it is at that point, and
  // otherwise nothing happens.
  ghost predicate Happens(cats: seq<bool>, s: Scene, e: Event, s': Scene)
    requires |s.ph| == |cats|
  {
    if e.i >= |s.ph| then s' == s
    else
      var p := s.ph[e.i];
      match e
      case DoDown(i) =>
        if p.Outside? && s.count > 0 then s' == Scene(s.count - 1, s.free, s.ph[i := Admitted]) else s' == s
      case DoTake(i) =>
        if p.Admitted? then s.free != [] && s' == Scene(s.count, s.free[1..], s.ph[i := Holding(s.free[0])])
        else s' == s
      case DoBegin(i) =>
        if p.Holding? then !OtherKindEats(s.ph, cats, i) && s' == s.(ph := s.ph[i := Eating(p.bowl)]) else s' == s
      case DoEnd(i) => if p.Eating? then s' == s.(ph := s.ph[i := Fed(p.bowl)]) else s' == s
      case DoGiveBack(i) =>
        if p.Fed? then s' == Scene(s.count, s.free + [p.bowl], s.ph[i := Returned]) else s' == s
      case DoUp(i) =>
        if p.Returned? then s' == Scene(s.count + 1, s.free, s.ph[i := Outside]) else s' == s
  }

  // A cat would eat among mice, or a mouse among cats.
  ghost predicate Stops(cats: seq<bool>, s: Scene, e: Event)
    requires |s.ph| == |cats|
  {
    e.DoBegin? && e.i < |s.ph| && s.ph[e.i].Holding? && OtherKindEats(s.ph, cats, e.i)
  }

  method Step(s: Simulation, e: Event) returns (stop: bool)
    requires s.Valid()
    modifies s, s.bowls
    ensures s.Valid() && |old(s.ph)| == |s.cats|
    ensures stop == Stops(s.cats, old(s.S()), e)
    ensures if stop then s.S() == old(s.S()) else Happens(s.cats, old(s.S()), e, s.S())
  {
    hide Shown, Inside, Feeding, Held, Shared;
    stop := false;
    if e.i < |s.ph| {
      var p := s.ph[e.i];
      match e {
        case DoDown(i) => if p.Outside? && s.count > 0 { s.Down(i); }
        case DoTake(i) => if p.Admitted? { s.Take(i); }
        case DoBegin(i) => if p.Holding? { stop := s.BeginEat(i); }
        case DoEnd(i) => if p.Eating? { s.EndEat(i); }
        case DoGiveBack(i) => if p.Fed? { s.GiveBack(i); }
        case DoUp(i) => if p.Returned? { s.Up(i); }
      }
    }
  }

  // trace[k] is the scene before event k.
  ghost predicate IsRun(n: nat, cats: seq<bool>, trace: seq<Scene>, events: seq<Event>) {
    && 0 < |trace| <= |events| + 1 && (forall k :: 0 <= k < |trace| ==> Proper(n, cats, trace[k]))
    && forall k :: 0 <= k < |trace| - 1 ==> HappensAt(cats, trace, events, k)
  }

  ghost predicate HappensAt(cats: seq<bool>, trace: seq<Scene>, events: seq<Event>, k: nat)
    requires k + 1 < |trace| && k < |events|
  {
    |trace[k].ph| == |cats| && Happens(cats, trace[k], events[k], trace[k + 1])
  }

  lemma StillProper(n: nat, cats: seq<bool>, s: Scene, e: Event, s': Scene)
    requires Proper(n, cats, s) && Happens(cats, s, e, s') && |s'.ph| == |cats|
    requires s'.count + Inside(s'.ph) == n && Shared(n, s'.free, s'.ph)
    ensures Proper(n, cats, s')
  {
    hide Inside, Feeding, Shared;
    if s' != s {
      Counts(s.ph, cats, e.i, s'.ph[e.i]);
    }
  }

  // Any interleaving, up to a meeting of cats and mice: every event does what
  // it says, the bowls stay shared out, and only one kind eats at a time.
  method Run(s: Simulation, events: seq<Event>) returns (stopped: bool, ghost trace: seq<Scene>)
    requires s.Valid() && Proper(s.n, s.cats, s.S())
    modifies s, s.bowls
    ensures s.Valid() && IsRun(s.n, s.cats, trace, events) && trace[0] == old(s.S())
    ensures trace[|trace| - 1] == s.S()
    ensures stopped <==> |trace| <= |events|
    ensures stopped ==> |trace[|trace| - 1].ph| == |s.cats| && Stops(s.cats, trace[|trace| - 1], events[|trace| - 1])
  {
    hide Shown, Inside, Feeding, Held, Shared, Happens, Proper, OtherKindEats;
    var k := 0;
    stopped, trace := false, [s.S()];
    while k < |events|
      invariant k <= |events| && s.Valid() && |trace| == k + 1 && trace[0] == old(s.S()) && trace[k] == s.S()
      invariant IsRun(s.n, s.cats, trace, events) && !stopped
    {
      ghost var s0 := s.S();
      stopped := Step(s, events[k]);
      if stopped {
        break;
      }
      StillProper(s.n, s.cats, s0, events[k], s.S());
      RunGrows(s.n, s.cats, trace, events, s.S());
      trace := trace + [s.S()];
      k := k + 1;
    }
  }

  lemma RunGrows(n: nat, cats: seq<bool>, trace: seq<Scene>, events: seq<Event>, s': Scene)
    requires IsRun(n, cats, trace, events) && |trace| <= |events| && Proper(n, cats, s')
    requires |trace[|trace| - 1].ph| == |cats| && Happens(cats, trace[|trace| - 1], events[|trace| - 1], s')
    ensures IsRun(n, cats, trace + [s'], events)
  {
    hide Happens, Proper;
    var trace' := trace + [s'];
    forall k | 0 <= k < |trace'| - 1
      ensures HappensAt(cats, trace', events, k)
    {
      if k < |trace| - 1 {
        assert HappensAt(cats, trace, events, k);
      }
    }
  }

  // ---------- what holds over a run ----------

  // The round an animal makes: in, a bowl, a meal from it, the bowl back, out.
  predicate GoesOn(p: Phase, q: Phase) {
    match p
    case Outside => q == Admitted
    case Admitted => q.Holding?
    case Holding(b) => q == Eating(b)
    case Eating(b) => q == Fed(b)
    case Fed(b) => q == Returned
    case Returned => q == Outside
  }

  // An animal moves only by its own events, one step of its round at a time.
  lemma EachItsOwn(n: nat, cats: seq<bool>, trace: seq<Scene>, events: seq<Event>, k: nat, i: nat)
    requires IsRun(n, cats, trace, events) && k + 1 < |trace| && i < |cats|
    ensures |trace[k].ph| == |cats| == |trace[k + 1].ph|
    ensures var p, q := trace[k].ph[i], trace[k + 1].ph[i];
            p != q ==> events[k].i == i && GoesOn(p, q)
  {
    hide Inside, Feeding, Shared;
    assert HappensAt(cats, trace, events, k);
    assert Proper(n, cats, trace[k]) && Proper(n, cats, trace[k + 1]);
  }

  // At no moment of a run do two animals have one bowl, is a bowl in use also
  // on the list, or does a cat eat while a mouse does.
  lemma NeverShared(n: nat, cats: seq<bool>, trace: seq<Scene>, events: seq<Event>, k: nat, i: nat, j: nat)
    requires IsRun(n, cats, trace, events) && k < |trace| && i < |cats| && j < |cats| && i != j
    ensures |trace[k].ph| == |cats|
    ensures var p, q := trace[k].ph[i], trace[k].ph[j];
            && (HasBowl(p) ==> 1 <= p.bowl <= n && p.bowl !in trace[k].free)
            && (HasBowl(p) && HasBowl(q) ==> p.bowl != q.bowl)
            && (p.Eating? && q.Eating? ==> cats[i] == cats[j])
  {
    hide Inside, Feeding, Shared, HasBowl;
    var s := trace[k];
    assert Proper(n, cats, s);
    BowlsExclusive(n, s.count, s.free, s.ph, i);
    if s.ph[i].Eating? { FeedingSome(s.ph, cats, i); }
    if s.ph[j].Eating? { FeedingSome(s.ph, cats, j); }
  }

  // With a bowl and an animal there is always one that can go on: one that is
  // inside, or any if none is.
  lemma SomeoneCanMove(n: nat, cats: seq<bool>, s: Scene)
    requires Proper(n, cats, s) && n > 0 && cats != []
    ensures exists i :: 0 <= i < |s.ph| && (s.ph[i].Outside? ==> s.count > 0) && (s.ph[i].Admitted? ==> s.free != [])
  {
    hide Feeding, Shared;
    if s.count > 0 {
      BowlsExclusive(n, s.count, s.free, s.ph, 0);
    } else {
      var i := SomeoneInside(s.ph);
      BowlsExclusive(n, s.count, s.free, s.ph, i);
    }
  }

  lemma {:induction false} SomeoneInside(ph: seq<Phase>) returns (i: nat)
    requires Inside(ph) > 0
    ensures i < |ph| && !ph[i].Outside?
  {
    i := |ph| - 1;
    if ph[i].Outside? {
      i := SomeoneInside(ph[..i]);
    }
  }
}
