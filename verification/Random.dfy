/**
 lib/libc/random.c: the additive-feedback generator, whose two pointers run
 round a table, refines a window that slides along a linear recurrence.
 Words are 32 bits and sums wrap.
 */
module Random {
  import opened Arith
  import opened Bytes

  const MAX_TYPES := 5
  const WORD := 0x1_0000_0000

  function Deg(t: nat): nat {
    if t == 1 then 7 else if t == 2 then 15 else if t == 3 then 31 else if t == 4 then 63 else 0
  }

  function Sep(t: nat): nat {
    if t == 1 || t == 3 then 3 else if t == 2 || t == 4 then 1 else 0
  }

  // Addition of words
  function Sum(x: Word, y: Word): Word {
    var z: int := x + y;
    z % WORD
  }

  lemma Degrees(t: nat)
    requires 0 < t < MAX_TYPES
    ensures 0 < Sep(t) < Deg(t)
  {}

  // ---------- the reference ----------

  // Either a linear congruential generator, or the last words of a
  // recurrence, oldest first.
  datatype Gen = Lcg(seed: Word) | Feedback(w: seq<Word>, sep: nat)
  {
    predicate Valid() {
      Feedback? ==> 0 < sep < |w|
    }

    // The next word of the recurrence.
    function Word(): Word
      requires Valid()
    {
      match this
      case Lcg(x) => (x * 1103515245 + 12345) % 0x8000_0000
      case Feedback(w, sep) => Sum(w[0], w[|w| - sep])
    }

    function Next(): (g: Gen)
      requires Valid()
      ensures g.Valid() && (g.Feedback? <==> Feedback?) && (Feedback? ==> |g.w| == |w| && g.sep == sep)
    {
      match this
      case Lcg(_) => Lcg(Word())
      case Feedback(w, sep) => Feedback(w[1..] + [Word()], sep)
    }

    // What random returns: a word without its lowest bit.
    function Value(): Word
      requires Valid()
    {
      if Lcg? then Word() else Word() / 2
    }

    function After(n: nat): (g: Gen)
      requires Valid()
      ensures g.Valid() && (g.Feedback? <==> Feedback?) && (Feedback? ==> |g.w| == |w| && g.sep == sep)
    {
      if n == 0 then this else After(n - 1).Next()
    }
  }

  // The recurrence itself, continued from the words of w.
  function Recurrence(w: seq<Word>, sep: nat, n: nat): (x: seq<Word>)
    requires 0 < sep < |w|
    ensures |x| == |w| + n
  {
    if n == 0 then w
    else var x := Recurrence(w, sep, n - 1); x + [Sum(x[|x| - |w|], x[|x| - sep])]
  }

  // Every word past the first ones is the sum of two earlier ones.
  lemma {:induction false} RecurrenceLaw(w: seq<Word>, sep: nat, n: nat, k: nat)
    requires 0 < sep < |w| <= k < |w| + n
    ensures var x := Recurrence(w, sep, n);
            var a: int, b: int := x[k - |w|], x[k - sep];
            x[k] == (a + b) % 0x1_0000_0000 && forall j :: 0 <= j < |w| ==> x[j] == w[j]
  {
    if k < |w| + n - 1 {
      RecurrenceLaw(w, sep, n - 1, k);
    } else if n > 1 {
      RecurrenceLaw(w, sep, n - 1, |w|);
    }
  }

  // The sliding window is the end of the recurrence.
  lemma {:induction false} WindowSlides(g: Gen, n: nat)
    requires g.Valid() && g.Feedback?
    ensures g.After(n).w == Recurrence(g.w, g.sep, n)[n..]
  {
    hide Sum;
    if n > 0 {
      WindowSlides(g, n - 1);
      var x := Recurrence(g.w, g.sep, n - 1);
      assert Recurrence(g.w, g.sep, n)[n..] == x[n - 1..][1..] + [Sum(x[|x| - |g.w|], x[|x| - g.sep])];
    }
  }

  // So the n-th value after g is half of the recurrence's word.
  lemma StreamIsRecurrence(g: Gen, n: nat)
    requires g.Valid() && g.Feedback?
    ensures g.After(n).Value() == Recurrence(g.w, g.sep, n + 1)[|g.w| + n] / 2
  {
    hide Sum;
    WindowSlides(g, n);
  }

  // ---------- the table ----------

  // The words of a table from position f on, going round.
  function Window(t: seq<Word>, f: nat): (w: seq<Word>)
    requires f < |t|
    ensures |w| == |t|
  {
    t[f..] + t[..f]
  }

  function Wrap(i: nat, deg: nat): nat {
    if i < deg then i else i - deg
  }

  lemma WindowStep(t: seq<Word>, f: nat, r: nat, sep: nat)
    requires 0 < sep < |t| && r < |t| && f == Wrap(r + sep, |t|)
    ensures Window(t, f)[|t| - sep] == t[r] && Window(t, f)[0] == t[f]
    ensures var v: Word := Sum(t[f], t[r]);
            Window(t[f := v], Wrap(f + 1, |t|)) == Window(t, f)[1..] + [v]
  {
    hide Sum;
    var v: Word := Sum(t[f], t[r]);
    if f + 1 < |t| {
      assert Window(t[f := v], f + 1) == Window(t, f)[1..] + [v];
    } else {
      assert Window(t[f := v], 0) == Window(t, f)[1..] + [v];
    }
  }

  // Adding the word at the rear pointer into the word at the front one, and
  // moving both on, is one step of the window.
  lemma TableStep(t: seq<Word>, f: nat, r: nat, sep: nat)
    requires 0 < sep < |t| && r < |t| && f == Wrap(r + sep, |t|)
    ensures f < |t| && Feedback(Window(t, f), sep).Valid()
    ensures Feedback(Window(t, f), sep).Word() == Sum(t[f], t[r])
    ensures Feedback(Window(t, f), sep).Value() == Sum(t[f], t[r]) / 2
    ensures Feedback(Window(t[f := Sum(t[f], t[r])], Wrap(f + 1, |t|)), sep) == Feedback(Window(t, f), sep).Next()
  {
    WindowStep(t, f, r, sep);
  }

  // The front pointer wraps or the rear one does, never both, and they stay
  // sep apart.
  lemma PointersStep(f: nat, r: nat, sep: nat, deg: nat)
    requires 0 < sep < deg && r < deg && f == Wrap(r + sep, deg)
    ensures !(f + 1 == deg && r + 1 == deg)
    ensures Wrap(f + 1, deg) == Wrap(Wrap(r + 1, deg) + sep, deg) < deg
  {}

  // The table that srandom starts from.
  function Seeded(x: Word, n: nat): (t: seq<Word>)
    requires n > 0
    ensures |t| == n
  {
    if n == 1 then [x] else var s := Seeded(x, n - 1); s + [(1103515245 * s[n - 2] + 12345) % WORD]
  }

  // The seed, and then each word from the one before it.
  lemma {:induction false} SeededAt(x: Word, n: nat, i: nat)
    requires i < n
    ensures Seeded(x, n)[0] == x
    ensures i > 0 ==> var y: int := Seeded(x, n)[i - 1]; Seeded(x, n)[i] == (1103515245 * y + 12345) % 0x1_0000_0000
  {
    if n > 1 {
      SeededAt(x, n - 1, if i < n - 1 then i else 0);
    }
  }

  // The generator before srandom cycles it.
  function Fresh(x: Word, deg: nat, sep: nat): Gen
    requires sep < deg
  {
    Feedback(Window(Seeded(x, deg), sep), sep)
  }

  // The generator that a state array describes: its first word says the type
  // and where the rear pointer is.
  ghost function Described(a: seq<Word>): (g: Gen)
    requires Describes(a)
    ensures g.Valid()
  {
    var t := a[0] % MAX_TYPES;
    if t == 0 then Lcg(a[1])
    else Feedback(Window(a[1..Deg(t) + 1], Wrap(a[0] / MAX_TYPES + Sep(t), Deg(t))), Sep(t))
  }

  // The array is long enough for its type and the rear pointer inside.
  ghost predicate Describes(a: seq<Word>) {
    && |a| >= 2
    && var t := a[0] % MAX_TYPES; |a| >= Deg(t) + 1 && (t != 0 ==> a[0] / MAX_TYPES < Deg(t))
  }

  function TypeFor(n: nat): nat {
    if n < 32 then 0 else if n < 64 then 1 else if n < 128 then 2 else if n < 256 then 3 else 4
  }

  class Generator {
    var state: array<Word>   // with state[-1] as element 0
    var randType: nat
    var deg: nat
    var sep: nat
    var fptr: nat            // positions in the table
    var rptr: nat

    ghost predicate Shape()
      reads this
    {
      && randType < MAX_TYPES && deg == Deg(randType) && sep == Sep(randType)
      && state.Length >= 2 && state.Length >= deg + 1
    }

    ghost predicate Valid()
      reads this
    {
      Shape() && (randType != 0 ==> rptr < deg && fptr == Wrap(rptr + sep, deg))
    }

    ghost function Abs(): Gen
      requires Valid()
      reads this, state
    {
      if randType == 0 then Lcg(state[1]) else Feedback(Window(state[1..deg + 1], fptr), sep)
    }

    // The first branch of random_unlocked
    method NextLcg() returns (i: Word)
      requires Valid() && randType == 0
      modifies state
      ensures Abs() == old(Abs()).Next() && i == old(Abs()).Value() && state[0] == old(state[0])
    {
      var x: int := state[1];
      i := (x * 1103515245 + 12345) % 0x8000_0000;
      state[1] := i;
    }

    // The second branch of random_unlocked
    method NextFeedback() returns (i: Word)
      requires Valid() && randType != 0
      modifies this`fptr, this`rptr, state
      ensures Valid() && Abs().Valid() && old(Abs()).Valid() && Abs() == old(Abs()).Next() && i == old(Abs()).Value()
      ensures rptr == Wrap(old(rptr) + 1, deg) && state[0] == old(state[0])
    {
      hide Window, Gen.Next, Gen.Word, Gen.Value, Deg, Sep, Sum;
      Degrees(randType);
      ghost var t := state[1..deg + 1];
      TableStep(t, fptr, rptr, sep);
      PointersStep(fptr, rptr, sep, deg);
      var f, r := fptr, rptr;
      state[f + 1] := Sum(state[f + 1], state[r + 1]);
      assert state[1..deg + 1] == t[f := Sum(t[f], t[r])];
      i := state[f + 1] / 2;
      f := f + 1;
      if f >= deg {
        f := 0;
        r := r + 1;
      } else {
        r := r + 1;
        if r >= deg {
          r := 0;
        }
      }
      fptr, rptr := f, r;
    }

    // random_unlocked
    method Next() returns (i: Word)
      requires Valid()
      modifies this`fptr, this`rptr, state
      ensures Valid() && Abs().Valid() && old(Abs()).Valid() && Abs() == old(Abs()).Next() && i == old(Abs()).Value()
      ensures randType != 0 ==> rptr == Wrap(old(rptr) + 1, deg)
      ensures state[0] == old(state[0])
    {
      hide Window, Gen.Next, Gen.Word, Gen.Value;
      if randType == 0 {
        i := NextLcg();
      } else {
        i := NextFeedback();
      }
    }

    // The linear congruential loop of srandom_unlocked
    method Spread(x: Word)
      requires Shape() && randType != 0
      modifies state
      ensures state[1..deg + 1] == Seeded(x, deg) && state[0] == old(state[0])
    {
      state[1] := x;
      for i := 1 to deg
        invariant state[1..i + 1] == Seeded(x, i) && state[0] == old(state[0])
      {
        state[i + 1] := (1103515245 * state[i] + 12345) % WORD;
      }
    }

    // The cycling loop of srandom_unlocked: the rear pointer ends where it
    // started.
    method Cycle()
      requires Valid() && randType != 0 && rptr == 0
      modifies this`fptr, this`rptr, state
      ensures Valid() && state[0] == old(state[0]) && rptr == 0 && old(Abs()).Valid() &&
              Abs() == old(Abs()).After(10 * deg)
    {
      hide Window, Gen.Next, Gen.Word;
      ghost var g, q := Abs(), 0;
      assert g.Valid();
      for i := 0 to 10 * deg
        invariant Valid() && state[0] == old(state[0]) && Abs() == g.After(i) && i == deg * q + rptr
      {
        var _ := Next();
        if rptr == 0 { q := q + 1; }
      }
      DivMod(10 * deg, deg, q, rptr);
      DivMod(10 * deg, deg, 10, 0);
    }

    // srandom_unlocked
    method Seed(x: Word)
      requires Shape()
      modifies this`fptr, this`rptr, state
      ensures Valid() && state[0] == old(state[0])
      ensures randType == 0 ==> Abs() == Lcg(x)
      ensures randType != 0 ==> rptr == 0 && Fresh(x, deg, sep).Valid() && Abs() == Fresh(x, deg, sep).After(10 * deg)
    {
      hide Window, Gen.Next, Gen.Word, Gen.After;
      if randType == 0 {
        state[1] := x;
      } else {
        Spread(x);
        fptr, rptr := sep, 0;
        Cycle();
      }
    }

    // What the word before the table becomes when the state is put aside.
    function Header(): nat
      reads this
    {
      if randType == 0 then 0 else MAX_TYPES * rptr + randType
    }

    // initstate; false if there are too few bytes
    method Initstate(seed: Word, arr: array<Word>, n: nat) returns (ok: bool)
      requires Valid() && 4 * arr.Length >= n
      modifies this, state, arr
      ensures Valid() && ok == (n >= 8)
      ensures !ok ==> state == old(state) && Abs() == old(Abs())
      ensures ok ==>
                state == arr && randType == TypeFor(n) && arr[0] == Header() && (randType != 0 ==> rptr == 0) &&
                Describes(arr[..]) && Described(arr[..]) == Abs()
      ensures ok && n >= 32 ==>
                (deg, sep) == if n < 64 then (7, 3) else if n < 128 then (15, 1) else if n < 256 then (31, 3)
                  else (63, 1)
      ensures ok && (TypeFor(n) == 0 || n < 32) ==> Abs() == Lcg(seed)
      ensures ok && TypeFor(n) != 0 ==> Fresh(seed, deg, sep).Valid() && Abs() == Fresh(seed, deg, sep).After(10 * deg)
      ensures old(state) != arr ==> PutAside(old(state), old(Abs()))
    {
      ghost var saved := state;
      Save();
      if n < 8 {
        return false;
      }
      randType := TypeFor(n);
      deg, sep := Deg(randType), Sep(randType);
      state := arr;
      Seed(seed);
      Save();
      return true;
    }

    // The current state is put aside in its array.
    method Save()
      requires Valid()
      modifies state
      ensures PutAside(state, Abs()) && Abs() == old(Abs()) && state[0] == Header()
      ensures forall k :: 1 <= k < state.Length ==> state[k] == old(state[k])
    {
      state[0] := Header();
      HeaderDescribes(this);
    }

    // Array arr becomes the state, of the given type and rear pointer.
    method Load(arr: array<Word>, t: nat, rear: nat)
      requires t < MAX_TYPES && arr.Length >= 2 && arr.Length >= Deg(t) + 1 && (t != 0 ==> rear < Deg(t))
      modifies this
      ensures Valid() && state == arr && randType == t && (t != 0 ==> rptr == rear)
    {
      randType, deg, sep := t, Deg(t), Sep(t);
      state := arr;
      if t != 0 {
        Degrees(t);
        Wrapped(rear, sep, deg);
        rptr := rear;
        fptr := (rear + sep) % deg;
      }
    }

    // setstate. Type and rear pointer are read before the current ones are
    // put aside, which matters when arr is the current state: it then goes on
    // from wherever it was last put aside.
    method Setstate(arr: array<Word>)
      requires Valid() && Describes(arr[..])
      modifies this, state
      ensures Valid() && state == arr
      ensures arr != old(state) ==>
                arr[..] == old(arr[..]) && Abs() == Described(arr[..]) && PutAside(old(state), old(Abs()))
      ensures arr == old(state) ==>
                randType == old(arr[0]) % MAX_TYPES && (randType != 0 ==> rptr == old(arr[0]) / MAX_TYPES)
      ensures arr == old(state) ==> forall k :: 1 <= k < arr.Length ==> arr[k] == old(arr[k])
      ensures arr == old(state) && old(randType) != 0 ==>
                (old(arr[0]) == old(Header()) <==> randType == old(randType) && rptr == old(rptr))
    {
      hide Window, Described, Deg, Sep;
      var t, rear := arr[0] % MAX_TYPES, arr[0] / MAX_TYPES;
      if randType != 0 { DivMod(Header(), MAX_TYPES, rptr, randType); }
      Save();
      Load(arr, t, rear);
      if randType != 0 { Degrees(randType); }
      if arr[0] == MAX_TYPES * rear + t { LoadedIs(this); }
    }
  }

  // Array a describes g.
  ghost predicate PutAside(a: array<Word>, g: Gen)
    reads a
  {
    Describes(a[..]) && Described(a[..]) == g
  }

  lemma LoadedIs(g: Generator)
    requires g.Valid() && Describes(g.state[..]) && g.state[0] % MAX_TYPES == g.randType
    requires g.randType != 0 ==> g.state[0] / MAX_TYPES == g.rptr
    ensures g.Abs() == Described(g.state[..])
  {
    assert g.state[..][1..g.deg + 1] == g.state[1..g.deg + 1];
  }

  lemma HeaderDescribes(g: Generator)
    requires g.Valid() && g.state[0] == g.Header()
    ensures PutAside(g.state, g.Abs())
  {
    if g.randType != 0 {
      DivMod(g.Header(), MAX_TYPES, g.rptr, g.randType);
      assert g.state[..][1..g.deg + 1] == g.state[1..g.deg + 1];
    }
  }

  lemma Wrapped(rear: nat, sep: nat, deg: nat)
    requires rear < deg && sep < deg
    ensures (rear + sep) % deg == Wrap(rear + sep, deg)
  {
    if rear + sep < deg { DivMod(rear + sep, deg, 0, rear + sep); }
      else { DivMod(rear + sep, deg, 1, rear + sep - deg); }
  }

  // srandom and then n calls of random: either a linear congruential stream,
  // or the recurrence continued from the seeded table turned round to start at
  // word sep, its first 10 * deg further words left out, each word halved.
  method SeedAndDraw(g: Generator, x: Word, n: nat) returns (out: seq<Word>)
    requires g.Shape()
    modifies g, g.state
    ensures g.Valid() && |out| == n && g.randType == old(g.randType) < 5
    ensures g.randType == 0 ==> LcgStream(x, out)
    ensures g.randType != 0 ==>
              && (g.deg, g.sep) == [(7, 3), (15, 1), (31, 3), (63, 1)][g.randType - 1]
              && var w := Seeded(x, g.deg)[g.sep..] + Seeded(x, g.deg)[..g.sep];
                 forall i :: 0 <= i < n ==>
                   out[i] == Recurrence(w, g.sep, 10 * g.deg + i + 1)[11 * g.deg + i] / 2
  {
    hide Gen.Next, Gen.After, Recurrence;
    g.Seed(x);
    if g.randType == 0 {
      out := DrawLcg(g, x, n);
    } else {
      Degrees(g.randType);
      ghost var start := Fresh(x, g.deg, g.sep);
      out := Draw(g, start, 10 * g.deg, n);
    }
  }

  predicate LcgStep(x: int, y: int) {
    y == (x * 1103515245 + 12345) % 0x8000_0000
  }

  // Each number from the one before, the first from x
  predicate LcgStream(x: Word, out: seq<Word>) {
    var n := |out|;
    n > 0 ==> LcgStream(x, out[..n - 1]) && LcgStep(if n == 1 then x else out[n - 2], out[n - 1])
  }

  lemma LcgNext(x: Word)
    ensures LcgStep(x, Lcg(x).Value()) && Lcg(x).Next() == Lcg(Lcg(x).Value())
  {}

  method DrawLcg(g: Generator, x: Word, n: nat) returns (out: seq<Word>)
    requires g.Valid() && g.randType == 0 && g.Abs() == Lcg(x)
    modifies g`fptr, g`rptr, g.state
    ensures g.Valid() && |out| == n
    ensures LcgStream(x, out)
  {
    hide LcgStep, Gen.Next, Gen.Word, Gen.Value, Generator.Abs;
    out := [];
    for k := 0 to n
      invariant g.Valid() && |out| == k && g.Abs() == Lcg(if k == 0 then x else out[k - 1])
      invariant LcgStream(x, out)
    {
      ghost var last: Word := if k == 0 then x else out[k - 1];
      LcgNext(last);
      var v := g.Next();
      assert (out + [v])[..k] == out;
      out := out + [v];
    }
  }

  method Draw(g: Generator, ghost start: Gen, m: nat, n: nat) returns (out: seq<Word>)
    requires g.Valid() && g.randType != 0 && start.Valid() && start.Feedback? && g.Abs() == start.After(m)
    modifies g`fptr, g`rptr, g.state
    ensures g.Valid() && |out| == n
    ensures forall i :: 0 <= i < n ==>
              out[i] == Recurrence(start.w, start.sep, m + i + 1)[|start.w| + m + i] / 2
  {
    hide Window, Gen.Next, Gen.Word, Gen.Value, Recurrence, Deg, Sep, Generator.Abs;
    out := [];
    for k := 0 to n
      invariant g.Valid() && g.randType != 0 && |out| == k && g.Abs() == start.After(m + k)
      invariant forall i :: 0 <= i < k ==>
                  out[i] == Recurrence(start.w, start.sep, m + i + 1)[|start.w| + m + i] / 2
    {
      StreamIsRecurrence(start, m + k);
      var v := g.Next();
      out := out + [v];
    }
  }

  // Setting the state that is already current does not go on with it, unless
  // the rear pointer is where it was last put aside: here, one call on, it is
  // put back to the start.
  method SameStateRewinds(g: Generator, arr: array<Word>) returns (rear: nat)
    requires g.Valid() && arr.Length == 32
    modifies g, g.state, arr
    ensures rear == 1 && g.Valid() && g.state == arr && g.rptr == 0
  {
    hide Window, Gen.Next, Gen.Word, Gen.Value, Gen.After;
    var _ := g.Initstate(1, arr, 128);
    var _ := g.Next();
    rear := g.rptr;
    g.Setstate(arr);
  }

  // From one state to another, any number of calls there, and back: the first
  // stream goes on where it stopped.
  method AwayAndBack(g: Generator, b: array<Word>, n: nat)
    requires g.Valid() && b != g.state && Describes(b[..])
    modifies g, g.state, b
    ensures g.Valid() && g.state == old(g.state) && g.Abs() == old(g.Abs())
    ensures PutAside(b, old(Described(b[..])).After(n))
  {
    hide Window, Gen.Next, Gen.Word, Gen.Value, Described, Describes, Deg, Sep;
    var a := g.state;
    ghost var there := Described(b[..]);
    g.Setstate(b);
    ghost var aside := a[..];
    for i := 0 to n
      invariant g.Valid() && g.state == b && there.Valid() && g.Abs() == there.After(i) && a[..] == aside
    {
      var _ := g.Next();
    }
    g.Setstate(a);
  }
}
