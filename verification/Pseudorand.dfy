/**
 kern/dev/generic/pseudorand.c: Park and Miller's generator, computed in 32
 bits by Schrage's method.
 */
module Pseudorand {
  import opened Arith

  const MULTIPLIER := 16807
  const MODULUS := 0x7fff_ffff
  const K1 := 127773
  const K2 := 2836
  const INVERSE := 1407677000   // of the multiplier

  predicate IsSeed(s: int) {
    1 <= s <= MODULUS - 1
  }

  predicate Fits32(x: int) {
    -0x8000_0000 <= x < 0x8000_0000
  }

  // The plain definition of a step.
  function Step(seed: int): int {
    MULTIPLIER * seed % MODULUS
  }

  // Multiplying by the multiplier and then by its inverse changes nothing.
  lemma UndoStep(s: int)
    requires 0 <= s < MODULUS
    ensures INVERSE * Step(s) % MODULUS == s
  {
    var q := MULTIPLIER * s / MODULUS;
    assert MULTIPLIER * s == MODULUS * q + Step(s);
    assert INVERSE * Step(s) == MODULUS * (11017 * s - INVERSE * q) + s;
    DivMod(INVERSE * Step(s), MODULUS, 11017 * s - INVERSE * q, s);
  }

  lemma RedoStep(s: int)
    requires 0 <= s < MODULUS
    ensures Step(INVERSE * s % MODULUS) == s
  {
    var q, r := INVERSE * s / MODULUS, INVERSE * s % MODULUS;
    assert INVERSE * s == MODULUS * q + r;
    assert MULTIPLIER * r == MODULUS * (11017 * s - MULTIPLIER * q) + s;
    DivMod(MULTIPLIER * r, MODULUS, 11017 * s - MULTIPLIER * q, s);
  }

  // A step stays in range.
  lemma StepInRange(s: int)
    requires IsSeed(s)
    ensures IsSeed(Step(s))
  {
    UndoStep(s);
  }

  // A step is a bijection on the seeds: every seed is reached, and from one
  // seed only.
  lemma StepBijective(s: int, t: int)
    requires IsSeed(s) && IsSeed(t)
    ensures Step(s) == Step(t) ==> s == t
    ensures IsSeed(INVERSE * t % MODULUS) && Step(INVERSE * t % MODULUS) == t
  {
    UndoStep(s);
    UndoStep(t);
    RedoStep(t);
  }

  // Schrage's difference is the product less a multiple of the modulus, and
  // is never 0.
  lemma Schrage(s: int)
    requires IsSeed(s)
    ensures var tmp := MULTIPLIER * (s % K1) - K2 * (s / K1);
            && Fits32(MULTIPLIER * (s % K1)) && Fits32(K2 * (s / K1)) && Fits32(tmp) && tmp != 0
            && Step(s) == if tmp <= 0 then tmp + MODULUS else tmp
  {
    var hi, lo := s / K1, s % K1;
    var tmp := MULTIPLIER * lo - K2 * hi;
    assert s == K1 * hi + lo;
    assert MULTIPLIER * s == MODULUS * hi + tmp;
    if tmp < 0 {
      DivMod(MULTIPLIER * s, MODULUS, hi - 1, tmp + MODULUS);
    } else {
      DivMod(MULTIPLIER * s, MODULUS, hi, tmp);
    }
    StepInRange(s);
  }

  class Softc {
    var seed: int

    ghost predicate Valid()
      reads this
    {
      IsSeed(seed)
    }

    // pseudoattach_pseudorand
    constructor ()
      ensures Valid() && seed == 305824
    {
      seed := 305824;
    }

    // pseudorand_random
    method Random() returns (x: int)
      requires Valid()
      modifies this
      ensures Valid() && seed == Step(old(seed)) == 16807 * old(seed) % 0x7fff_ffff
      ensures x == seed - 1 && 0 <= x <= 0x7fff_fffd
    {
      Schrage(seed);
      StepInRange(seed);
      var hi, lo := seed / K1, seed % K1;
      var tmp := MULTIPLIER * lo - K2 * hi;
      if tmp <= 0 {
        tmp := tmp + MODULUS;
      }
      seed := tmp;
      return seed - 1;
    }
  }
}
