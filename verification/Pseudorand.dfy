/** The Park-Miller generator (pseudorand.c), computed by Schrage's method in 32-bit signed words. */
module Pseudorand {

  const MULTIPLIER: int := 16807
  const MODULUS: int := 0x7fff_ffff
  const K1: int := 127773
  const K2: int := 2836
  const SEED: int := 305824

  /** The multiplier's inverse: MULTIPLIER * INVERSE == 11017 * MODULUS + 1. */
  const INVERSE: int := 1407677000

  ghost predicate InRange(x: int) {
    1 <= x < MODULUS
  }

  function Power(n: nat): int {
    if n == 0 then 1 else MULTIPLIER * Power(n - 1)
  }

  /** What the step is meant to be. */
  function Next(x: int): int {
    MULTIPLIER * x % MODULUS
  }

  lemma Residue(z: int, q: int, r: int)
    requires z == q * MODULUS + r && 0 <= r < MODULUS
    ensures z % MODULUS == r
  {
  }

  /** Schrage: with x = hi * K1 + lo, the product less hi times the modulus is small. */
  lemma Schrage(x: int, hi: int, lo: int, tmp: int)
    requires InRange(x) && hi == x / K1 && lo == x % K1 && tmp == MULTIPLIER * lo - K2 * hi
    ensures MULTIPLIER * x == hi * MODULUS + tmp && -MODULUS < tmp < MODULUS
  {
    assert x == hi * K1 + lo;
  }

  /** The inverse undoes a step, so a step never leads to 0 and never to one number from two. */
  lemma Undo(x: int)
    requires 0 <= x < MODULUS
    ensures INVERSE * Next(x) % MODULUS == x
  {
    var t := MULTIPLIER * x / MODULUS;
    assert MULTIPLIER * x == t * MODULUS + Next(x);
    assert INVERSE * Next(x) == 11017 * MODULUS * x + x - INVERSE * t * MODULUS;
    Residue(INVERSE * Next(x), 11017 * x - INVERSE * t, x);
  }

  lemma StaysInRange(x: int)
    requires InRange(x)
    ensures InRange(Next(x))
  {
    Undo(x);
  }

  lemma Injective(x: int, y: int)
    requires InRange(x) && InRange(y) && Next(x) == Next(y)
    ensures x == y
  {
    Undo(x);
    Undo(y);
  }

  /** One step after n is n + 1. */
  lemma PowerStep(n: nat)
    ensures Next(Power(n) * SEED % MODULUS) == Power(n + 1) * SEED % MODULUS
  {
    var z := Power(n) * SEED;
    var q, r := z / MODULUS, z % MODULUS;
    var q', r' := MULTIPLIER * r / MODULUS, Next(r);
    assert z == q * MODULUS + r && MULTIPLIER * r == q' * MODULUS + r';
    assert Power(n + 1) * SEED == MULTIPLIER * z;
    Residue(MULTIPLIER * z, MULTIPLIER * q + q', r');
  }

  /** The two ways the code goes end in the next seed, with no product out of range. */
  lemma SchrageNext(x: int, hi: int, lo: int)
    requires InRange(x) && hi == x / K1 && lo == x % K1
    ensures MULTIPLIER * lo < 0x8000_0000 && K2 * hi < 0x8000_0000
    ensures var tmp := MULTIPLIER * lo - K2 * hi; Next(x) == if tmp <= 0 then tmp + MODULUS else tmp
    ensures InRange(Next(x))
  {
    var tmp := MULTIPLIER * lo - K2 * hi;
    Schrage(x, hi, lo, tmp);
    StaysInRange(x);
    if tmp <= 0 {
      Residue(MULTIPLIER * x, hi - 1, tmp + MODULUS);
    } else {
      Residue(MULTIPLIER * x, hi, tmp);
    }
  }

  class Generator {
    var seed: int
    ghost var calls: nat

    /** After n calls the seed is 16807^n * 305824 modulo 2^31 - 1, and not 0. */
    ghost predicate Valid()
      reads this
    {
      InRange(seed) && seed == Power(calls) * SEED % MODULUS
    }

    constructor ()
      ensures Valid() && calls == 0
    {
      seed, calls := SEED, 0;
    }

    method Random() returns (r: int)
      requires Valid()
      modifies this
      ensures Valid() && calls == old(calls) + 1 && seed == Next(old(seed))
      ensures r == seed - 1 && 0 <= r <= MODULUS - 2
    {
      var hi, lo := seed / K1, seed % K1;
      SchrageNext(seed, hi, lo);
      assert MULTIPLIER * lo < 0x8000_0000 && K2 * hi < 0x8000_0000;
      var tmp := MULTIPLIER * lo - K2 * hi;
      if tmp <= 0 {
        tmp := tmp + MODULUS;
      }
      PowerStep(calls);
      seed, calls := tmp, calls + 1;
      r := seed - 1;
    }
  }
}
