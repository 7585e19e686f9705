/** Base-2^16 digit strings, most significant digit first, and the word macros of longlong.h. */
module Digits {
  import opened Bits

  const HALF_BITS: nat := 16
  const B: nat := 0x1_0000
  const WORD: nat := 0x1_0000_0000
  const DWORD: nat := 0x1_0000_0000_0000_0000

  lemma BaseIsPow2()
    ensures Pow2(HALF_BITS) == B && Pow2(16) == B
  {
    assert Pow2(4) == 16;
    Pow2Add(4, 4);
    Pow2Add(8, 8);
  }

  /** HHALF: the upper shortword. */
  function HHalf(x: nat): nat {
    x / B
  }

  /** LHALF: the lower shortword, by masking. */
  function LHalf(x: nat): (r: nat)
    ensures r == x % B
  {
    BaseIsPow2();
    AndMask(x, HALF_BITS);
    LowHigh(x, HALF_BITS);
    DivModUnique(x, B, Shr(x, HALF_BITS), Low(x, HALF_BITS));
    And(x, B - 1)
  }

  /** COMBINE: two digits to a word, by shift and `|`. */
  function Combine(a: nat, b: nat): (r: nat)
    requires a < B && b < B
    ensures r == a * B + b
  {
    BaseIsPow2();
    OrDisjoint(a, b, HALF_BITS);
    Or((a * Pow2(HALF_BITS)) % WORD, b)
  }

  /** LHUP: the lower shortword moved to the upper half. */
  function LHup(x: nat): (r: nat)
    ensures r == (x % B) * B
  {
    assert (x * B) % WORD == (x % B) * B by {
      DivModUnique(x * B, WORD, x / B, (x % B) * B);
    }
    (x * B) % WORD
  }

  ghost predicate AllDigits(s: seq<nat>) {
    forall k :: 0 <= k < |s| ==> s[k] < B
  }

  function PowB(n: nat): (r: nat)
    ensures r > 0
  {
    if n == 0 then 1 else B * PowB(n - 1)
  }

  /** The number a digit string denotes. */
  function Val(s: seq<nat>): nat {
    if s == [] then 0 else Val(s[..|s| - 1]) * B + s[|s| - 1]
  }

  lemma {:induction false} ValConcat(a: seq<nat>, b: seq<nat>)
    ensures Val(a + b) == Val(a) * PowB(|b|) + Val(b)
  {
    if b == [] {
      assert a + b == a;
    } else {
      var b' := b[..|b| - 1];
      assert (a + b)[..|a + b| - 1] == a + b';
      ValConcat(a, b');
      assert Val(a) * PowB(|b|) == Val(a) * PowB(|b'|) * B;
    }
  }

  lemma ValCons(d: nat, s: seq<nat>)
    ensures Val([d] + s) == d * PowB(|s|) + Val(s)
  {
    ValConcat([d], s);
    assert Val([d]) == d;
  }

  lemma {:induction false} ValBound(s: seq<nat>)
    requires AllDigits(s)
    ensures Val(s) < PowB(|s|)
  {
    if s != [] {
      ValBound(s[..|s| - 1]);
    }
  }

  lemma {:induction false} PowBAdd(a: nat, b: nat)
    ensures PowB(a + b) == PowB(a) * PowB(b)
  {
    if a != 0 {
      PowBAdd(a - 1, b);
      assert PowB(a + b) == B * (PowB(a - 1) * PowB(b));
    }
  }

  lemma PowBSmall()
    ensures PowB(0) == 1 && PowB(1) == B && PowB(2) == WORD && PowB(3) == B * WORD && PowB(4) == DWORD
  {
    assert PowB(1) == B;
    assert PowB(2) == B * PowB(1);
    assert PowB(3) == B * PowB(2);
    assert PowB(4) == B * PowB(3);
  }
}
