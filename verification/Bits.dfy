/** Bitwise operators on naturals, and what they are in arithmetic.

The C sources pick words apart with shifts, masks and `|`.  `Or` and `And` below are the
bit-by-bit operators; the lemmas give their arithmetic meaning where the operands are a
shifted part and a low part, which is the only way the sources use them. */
module Bits {

  function Pow2(n: nat): (r: nat)
    ensures r > 0
  {
    if n == 0 then 1 else 2 * Pow2(n - 1)
  }

  /** `x >> k` */
  function Shr(x: nat, k: nat): nat {
    if k == 0 then x else Shr(x / 2, k - 1)
  }

  /** The low k bits. */
  function Low(x: nat, k: nat): nat {
    if k == 0 then 0 else 2 * Low(x / 2, k - 1) + x % 2
  }

  /** Every number is its upper part, weighted, and its low bits. */
  lemma {:induction false} LowHigh(x: nat, k: nat)
    ensures x == Shr(x, k) * Pow2(k) + Low(x, k)
    ensures Low(x, k) < Pow2(k)
  {
    if k != 0 {
      LowHigh(x / 2, k - 1);
      MulDouble(Shr(x / 2, k - 1), Pow2(k - 1));
    }
  }

  lemma MulDouble(a: nat, b: nat)
    ensures a * (2 * b) == 2 * (a * b)
  {
  }

  lemma {:induction false} LowZero(k: nat)
    ensures Low(0, k) == 0
  {
    if k != 0 {
      LowZero(k - 1);
    }
  }

  function Or(a: nat, b: nat): nat
    decreases a + b
  {
    if a == 0 && b == 0 then 0
    else 2 * Or(a / 2, b / 2) + (if a % 2 == 1 || b % 2 == 1 then 1 else 0)
  }

  function And(a: nat, b: nat): nat
    decreases a + b
  {
    if a == 0 && b == 0 then 0
    else 2 * And(a / 2, b / 2) + (if a % 2 == 1 && b % 2 == 1 then 1 else 0)
  }

  lemma {:induction false} OrZero(a: nat)
    ensures Or(a, 0) == a
  {
    if a != 0 {
      OrZero(a / 2);
    }
  }

  /** `|` of a part shifted up by k bits and a part below bit k is their sum. */
  lemma {:induction false} OrDisjoint(a: nat, b: nat, k: nat)
    requires b < Pow2(k)
    ensures Or(a * Pow2(k), b) == a * Pow2(k) + b
  {
    if k == 0 {
      OrZero(a);
    } else {
      OrDisjoint(a, b / 2, k - 1);
      MulDouble(a, Pow2(k - 1));
    }
  }

  lemma {:induction false} AndZero(a: nat)
    ensures And(a, 0) == 0
  {
    if a != 0 {
      AndZero(a / 2);
    }
  }

  /** `&` with a mask of k ones keeps the low k bits. */
  lemma {:induction false} AndMask(a: nat, k: nat)
    ensures And(a, Pow2(k) - 1) == Low(a, k)
  {
    if k == 0 {
      AndZero(a);
    } else {
      AndMask(a / 2, k - 1);
      assert (Pow2(k) - 1) / 2 == Pow2(k - 1) - 1 && (Pow2(k) - 1) % 2 == 1;
    }
  }

  lemma DivMod(x: int, m: int)
    requires m > 0
    ensures x == x / m * m + x % m && 0 <= x % m < m
  {
  }

  lemma DivNonneg(x: nat, m: nat)
    requires m > 0
    ensures x / m >= 0
  {
    var q := x / m;
    DivMod(x, m);
    if q < 0 {
      MulGe(-q, m);
    }
  }

  lemma MulGe(a: int, m: int)
    requires a >= 1 && m > 0
    ensures a * m >= m
  {
  }

  /** Euclidean division has one answer. */
  lemma DivModUnique(x: int, m: int, q: int, r: int)
    requires m > 0
    requires x == q * m + r
    requires 0 <= r < m
    ensures x / m == q && x % m == r
  {
    var q', r' := x / m, x % m;
    Unique(m, q, r, q', r');
  }

  lemma Unique(m: int, q: int, r: int, q': int, r': int)
    requires m > 0 && 0 <= r < m && 0 <= r' < m
    requires q * m + r == q' * m + r'
    ensures q == q' && r == r'
  {
    if q > q' {
      MulGe(q - q', m);
    } else if q < q' {
      MulGe(q' - q, m);
    }
  }

  lemma {:induction false} Pow2Add(a: nat, b: nat)
    ensures Pow2(a + b) == Pow2(a) * Pow2(b)
  {
    if a != 0 {
      Pow2Add(a - 1, b);
    }
  }

  // ---------------------------------------------------------------- single bits

  function Bit(w: nat, i: nat): bool {
    if i == 0 then w % 2 == 1 else Bit(w / 2, i - 1)
  }

  lemma {:induction false} BitOfAnd(a: nat, b: nat, i: nat)
    ensures Bit(And(a, b), i) <==> Bit(a, i) && Bit(b, i)
    decreases i
  {
    if a == 0 && b == 0 {
      BitOfZero(i);
    } else if i != 0 {
      BitOfAnd(a / 2, b / 2, i - 1);
    }
  }

  lemma {:induction false} BitOfOr(a: nat, b: nat, i: nat)
    ensures Bit(Or(a, b), i) <==> Bit(a, i) || Bit(b, i)
    decreases i
  {
    if a == 0 && b == 0 {
      BitOfZero(i);
    } else if i != 0 {
      BitOfOr(a / 2, b / 2, i - 1);
    }
  }

  lemma {:induction false} BitOfZero(i: nat)
    ensures !Bit(0, i)
  {
    if i != 0 {
      BitOfZero(i - 1);
    }
  }

  lemma {:induction false} BitOfPow2(j: nat, i: nat)
    ensures Bit(Pow2(j), i) <==> i == j
  {
    if i != 0 && j != 0 {
      BitOfPow2(j - 1, i - 1);
    } else if i != 0 {
      BitOfZero(i - 1);
    }
  }

  /** Complementing n bits. */
  lemma {:induction false} BitOfComplement(x: nat, n: nat, i: nat)
    requires x < Pow2(n) && i < n
    ensures Bit(Pow2(n) - 1 - x, i) <==> !Bit(x, i)
  {
    if i != 0 {
      BitOfComplement(x / 2, n - 1, i - 1);
      assert (Pow2(n) - 1 - x) / 2 == Pow2(n - 1) - 1 - x / 2;
    }
  }

  /** Words with the same bits are the same word. */
  lemma {:induction false} SameBits(a: nat, b: nat, n: nat)
    requires a < Pow2(n) && b < Pow2(n) && forall i: nat :: i < n ==> (Bit(a, i) <==> Bit(b, i))
    ensures a == b
  {
    if n != 0 {
      assert Bit(a, 0) <==> Bit(b, 0);
      forall i: nat | i < n - 1 ensures Bit(a / 2, i) <==> Bit(b / 2, i) {
        assert Bit(a, i + 1) <==> Bit(b, i + 1);
      }
      SameBits(a / 2, b / 2, n - 1);
    }
  }

  /** The test `w & (1 << j)`. */
  lemma {:induction false} AndOneBit(w: nat, j: nat)
    ensures And(w, Pow2(j)) == if Bit(w, j) then Pow2(j) else 0
  {
    if j == 0 {
      AndZero(w / 2);
    } else {
      AndOneBit(w / 2, j - 1);
    }
  }

  lemma {:induction false} AndBound(a: nat, b: nat)
    ensures And(a, b) <= a && And(a, b) <= b
    decreases a + b
  {
    if a != 0 || b != 0 {
      AndBound(a / 2, b / 2);
    }
  }

  lemma {:induction false} OrBound(a: nat, b: nat, n: nat)
    requires a < Pow2(n) && b < Pow2(n)
    ensures Or(a, b) < Pow2(n)
  {
    if n != 0 {
      OrBound(a / 2, b / 2, n - 1);
    }
  }

  /** n ones above k zeros. */
  function HighMask(k: nat, n: nat): nat {
    if k == 0 then Pow2(n) - 1 else 2 * HighMask(k - 1, n)
  }

  /** Such a mask clears the low k bits of a word of k + n bits. */
  lemma {:induction false} AndHighMask(x: nat, k: nat, n: nat)
    requires x < Pow2(k + n)
    ensures And(x, HighMask(k, n)) == x - Low(x, k)
  {
    if k == 0 {
      AndMask(x, n);
      SmallLow(x, n);
    } else {
      AndHighMask(x / 2, k - 1, n);
    }
  }

  lemma {:induction false} SmallLow(x: nat, n: nat)
    requires x < Pow2(n)
    ensures Low(x, n) == x
  {
    if n != 0 {
      SmallLow(x / 2, n - 1);
    }
  }
}
