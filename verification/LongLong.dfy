/** Signed and unsigned 64-bit multiplication and signed division, from 32-bit words
(muldi3.c, divdi3.c, moddi3.c).  A `long long` is an int in range; a bit pattern is a nat
below 2^64; two's complement wrap-around is `Signed`. */
module LongLong {
  import opened Common
  import opened Bits
  import opened Digits
  import opened QDivRem

  const MIN: int := -0x8000_0000_0000_0000
  const MAX: int := 0x7fff_ffff_ffff_ffff

  predicate IsLongLong(x: int) {
    MIN <= x <= MAX
  }

  /** The bit pattern of x, reduced mod 2^64. */
  function Pattern(x: int): (r: nat)
    ensures r < DWORD
  {
    x % DWORD
  }

  /** The long long with the bit pattern of x. */
  function Signed(x: int): (r: int)
    ensures IsLongLong(r)
    ensures IsLongLong(x) ==> r == x
    ensures (r - x) % DWORD == 0
  {
    (x - MIN) % DWORD + MIN
  }

  /** Congruent values wrap to the same long long. */
  lemma SignedUnique(x: int, y: int, k: int)
    requires x == y + k * DWORD
    ensures Signed(x) == Signed(y)
  {
    var r := (y - MIN) % DWORD;
    DivModUnique(x - MIN, DWORD, (y - MIN) / DWORD + k, r);
  }

  // ---------------------------------------------------------------- __lmulq

  /** prod += x << N on a two-word product, with the hand-made carry. */
  method AddShifted(h: nat, l: nat, x: nat) returns (h': nat, l': nat)
    requires h < WORD && l < WORD && x < WORD
    ensures h' < WORD && l' < WORD
    ensures h' * WORD + l' == (h * WORD + l + x * B) % DWORD
  {
    var was := l;
    l' := (l + LHup(x)) % WORD;
    h' := (h + (HHalf(x) + (if l' < was then 1 else 0))) % WORD;
  }

  /** prod -= x << N, with the hand-made borrow. */
  method SubShifted(h: nat, l: nat, x: nat) returns (h': nat, l': nat)
    requires h < WORD && l < WORD && x < WORD
    ensures h' < WORD && l' < WORD
    ensures h' * WORD + l' == (h * WORD + l - x * B) % DWORD
  {
    var was := l;
    l' := (l - LHup(x)) % WORD;
    h' := (h - (HHalf(x) + (if l' > was then 1 else 0))) % WORD;
    Borrowed(h, l, HHalf(x), LHup(x), h', l');
  }

  lemma Borrowed(h: nat, l: nat, xh: nat, xl: nat, h': nat, l': nat)
    requires h < WORD && l < WORD && xh < WORD && xl < WORD
    requires l' == (l - xl) % WORD && h' == (h - (xh + (if l' > l then 1 else 0))) % WORD
    ensures h' * WORD + l' == (h * WORD + l - (xh * WORD + xl)) % DWORD
  {
    var b := if l < xl then 1 else 0;
    assert l' == l - xl + b * WORD;
    var c := if h < xh + b then 1 else 0;
    assert h' == h - xh - b + c * WORD;
    DivModUnique(h * WORD + l - (xh * WORD + xl), DWORD, -c, h' * WORD + l');
  }

  function WithSign(neg: bool, x: int): int {
    if neg then -x else x
  }

  /** prod += x, for a word x. */
  method AddLow(h: nat, l: nat, x: nat) returns (p: nat)
    requires h < WORD && l < WORD && x < WORD
    ensures p == (h * WORD + l + x) % DWORD
  {
    var h', l' := h, (l + x) % WORD;
    if l' < x {
      h' := (h' + 1) % WORD;
    }
    p := h' * WORD + l';
  }

  /** |x - y| and whether the sign was dropped. */
  function Diff(x: nat, y: nat): (r: (nat, bool))
    ensures x - y == WithSign(r.1, r.0)
    ensures r.1 <==> x < y
  {
    if x >= y then (x - y, false) else (y - x, true)
  }

  /** Two shortword products of distinct sign, summed up as the middle term. */
  lemma MiddleTerm(u1: nat, u0: nat, v1: nat, v0: nat, ud: (nat, bool), vd: (nat, bool), mid: nat, neg: bool)
    requires ud == Diff(u1, u0) && vd == Diff(v0, v1)
    requires mid == ud.0 * vd.0 && (neg <==> ud.1 != vd.1)
    ensures WithSign(neg, mid) == u1 * v0 - u1 * v1 - u0 * v0 + u0 * v1
  {
    assert (u1 - u0) * (v0 - v1) == u1 * v0 - u1 * v1 - u0 * v0 + u0 * v1;
  }

  lemma KaratsubaSum(u1: nat, u0: nat, v1: nat, v0: nat, smid: int)
    requires smid == u1 * v0 - u1 * v1 - u0 * v0 + u0 * v1
    ensures (u1 * B + u0) * (v1 * B + v0)
         == u1 * v1 * WORD + u1 * v1 * B + smid * B + u0 * v0 * B + u0 * v0
  {
    assert (u1 * B + u0) * (v1 * B + v0) == u1 * v1 * WORD + (u1 * v0 + u0 * v1) * B + u0 * v0;
  }

  lemma WordProduct(x: nat, y: nat)
    requires x < WORD && y < WORD
    ensures 0 <= x * y < DWORD
  {
    MulMono(0, x, y);
    MulMono(x, WORD - 1, y);
    MulMono(y, WORD - 1, WORD - 1);
  }

  lemma ModAdd(a: int, b: int)
    ensures (a % DWORD + b) % DWORD == (a + b) % DWORD
  {
    var r := (a % DWORD + b) % DWORD;
    DivModUnique(a + b, DWORD, (a % DWORD + b) / DWORD + a / DWORD, r);
  }

  /** Adding up shifted parts mod 2^64 adds them up exactly when the total fits. */
  lemma Accumulate(p0: int, p1: int, p2: int, p3: int, high: int, smid: int, low: int, total: int)
    requires p0 == (high * WORD + high * B) % DWORD
    requires p1 == (p0 + smid * B) % DWORD
    requires p2 == (p1 + low * B) % DWORD
    requires p3 == (p2 + low) % DWORD
    requires total == high * WORD + high * B + smid * B + low * B + low
    requires 0 <= total < DWORD
    ensures p3 == total
  {
    var a := high * WORD + high * B;
    ModAdd(a, smid * B);
    ModAdd(a + smid * B, low * B);
    ModAdd(a + smid * B + low * B, low);
    DivModUnique(total, DWORD, 0, total);
  }

  /** __lmulq: the exact 64-bit product of two words. */
  method LMulQ(u: nat, v: nat) returns (p: nat)
    requires u < WORD && v < WORD
    ensures p == u * v
    ensures p < DWORD
  {
    WordProduct(u, v);
    p := MulHalves(HHalf(u), LHalf(u), HHalf(v), LHalf(v));
  }

  method MulHalves(u1: nat, u0: nat, v1: nat, v0: nat) returns (p: nat)
    requires u1 < B && u0 < B && v1 < B && v0 < B
    ensures p == (u1 * B + u0) * (v1 * B + v0)
  {
    var low := u0 * v0;
    if u1 == 0 && v1 == 0 {
      return low;
    }
    var ud, vd := Diff(u1, u0), Diff(v0, v1);
    var neg := ud.1 != vd.1;
    var mid, high := ud.0 * vd.0, u1 * v1;
    ghost var total := MulParts(u1, u0, v1, v0, high, mid, neg, low);
    p := Assemble(high, mid, neg, low, total, WithSign(neg, mid));
  }

  lemma MulParts(u1: nat, u0: nat, v1: nat, v0: nat, high: int, mid: int, neg: bool, low: int) returns (total: int)
    requires u1 < B && u0 < B && v1 < B && v0 < B
    requires high == u1 * v1 && low == u0 * v0 && mid == Diff(u1, u0).0 * Diff(v0, v1).0
    requires neg <==> Diff(u1, u0).1 != Diff(v0, v1).1
    ensures total == (u1 * B + u0) * (v1 * B + v0)
    ensures 0 <= high <= (B - 1) * (B - 1) && 0 <= mid <= (B - 1) * (B - 1) && 0 <= low <= (B - 1) * (B - 1)
    ensures total == high * WORD + high * B + WithSign(neg, mid) * B + low * B + low
    ensures 0 <= total < DWORD
  {
    DigitProduct(u0, v0);
    DigitProduct(Diff(u1, u0).0, Diff(v0, v1).0);
    DigitProduct(u1, v1);
    total := SumOfParts(u1, u0, v1, v0, high, mid, neg, low);
  }

  lemma SumOfParts(u1: nat, u0: nat, v1: nat, v0: nat, high: int, mid: int, neg: bool, low: int) returns (total: int)
    requires u1 < B && u0 < B && v1 < B && v0 < B
    requires high == u1 * v1 && low == u0 * v0 && mid == Diff(u1, u0).0 * Diff(v0, v1).0
    requires mid >= 0 && (neg <==> Diff(u1, u0).1 != Diff(v0, v1).1)
    ensures total == (u1 * B + u0) * (v1 * B + v0)
    ensures total == high * WORD + high * B + WithSign(neg, mid) * B + low * B + low
    ensures 0 <= total < DWORD
  {
    MiddleTerm(u1, u0, v1, v0, Diff(u1, u0), Diff(v0, v1), mid, neg);
    KaratsubaSum(u1, u0, v1, v0, WithSign(neg, mid));
    WordProduct(u1 * B + u0, v1 * B + v0);
    total := (u1 * B + u0) * (v1 * B + v0);
  }

  /** (x << 2N) + (x << N) */
  method Doubled(x: nat) returns (h: nat, l: nat)
    requires x < WORD
    ensures h < WORD && l < WORD
    ensures h * WORD + l == (x * WORD + x * B) % DWORD
  {
    h, l := (x + HHalf(x)) % WORD, LHup(x);
  }

  method Assemble(high: nat, mid: nat, neg: bool, low: nat, ghost total: nat, ghost smid: int) returns (p: nat)
    requires high <= (B - 1) * (B - 1) && mid <= (B - 1) * (B - 1) && low <= (B - 1) * (B - 1)
    requires smid == WithSign(neg, mid)
    requires total == high * WORD + high * B + smid * B + low * B + low
    requires total < DWORD
    ensures p == total
  {
    var prodh, prodl := Doubled(high);
    ghost var p0 := prodh * WORD + prodl;
    if neg {
      prodh, prodl := SubShifted(prodh, prodl, mid);
    } else {
      prodh, prodl := AddShifted(prodh, prodl, mid);
    }
    ghost var p1 := prodh * WORD + prodl;
    prodh, prodl := AddShifted(prodh, prodl, low);
    ghost var p2 := prodh * WORD + prodl;
    p := AddLow(prodh, prodl, low);
    Accumulate(p0, p1, p2, p, high, smid, low, total);
  }

  // ---------------------------------------------------------------- __muldi3

  /** The words of a product mod 2^64: only the low product keeps its upper word. */
  lemma ProductWords(u1: nat, u0: nat, v1: nat, v0: nat, mid: int, high: int, low: int, H: int)
    requires u1 < WORD && u0 < WORD && v1 < WORD && v0 < WORD
    requires (mid - (u1 - u0) * (v0 - v1)) % WORD == 0 && (high - u1 * v1) % WORD == 0
    requires low == u0 * v0 && H == (high + mid + low % WORD + low / WORD) % WORD
    ensures H * WORD + low % WORD == ((u1 * WORD + u0) * (v1 * WORD + v0)) % DWORD
  {
    CrossTerms(u1, u0, v1, v0);
    WordsOf(u1 * v1, u1 * v0 + u0 * v1, low, mid, high, H);
  }

  lemma WordsOf(p: int, s: int, low: int, mid: int, high: int, H: int)
    requires (mid - (s - p - low)) % WORD == 0 && (high - p) % WORD == 0
    requires H == (high + mid + low % WORD + low / WORD) % WORD
    ensures H * WORD + low % WORD == (p * DWORD + s * WORD + low) % DWORD
  {
    var k1, k2 := (mid - (s - p - low)) / WORD, (high - p) / WORD;
    var k := (high + mid + low % WORD + low / WORD) / WORD;
    var c := k1 + k2 - k - p - low / WORD;
    assert H * WORD + low % WORD == p * DWORD + s * WORD + low + c * DWORD;
    DivModUnique(p * DWORD + s * WORD + low, DWORD, -c, H * WORD + low % WORD);
  }

  lemma CrossTerms(u1: int, u0: int, v1: int, v0: int)
    ensures (u1 - u0) * (v0 - v1) == u1 * v0 + u0 * v1 - u1 * v1 - u0 * v0
    ensures (u1 * WORD + u0) * (v1 * WORD + v0) == u1 * v1 * DWORD + (u1 * v0 + u0 * v1) * WORD + u0 * v0
  {
    assert (u1 - u0) * (v0 - v1) == u1 * (v0 - v1) - u0 * (v0 - v1);
    assert (u1 * WORD + u0) * (v1 * WORD + v0) == u1 * WORD * (v1 * WORD + v0) + u0 * (v1 * WORD + v0);
    assert u1 * WORD * (v1 * WORD + v0) == u1 * v1 * DWORD + u1 * v0 * WORD;
  }

  /** The product of two non-negative patterns mod 2^64. */
  method MulPatterns(u: nat, v: nat) returns (prod: nat)
    requires u < DWORD && v < DWORD
    ensures prod == (u * v) % DWORD
  {
    var u1, u0, v1, v0 := u / WORD, u % WORD, v / WORD, v % WORD;
    if u1 == 0 && v1 == 0 {
      prod := LMulQ(u0, v0);
      DivModUnique(u0 * v0, DWORD, 0, u0 * v0);
    } else {
      var low := LMulQ(u0, v0);
      var ud, vd := Diff(u1, u0), Diff(v0, v1);
      var negmid := ud.1 != vd.1;
      var mid := (ud.0 * vd.0) % WORD;
      var high := (u1 * v1) % WORD;
      var smid := WithSign(negmid, mid);
      var H := (high + smid + low % WORD + low / WORD) % WORD;
      MidWord(u1, u0, v1, v0, mid, negmid);
      ModOf(u1 * v1, high);
      ProductWords(u1, u0, v1, v0, smid, high, low, H);
      prod := H * WORD + low % WORD;
    }
  }

  lemma ModOf(x: int, r: int)
    requires r == x % WORD
    ensures (r - x) % WORD == 0
  {
  }

  lemma MidWord(u1: nat, u0: nat, v1: nat, v0: nat, mid: nat, neg: bool)
    requires mid == (Diff(u1, u0).0 * Diff(v0, v1).0) % WORD
    requires neg <==> Diff(u1, u0).1 != Diff(v0, v1).1
    ensures (WithSign(neg, mid) - (u1 - u0) * (v0 - v1)) % WORD == 0
  {
    var x := Diff(u1, u0).0 * Diff(v0, v1).0;
    assert (u1 - u0) * (v0 - v1) == WithSign(neg, x);
  }

  /** __muldi3: the product of two long longs, wrapped. */
  method MulDi3(a: int, b: int) returns (r: int)
    requires IsLongLong(a) && IsLongLong(b)
    ensures r == Signed(a * b)
  {
    var u, v := Pattern(if a >= 0 then a else -a), Pattern(if b >= 0 then b else -b);
    var negall := (a < 0) != (b < 0);
    var prod := MulPatterns(u, v);
    r := Signed(WithSign(negall, prod));
    SignOfProduct(a, b, u, v, prod);
  }

  lemma SignOfProduct(a: int, b: int, u: int, v: int, prod: int)
    requires IsLongLong(a) && IsLongLong(b)
    requires u == Pattern(if a >= 0 then a else -a) && v == Pattern(if b >= 0 then b else -b)
    requires prod == (u * v) % DWORD
    ensures Signed(WithSign((a < 0) != (b < 0), prod)) == Signed(a * b)
  {
    assert a == WithSign(a < 0, u) && b == WithSign(b < 0, v);
    SignedProduct(a < 0, b < 0, u, v);
    SignedOfWrapped((a < 0) != (b < 0), u * v, prod);
  }

  lemma SignedOfWrapped(neg: bool, x: int, prod: int)
    requires prod == x % DWORD
    ensures Signed(WithSign(neg, prod)) == Signed(WithSign(neg, x))
  {
    SignedUnique(WithSign(neg, prod), WithSign(neg, x), WithSign(neg, -(x / DWORD)));
  }

  // ---------------------------------------------------------------- __divdi3, __moddi3

  /** Division truncated toward zero. */
  function TruncDiv(a: int, b: int): int
    requires b != 0
  {
    WithSign((a < 0) != (b < 0), Abs(a) / Abs(b))
  }

  /** Its remainder, with the sign of the dividend. */
  function TruncMod(a: int, b: int): int
    requires b != 0
  {
    WithSign(a < 0, Abs(a) % Abs(b))
  }

  function Abs(x: int): nat {
    if x < 0 then -x else x
  }

  /** ISO C99, section 6.5.5: (a/b)*b + a%b is a, and the quotient is cut toward zero. */
  lemma Truncates(a: int, b: int)
    requires b != 0
    ensures TruncDiv(a, b) * b + TruncMod(a, b) == a
    ensures Abs(TruncMod(a, b)) < Abs(b)
    ensures TruncMod(a, b) != 0 ==> (TruncMod(a, b) < 0 <==> a < 0)
    ensures Abs(TruncDiv(a, b) * b) <= Abs(a)
  {
    DivMod(Abs(a), Abs(b));
    DivNonneg(Abs(a), Abs(b));
    TruncatesWith(a, b, Abs(a) / Abs(b), Abs(a) % Abs(b));
  }

  lemma TruncatesWith(a: int, b: int, q: int, r: int)
    requires Abs(a) == q * Abs(b) + r && 0 <= r < Abs(b) && q >= 0
    ensures WithSign((a < 0) != (b < 0), q) * b + WithSign(a < 0, r) == a
    ensures Abs(WithSign((a < 0) != (b < 0), q) * b) <= Abs(a)
    ensures b != 0 && (Abs(b) > 1 || a != MIN) && IsLongLong(a) ==> q <= MAX
  {
    SignedProduct((a < 0) != (b < 0), b < 0, q, Abs(b));
    assert b == WithSign(b < 0, Abs(b));
    assert 0 <= q * Abs(b) by { MulMono(0, q, Abs(b)); }
    MulMono(1, Abs(b), q);
    if Abs(b) > 1 {
      MulMono(2, Abs(b), q);
    }
  }

  lemma SignedProduct(s: bool, t: bool, x: int, y: int)
    ensures WithSign(s, x) * WithSign(t, y) == WithSign(s != t, x * y)
  {
  }

  lemma RemainderFits(a: int, b: int)
    requires IsLongLong(b) && b != 0
    ensures IsLongLong(TruncMod(a, b))
  {
    DivMod(Abs(a), Abs(b));
  }

  /** The unsigned word `ua = a; if (a < 0) ua = -ua;` */
  function Magnitude(a: int): (r: nat)
    requires IsLongLong(a)
    ensures r == Abs(a) && r < DWORD
  {
    if a < 0 then Pattern(0 - Pattern(a)) else Pattern(a)
  }

  /** __divdi3: the truncated quotient, wrapped; a zero divisor traps. */
  method DivDi3(a: int, b: int) returns (r: Option<int>)
    requires IsLongLong(a) && IsLongLong(b)
    ensures r.None? <==> b == 0
    ensures b != 0 ==> r == Some(Signed(TruncDiv(a, b)))
  {
    var neg := false;
    var ua, ub := Magnitude(a), Magnitude(b);
    if a < 0 {
      neg := !neg;
    }
    if b < 0 {
      neg := !neg;
    }
    var res := DivRem(ua, ub, false);
    match res {
      case DivideByZero => r := None;
      case Quotient(quot, _) =>
        var uq := Pattern(WithSign(neg, quot));
        r := Some(Signed(uq));
        SignedOfPattern(WithSign(neg, quot));
    }
  }

  lemma SignedOfPattern(x: int)
    ensures Signed(Pattern(x)) == Signed(x)
  {
    SignedUnique(Pattern(x), x, -(x / DWORD));
  }

  /** __moddi3: the remainder with the dividend's sign; a zero divisor traps. */
  method ModDi3(a: int, b: int) returns (r: Option<int>)
    requires IsLongLong(a) && IsLongLong(b)
    ensures r.None? <==> b == 0
    ensures b != 0 ==> r == Some(TruncMod(a, b))
  {
    var ua, ub := Magnitude(a), Magnitude(b);
    var res := DivRem(ua, ub, true);
    match res {
      case DivideByZero => r := None;
      case Quotient(_, rem) =>
        var ur := Pattern(WithSign(a < 0, rem.value));
        r := Some(Signed(ur));
        SignedOfPattern(WithSign(a < 0, rem.value));
        RemainderFits(a, b);
    }
  }

  /** The three routines together undo each other for every dividend and non-zero divisor, the
      overflowing MIN / -1 included. */
  method DivideAndRebuild(a: int, b: int) returns (q: int, m: int, back: int)
    requires IsLongLong(a) && IsLongLong(b) && b != 0
    ensures back == a
    ensures Abs(m) < Abs(b) && (m != 0 ==> (m < 0 <==> a < 0))
    ensures !(a == MIN && b == -1) ==> q * b + m == a
  {
    var dq := DivDi3(a, b);
    var dm := ModDi3(a, b);
    q, m := dq.value, dm.value;
    var prod := MulDi3(q, b);
    back := Signed(prod + m);
    Truncates(a, b);
    Rebuild(a, b);
    if !(a == MIN && b == -1) {
      QuotientFits(a, b);
    }
  }

  lemma QuotientFits(a: int, b: int)
    requires IsLongLong(a) && IsLongLong(b) && b != 0 && !(a == MIN && b == -1)
    ensures IsLongLong(TruncDiv(a, b))
  {
    DivMod(Abs(a), Abs(b));
    DivNonneg(Abs(a), Abs(b));
    TruncatesWith(a, b, Abs(a) / Abs(b), Abs(a) % Abs(b));
  }

  /** Wrapping the quotient and the product still gives the dividend back. */
  lemma Rebuild(a: int, b: int)
    requires IsLongLong(a) && IsLongLong(b) && b != 0
    ensures Signed(Signed(Signed(TruncDiv(a, b)) * b) + TruncMod(a, b)) == a
  {
    Truncates(a, b);
    var q, m := TruncDiv(a, b), TruncMod(a, b);
    RebuildWith(a, b, q, m);
  }

  lemma RebuildWith(a: int, b: int, q: int, m: int)
    requires IsLongLong(a) && q * b + m == a
    ensures Signed(Signed(Signed(q) * b) + m) == a
  {
    var k := (Signed(q) - q) / DWORD;
    assert Signed(q) == q + k * DWORD;
    WrappedFactor(q, k, b);
    SignedUnique(Signed(q) * b, q * b, k * b);
    var j := (Signed(q * b) - q * b) / DWORD;
    SignedUnique(Signed(q * b) + m, a, j);
  }

  lemma WrappedFactor(q: int, k: int, b: int)
    ensures (q + k * DWORD) * b == q * b + k * b * DWORD
  {
    assert k * DWORD * b == k * b * DWORD;
  }
}
