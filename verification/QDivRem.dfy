/** Unsigned 64-bit division (qdivrem.c): Knuth's Algorithm D on 16-bit digits.

The digit arrays and their moving base pointers are kept: `u`, `v` and `q` of the source are
an array and an offset here.  `unsigned int` arithmetic wraps at 2^32 explicitly. */
module QDivRem {
  import opened Common
  import opened Bits
  import opened Digits

  /** What a call does: trap on a zero divisor, or return a quotient and, if asked, a remainder. */
  datatype Outcome = DivideByZero | Quotient(quot: nat, rem: Option<nat>)

  // ---------------------------------------------------------------- shifting digit strings

  /** What is left of one digit after a left shift, with the bits that come up from the next. */
  function ShiftedDigit(x: nat, y: nat, sh: nat): (r: nat)
    requires x < B && y < B && 0 < sh < HALF_BITS
    ensures r == Low(x, HALF_BITS - sh) * Pow2(sh) + Shr(y, HALF_BITS - sh)
    ensures r < B
  {
    ShiftedDigitParts(x, y, sh);
    Or(LHalf(x * Pow2(sh)), Shr(y, HALF_BITS - sh))
  }

  lemma ShiftedDigitParts(x: nat, y: nat, sh: nat)
    requires x < B && y < B && 0 < sh < HALF_BITS
    ensures var r := Low(x, HALF_BITS - sh) * Pow2(sh) + Shr(y, HALF_BITS - sh);
            r < B && Or(LHalf(x * Pow2(sh)), Shr(y, HALF_BITS - sh)) == r
  {
    ShiftParts(x, y, sh);
    OrDisjoint(Low(x, HALF_BITS - sh), Shr(y, HALF_BITS - sh), sh);
  }

  lemma ShiftParts(x: nat, y: nat, sh: nat)
    requires x < B && y < B && 0 < sh < HALF_BITS
    ensures Pow2(sh) * Pow2(HALF_BITS - sh) == B
    ensures (x * Pow2(sh)) % B == Low(x, HALF_BITS - sh) * Pow2(sh)
    ensures x * Pow2(sh) == Shr(x, HALF_BITS - sh) * B + Low(x, HALF_BITS - sh) * Pow2(sh)
    ensures Shr(y, HALF_BITS - sh) < Pow2(sh)
    ensures Low(x, HALF_BITS - sh) * Pow2(sh) + Shr(y, HALF_BITS - sh) < B
  {
    BaseIsPow2();
    Pow2Add(sh, HALF_BITS - sh);
    LowHigh(x, HALF_BITS - sh);
    LowHigh(y, HALF_BITS - sh);
    var P, R := Pow2(sh), Pow2(HALF_BITS - sh);
    HighPart(y, Shr(y, HALF_BITS - sh), P, R);
    ShiftUp(x, Shr(x, HALF_BITS - sh), Low(x, HALF_BITS - sh), P, R);
  }

  lemma ShiftUp(x: nat, h: nat, l: nat, P: nat, R: nat)
    requires P > 0 && P * R == B && x == h * R + l && l < R
    ensures x * P == h * B + l * P
    ensures l * P <= B - P
    ensures (x * P) % B == l * P
  {
    calc {
      x * P;
      h * R * P + l * P;
      h * (P * R) + l * P;
    }
    MulMono(l, R - 1, P);
    DivModUnique(x * P, B, h, l * P);
  }

  lemma HighPart(y: nat, g: nat, P: nat, R: nat)
    requires g * R <= y < P * R
    ensures g < P
  {
    if g >= P {
      MulMono(P, g, R);
    }
  }

  lemma MulMono(a: int, b: int, c: int)
    requires a <= b && c >= 0
    ensures a * c <= b * c
  {
  }

  /** The first i digits are shifted; h is what the next digit will push up into them. */
  ghost predicate ShlInv(cur: seq<nat>, was: seq<nat>, o: nat, i: nat, sh: nat, h: nat) {
    && o + i <= |cur| == |was| && AllDigits(cur)
    && cur[..o] == was[..o] && cur[o + i..] == was[o + i..]
    && o < |was| && sh <= HALF_BITS && Shifted(Val(cur[o..o + i]), Shr(was[o], HALF_BITS - sh), PowB(i), Val(was[o..o + i]), Pow2(sh), h)
  }

  ghost predicate Shifted(n: nat, h0: nat, pb: nat, w: nat, P: nat, h: nat) {
    n + h0 * pb == w * P + h
  }

  lemma ShlInvStep(cur: seq<nat>, was: seq<nat>, o: nat, i: nat, sh: nat, h: nat, d: nat, h': nat)
    requires ShlInv(cur, was, o, i, sh, h) && o + i < |was| && 0 < sh < HALF_BITS && AllDigits(was)
    requires h == Shr(was[o + i], HALF_BITS - sh)
    requires d == Low(was[o + i], HALF_BITS - sh) * Pow2(sh) + h' && d < B
    ensures ShlInv(cur[o + i := d], was, o, i + 1, sh, h')
  {
    var nxt := cur[o + i := d];
    assert nxt[o + i + 1..] == cur[o + i..][1..] == was[o + i..][1..];
    assert nxt[o..o + i + 1][..i] == cur[o..o + i] && was[o..o + i + 1][..i] == was[o..o + i];
    ShiftParts(was[o + i], 0, sh);
    ShlStep(Val(cur[o..o + i]), Shr(was[o], HALF_BITS - sh), PowB(i), Val(was[o..o + i]), Pow2(sh), h, was[o + i],
            d, h');
  }

  /** One digit of `Shl`: prefix values n (new), w (was), carry h0 out of the top and h up. */
  lemma ShlStep(n: nat, h0: nat, pb: nat, w: nat, P: nat, h: nat, x: nat, d: nat, h': nat)
    requires Shifted(n, h0, pb, w, P, h)
    requires x * P == h * B + (d - h')
    ensures Shifted(n * B + d, h0, B * pb, w * B + x, P, h')
  {
    assert h0 * (B * pb) == h0 * pb * B;
    assert (w * B + x) * P == w * P * B + x * P;
  }

  /** shl: shift p[o..o+len] left; what falls out at the top is the summand with B^(len+1). */
  method Shl(p: array<nat>, o: nat, len: nat, sh: nat)
    requires o + len < p.Length && 0 < sh < HALF_BITS
    requires AllDigits(p[..])
    modifies p
    ensures ShlInv(p[..], old(p[..]), o, len + 1, sh, 0)
  {
    ghost var was := p[..];
    var i: nat := 0;
    while i < len
      invariant i <= len
      invariant ShlInv(p[..], was, o, i, sh, Shr(was[o + i], HALF_BITS - sh))
    {
      assert p[..][o + i..][0] == was[o + i..][0] && p[..][o + i..][1] == was[o + i..][1];
      var d := ShiftedDigit(p[o + i], p[o + i + 1], sh);
      ShlInvStep(p[..], was, o, i, sh, Shr(was[o + i], HALF_BITS - sh), d, Shr(was[o + i + 1], HALF_BITS - sh));
      ghost var nxt := p[..][o + i := d];
      p[o + i] := d;
      assert p[..] == nxt;
      i := i + 1;
    }
    assert p[..][o + i..][0] == was[o + i..][0];
    ShiftParts(was[o + i], 0, sh);
    var d := LHalf(p[o + i] * Pow2(sh));
    ShlInvStep(p[..], was, o, i, sh, Shr(was[o + i], HALF_BITS - sh), d, 0);
    ghost var nxt := p[..][o + i := d];
    p[o + i] := d;
    assert p[..] == nxt;
  }

  // ---------------------------------------------------------------- D3: the trial digit

  /** A two-digit number over one larger than its top digit: the quotient is a digit. */
  method Divide(u0: nat, u1: nat, v1: nat) returns (q: nat, r: nat)
    requires u0 < v1 < B && u1 < B
    ensures q * v1 + r == u0 * B + u1 && r < v1 && q < B
  {
    var nn := Combine(u0, u1);
    q, r := nn / v1, nn % v1;
    DivMod(nn, v1);
    HighPart(nn, q, B, v1);
  }

  /** Step D3.  W is the weight of the third digit from the top; vr and ur are the digits
      below it.  The trial digit comes out as the true quotient digit or exactly one more. */
  method Estimate(u0: nat, u1: nat, u2: nat, v1: nat, v2: nat, ghost W: nat, ghost vr: nat, ghost ur: nat)
    returns (qhat: nat)
    requires u0 < B && u1 < B && u2 < B && v2 < B && B / 2 <= v1 < B
    requires vr < W && ur < W
    requires Top3(u0, u1, u2) * W + ur < ((v1 * B + v2) * W + vr) * B
    ensures qhat < B
    ensures (qhat - 1) * ((v1 * B + v2) * W + vr) <= Top3(u0, u1, u2) * W + ur
    ensures Top3(u0, u1, u2) * W + ur < (qhat + 1) * ((v1 * B + v2) * W + vr)
  {
    TopDigit(u0, u1, u2, v1, v2, W, vr, ur);
    var rhat: nat;
    if u0 == v1 {
      // the source jumps into the loop here, to its first decrement
      qhat, rhat := B - 1, u1 + v1;
    } else {
      qhat, rhat := Divide(u0, u1, v1);
      FirstGuess(u0 * B + u1, u2, v1, v2, W, vr, ur, qhat, rhat);
    }
    ghost var N, V := Top3(u0, u1, u2) * W + ur, (v1 * B + v2) * W + vr;
    qhat := Correct(u0 * B + u1, u2, v1, v2, qhat, rhat, W, vr, ur, N, V);
  }

  /** N and V are the dividend and the divisor of step D3. */
  ghost predicate Scaled(N: nat, V: nat, uu: nat, u2: nat, v1: nat, v2: nat, W: nat, vr: nat, ur: nat) {
    forall b {:trigger Look(b)} :: Look(b) ==>
      vr < W && ur < W && N == (uu * B + u2) * W + ur && V == (v1 * B + v2) * W + vr
  }

  /** The correction loop of step D3, left at once when rhat is no longer a digit. */
  method Correct(ghost uu: nat, u2: nat, v1: nat, v2: nat, qhat0: nat, rhat0: nat,
                 ghost W: nat, ghost vr: nat, ghost ur: nat, ghost N: nat, ghost V: nat)
    returns (qhat: nat)
    requires u2 < B && v2 < B && 0 < v1 < B && qhat0 < B && Scaled(N, V, uu, u2, v1, v2, W, vr, ur)
    requires qhat0 * v1 + rhat0 == uu && N < (qhat0 + 1) * V
    ensures qhat < B && (qhat - 1) * V <= N < (qhat + 1) * V
  {
    qhat := qhat0;
    var rhat := rhat0;
    while rhat < B && v2 * qhat > Combine(rhat, u2)
      invariant qhat < B && qhat * v1 + rhat == uu && N < (qhat + 1) * V
      decreases qhat
    {
      OneTooBig(N, V, uu, u2, v1, v2, W, vr, ur, qhat, rhat);
      qhat := qhat - 1;
      rhat := rhat + v1;
    }
    if rhat >= B {
      MulMono(v2, B, qhat);
    }
    BigEnough(N, V, uu, u2, v1, v2, W, vr, ur, qhat, rhat);
  }

  lemma OneTooBig(N: nat, V: nat, uu: nat, u2: nat, v1: nat, v2: nat, W: nat, vr: nat, ur: nat, qhat: nat, rhat: nat)
    requires Scaled(N, V, uu, u2, v1, v2, W, vr, ur) && qhat * v1 + rhat == uu && v2 * qhat > rhat * B + u2
    ensures qhat > 0 && N < qhat * V && (qhat - 1) * v1 + (rhat + v1) == uu
  {
    assert Look(true);
    TooBig(uu, u2, v1, v2, W, vr, ur, qhat, rhat);
  }

  lemma BigEnough(N: nat, V: nat, uu: nat, u2: nat, v1: nat, v2: nat, W: nat, vr: nat, ur: nat, qhat: nat, rhat: nat)
    requires Scaled(N, V, uu, u2, v1, v2, W, vr, ur) && qhat * v1 + rhat == uu && v2 * qhat <= rhat * B + u2
    requires v1 > 0 && qhat < B
    ensures (qhat - 1) * V <= N
  {
    assert Look(true);
    NotMuchTooBig(uu, u2, v1, v2, W, vr, ur, qhat, rhat);
  }

  function Top3(a: nat, b: nat, c: nat): nat {
    (a * B + b) * B + c
  }

  lemma TopDigit(u0: nat, u1: nat, u2: nat, v1: nat, v2: nat, W: nat, vr: nat, ur: nat)
    requires v2 < B && vr < W
    requires Top3(u0, u1, u2) * W + ur < ((v1 * B + v2) * W + vr) * B
    ensures u0 <= v1
  {
    if u0 > v1 {
      assert (v1 * B + v2) * W + vr <= (v1 * B + v2 + 1) * W;
      MulMono(v1 * B + v2 + 1, (v1 + 1) * B, W);
      MulMono((v1 + 1) * (B * B), Top3(u0, u1, u2), W);
      assert false;
    }
  }

  lemma FirstGuess(uu: nat, u2: nat, v1: nat, v2: nat, W: nat, vr: nat, ur: nat, qhat: nat, rhat: nat)
    requires u2 < B && ur < W && qhat * v1 + rhat == uu && rhat < v1
    ensures (uu * B + u2) * W + ur < (qhat + 1) * ((v1 * B + v2) * W + vr)
  {
    assert uu + 1 <= (qhat + 1) * v1;
    MulMono((uu + 1) * B, (qhat + 1) * v1 * B, W);
    MulMono(uu * B + u2 + 1, (uu + 1) * B, W);
    assert (uu * B + u2) * W + ur < (uu * B + u2 + 1) * W;
    var rest := v2 * W + vr;
    assert (v1 * B + v2) * W + vr == v1 * B * W + rest;
    assert (qhat + 1) * (v1 * B * W + rest) == (qhat + 1) * (v1 * B * W) + (qhat + 1) * rest;
    assert (qhat + 1) * (v1 * B * W) == (qhat + 1) * v1 * B * W;
  }

  /** The D3 test fires only if the trial digit exceeds the true one. */
  lemma TooBig(uu: nat, u2: nat, v1: nat, v2: nat, W: nat, vr: nat, ur: nat, qhat: nat, rhat: nat)
    requires ur < W && qhat * v1 + rhat == uu
    requires v2 * qhat > rhat * B + u2
    ensures (uu * B + u2) * W + ur < qhat * ((v1 * B + v2) * W + vr)
  {
    TwoDigits(v1, v2, W, vr, qhat, rhat);
    assert qhat * (v1 * B + v2) >= uu * B + u2 + 1;
    MulMono(uu * B + u2 + 1, qhat * (v1 * B + v2), W);
  }

  /** When the D3 test passes, the trial digit is at most one too large. */
  lemma NotMuchTooBig(uu: nat, u2: nat, v1: nat, v2: nat, W: nat, vr: nat, ur: nat, qhat: nat, rhat: nat)
    requires vr < W && v1 > 0 && qhat < B && qhat * v1 + rhat == uu
    requires v2 * qhat <= rhat * B + u2
    ensures (qhat - 1) * ((v1 * B + v2) * W + vr) <= (uu * B + u2) * W + ur
  {
    TwoDigits(v1, v2, W, vr, qhat, rhat);
    MulMono(qhat * (v1 * B + v2), uu * B + u2, W);
    var V := (v1 * B + v2) * W + vr;
    assert qhat * vr <= V by {
      MulMono(qhat, B, vr);
      MulMono(B, v1 * B + v2, W);
    }
    assert (qhat - 1) * V == qhat * V - V;
  }

  lemma TwoDigits(v1: nat, v2: nat, W: nat, vr: nat, qhat: nat, rhat: nat)
    ensures qhat * (v1 * B + v2) == (qhat * v1 + rhat) * B + v2 * qhat - rhat * B
    ensures qhat * ((v1 * B + v2) * W + vr) == qhat * (v1 * B + v2) * W + qhat * vr
  {
    var X := v1 * B + v2;
    assert qhat * (X * W + vr) == qhat * X * W + qhat * vr;
    assert qhat * (v1 * B + v2) == qhat * v1 * B + v2 * qhat;
  }

  // ---------------------------------------------------------------- D4 to D6: one quotient digit

  /** One digit of the multiply-and-subtract: the new digit and the borrow, out of a wrapped word. */
  method SubDigit(x: nat, prod: nat, t: nat) returns (low: nat, borrow: nat)
    requires x < B && prod <= (B - 1) * (B - 1) && t < B
    ensures low < B && borrow < B
    ensures low - borrow * B == x - prod - t
  {
    var w: nat := (x - prod - t) % WORD;
    low := LHalf(w);
    borrow := LHalf(B - HHalf(w));
  }

  /** The top digit, from which only the borrow is taken; the word wraps exactly on a borrow. */
  method SubTop(x: nat, t: nat) returns (d: nat, borrowed: bool)
    requires x < B && t < B
    ensures borrowed <==> x < t
    ensures d == if borrowed then x - t + B else x - t
  {
    var w: nat := (x - t) % WORD;
    d := LHalf(w);
    borrowed := HHalf(w) != 0;
  }

  lemma DigitProduct(y: nat, q: nat)
    requires y < B && q < B
    ensures 0 <= y * q <= (B - 1) * (B - 1)
  {
    MulMono(0, y, q);
    MulMono(y, B - 1, q);
    MulMono(q, B - 1, B - 1);
  }

  /** After the digits above i have been done: what they hold, with borrow t still owed. */
  ghost predicate SubInv(cur: seq<nat>, was: seq<nat>, v: seq<nat>, o: nat, p: nat, n: nat, i: nat, qhat: nat, t: nat) {
    && i <= n && t < B && |cur| == |was| && o + n < |was| && p + n < |v|
    && AllDigits(cur)
    && cur[..o + i + 1] == was[..o + i + 1] && cur[o + n + 1..] == was[o + n + 1..]
    && Val(cur[o + i + 1..o + n + 1]) - t * PowB(n - i)
       == Val(was[o + i + 1..o + n + 1]) - qhat * Val(v[p + i + 1..p + n + 1])
  }

  /** Writing digit o+i extends the part that has been done by one digit on the left. */
  lemma WriteDigit(cur: seq<nat>, was: seq<nat>, o: nat, n: nat, i: nat, d: nat)
    requires i <= n && |cur| == |was| && o + n < |was| && AllDigits(cur) && d < B
    requires cur[..o + i + 1] == was[..o + i + 1] && cur[o + n + 1..] == was[o + n + 1..]
    ensures cur[o + i] == was[o + i]
    ensures var nxt := cur[o + i := d];
            && AllDigits(nxt) && nxt[..o + i] == was[..o + i] && nxt[o + n + 1..] == was[o + n + 1..]
            && Val(nxt[o + i..o + n + 1]) == d * PowB(n - i) + Val(cur[o + i + 1..o + n + 1])
    ensures Val(was[o + i..o + n + 1]) == was[o + i] * PowB(n - i) + Val(was[o + i + 1..o + n + 1])
  {
    var hi, nxt := o + n + 1, cur[o + i := d];
    assert cur[..o + i + 1][o + i] == was[..o + i + 1][o + i];
    assert nxt[..o + i] == cur[..o + i + 1][..o + i] == was[..o + i + 1][..o + i];
    assert nxt[o + i + 1..hi] == cur[o + i + 1..hi];
    SplitFirst(nxt, o + i, hi);
    SplitFirst(was, o + i, hi);
  }

  lemma SubInvStep(cur: seq<nat>, was: seq<nat>, v: seq<nat>, o: nat, p: nat, n: nat, i: nat, qhat: nat, t0: nat,
                   d: nat, t: nat)
    requires i > 0 && SubInv(cur, was, v, o, p, n, i, qhat, t0)
    requires d < B && t < B && d - t * B == cur[o + i] - v[p + i] * qhat - t0
    ensures SubInv(cur[o + i := d], was, v, o, p, n, i - 1, qhat, t)
  {
    WriteDigit(cur, was, o, n, i, d);
    SplitFirst(v, p + i, p + n + 1);
    MulSubStep(d, t, was[o + i], v[p + i], qhat, t0, PowB(n - i), Val(cur[o + i + 1..o + n + 1]),
               Val(was[o + i + 1..o + n + 1]), Val(v[p + i + 1..p + n + 1]));
  }

  lemma SubInvTop(cur: seq<nat>, was: seq<nat>, v: seq<nat>, o: nat, p: nat, n: nat, qhat: nat, t: nat,
                  d: nat, borrowed: bool)
    requires SubInv(cur, was, v, o, p, n, 0, qhat, t) && AllDigits(was)
    requires borrowed <==> cur[o] < t
    requires d == if borrowed then cur[o] - t + B else cur[o] - t
    ensures var nxt := cur[o := d];
            && AllDigits(nxt) && nxt[..o] == was[..o] && nxt[o + n + 1..] == was[o + n + 1..]
            && var diff := Val(was[o..o + n + 1]) - qhat * Val(v[p + 1..p + n + 1]);
            && (borrowed <==> diff < 0)
            && Val(nxt[o..o + n + 1]) == if borrowed then diff + PowB(n + 1) else diff
  {
    var hi, nxt := o + n + 1, cur[o := d];
    WriteDigit(cur, was, o, n, 0, d);
    ValBound(nxt[o..hi]);
    TopBorrow(d, was[o], t, borrowed, PowB(n), Val(cur[o + 1..hi]), Val(was[o + 1..hi]),
              qhat * Val(v[p + 1..p + n + 1]));
  }

  ghost predicate SameOutside(s: seq<nat>, t: seq<nat>, lo: nat, hi: nat) {
    lo <= hi <= |s| == |t| && s[..lo] == t[..lo] && s[hi..] == t[hi..]
  }

  /** D4: u[o..o+n] -= qhat * v[p+1..p+n].  The value comes out as the true difference, or as that
      difference plus B^(n+1) when it is negative; the last word's upper half tells which. */
  method MulSub(u: array<nat>, o: nat, v: array<nat>, p: nat, n: nat, qhat: nat) returns (borrowed: bool)
    requires u != v && o + n < u.Length && p + n < v.Length
    requires AllDigits(u[..]) && AllDigits(v[..]) && qhat < B
    modifies u
    ensures AllDigits(u[..])
    ensures SameOutside(old(u[..]), u[..], o, o + n + 1)
    ensures var diff := Val(old(u[..])[o..o + n + 1]) - qhat * Val(v[..][p + 1..p + n + 1]);
            && (borrowed <==> diff < 0)
            && Val(u[..][o..o + n + 1]) == if borrowed then diff + PowB(n + 1) else diff
  {
    ghost var was := u[..];
    var t: nat, i: nat := 0, n;
    while i > 0
      invariant SubInv(u[..], was, v[..], o, p, n, i, qhat, t)
    {
      DigitProduct(v[p + i], qhat);
      var low, borrow := SubDigit(u[o + i], v[p + i] * qhat, t);
      SubInvStep(u[..], was, v[..], o, p, n, i, qhat, t, low, borrow);
      ghost var nxt := u[..][o + i := low];
      u[o + i], t := low, borrow;
      assert u[..] == nxt;
      i := i - 1;
    }
    var top: nat;
    top, borrowed := SubTop(u[o], t);
    SubInvTop(u[..], was, v[..], o, p, n, qhat, t, top, borrowed);
    ghost var nxt := u[..][o := top];
    u[o] := top;
    assert u[..] == nxt;
  }

  lemma SplitFirst(s: seq<nat>, i: nat, hi: nat)
    requires i < hi <= |s|
    ensures Val(s[i..hi]) == s[i] * PowB(hi - i - 1) + Val(s[i + 1..hi])
  {
    assert s[i..hi] == [s[i]] + s[i + 1..hi];
    ValCons(s[i], s[i + 1..hi]);
  }

  lemma MulSubStep(d: int, t: int, x: int, y: int, q: int, t0: int, P: int, r: int, w: int, vv: int)
    requires d - t * B == x - y * q - t0
    requires r - t0 * P == w - q * vv
    ensures (d * P + r) - t * (B * P) == (x * P + w) - q * (y * P + vv)
  {
    assert (d - t * B) * P == d * P - t * (B * P);
    assert (x - y * q - t0) * P == x * P - q * (y * P) - t0 * P;
    assert q * (y * P + vv) == q * (y * P) + q * vv;
  }

  lemma TopBorrow(d: nat, x: nat, t: nat, borrowed: bool, P: nat, r: nat, w: nat, sub: nat)
    requires d < B && x < B && t < B
    requires borrowed <==> x < t
    requires d == if borrowed then x - t + B else x - t
    requires r - t * P == w - sub
    requires d * P + r < B * P
    ensures var diff := x * P + w - sub;
            (borrowed <==> diff < 0) && d * P + r == if borrowed then diff + B * P else diff
  {
    if borrowed {
      assert d * P == x * P - t * P + B * P;
    } else {
      assert d * P == x * P - t * P;
    }
  }

  method AddDigit(x: nat, y: nat, t: nat) returns (low: nat, carry: nat)
    requires x < B && y < B && t <= 1
    ensures low < B && carry <= 1 && low + carry * B == x + y + t
  {
    var w := t + (x + y);
    low, carry := LHalf(w), HHalf(w);
  }

  ghost predicate AddInv(cur: seq<nat>, was: seq<nat>, v: seq<nat>, o: nat, p: nat, n: nat, i: nat, t: nat) {
    && i <= n && t <= 1 && |cur| == |was| && o + n < |was| && p + n < |v|
    && AllDigits(cur)
    && cur[..o + i + 1] == was[..o + i + 1] && cur[o + n + 1..] == was[o + n + 1..]
    && Val(cur[o + i + 1..o + n + 1]) + t * PowB(n - i)
       == Val(was[o + i + 1..o + n + 1]) + Val(v[p + i + 1..p + n + 1])
  }

  lemma AddInvStep(cur: seq<nat>, was: seq<nat>, v: seq<nat>, o: nat, p: nat, n: nat, i: nat, t0: nat, d: nat, t: nat)
    requires i > 0 && AddInv(cur, was, v, o, p, n, i, t0)
    requires d < B && t <= 1 && d + t * B == cur[o + i] + v[p + i] + t0
    ensures AddInv(cur[o + i := d], was, v, o, p, n, i - 1, t)
  {
    WriteDigit(cur, was, o, n, i, d);
    SplitFirst(v, p + i, p + n + 1);
    AddStep(d, t, was[o + i], v[p + i], t0, PowB(n - i));
  }

  lemma AddStep(d: int, t: int, x: int, y: int, t0: int, P: int)
    requires d + t * B == x + y + t0
    ensures d * P + t * (B * P) == x * P + y * P + t0 * P
  {
    assert (d + t * B) * P == d * P + t * (B * P);
    assert (x + y + t0) * P == x * P + y * P + t0 * P;
  }

  lemma AddInvTop(cur: seq<nat>, was: seq<nat>, v: seq<nat>, o: nat, p: nat, n: nat, t: nat, d: nat)
    requires AddInv(cur, was, v, o, p, n, 0, t) && AllDigits(was)
    requires d == (cur[o] + t) % B
    ensures var nxt := cur[o := d];
            && AllDigits(nxt) && nxt[..o] == was[..o] && nxt[o + n + 1..] == was[o + n + 1..]
            && var sum := Val(was[o..o + n + 1]) + Val(v[p + 1..p + n + 1]);
            Val(nxt[o..o + n + 1]) == if sum < PowB(n + 1) then sum else sum - PowB(n + 1)
  {
    var hi := o + n + 1;
    WriteDigit(cur, was, o, n, 0, d);
    ValBound(cur[o + 1..hi]);
    TopCarry(d, was[o], t, PowB(n), Val(cur[o + 1..hi]), Val(was[o + 1..hi]) + Val(v[p + 1..p + n + 1]));
  }

  /** D6: u[o..o+n] += v[p+1..p+n], the carry out of the top dropped. */
  method AddBack(u: array<nat>, o: nat, v: array<nat>, p: nat, n: nat)
    requires u != v && o + n < u.Length && p + n < v.Length
    requires AllDigits(u[..]) && AllDigits(v[..])
    modifies u
    ensures AllDigits(u[..])
    ensures SameOutside(old(u[..]), u[..], o, o + n + 1)
    ensures var sum := Val(old(u[..])[o..o + n + 1]) + Val(v[..][p + 1..p + n + 1]);
            Val(u[..][o..o + n + 1]) == if sum < PowB(n + 1) then sum else sum - PowB(n + 1)
  {
    ghost var was := u[..];
    var t := AddDigits(u, o, v, p, n);
    var top := LHalf(u[o] + t);
    AddInvTop(u[..], was, v[..], o, p, n, t, top);
    ghost var nxt := u[..][o := top];
    u[o] := top;
    assert u[..] == nxt;
  }

  /** The loop: all but the top digit, and the carry into that. */
  method AddDigits(u: array<nat>, o: nat, v: array<nat>, p: nat, n: nat) returns (t: nat)
    requires u != v && o + n < u.Length && p + n < v.Length
    requires AllDigits(u[..]) && AllDigits(v[..])
    modifies u
    ensures AddInv(u[..], old(u[..]), v[..], o, p, n, 0, t)
  {
    ghost var was := u[..];
    var i: nat := n;
    t := 0;
    while i > 0
      invariant AddInv(u[..], was, v[..], o, p, n, i, t)
    {
      var low, carry := AddDigit(u[o + i], v[p + i], t);
      AddInvStep(u[..], was, v[..], o, p, n, i, t, low, carry);
      ghost var nxt := u[..][o + i := low];
      u[o + i], t := low, carry;
      assert u[..] == nxt;
      i := i - 1;
    }
  }

  lemma TopCarry(d: nat, x: nat, t: nat, P: nat, r: nat, w: nat)
    requires x < B && t <= 1 && r < P
    requires d == (x + t) % B
    requires r + t * P == w
    ensures var sum := x * P + w;
            d * P + r == if sum < B * P then sum else sum - B * P
  {
    if x + t == B {
      assert d == 0;
      assert (x + t) * P == x * P + t * P;
    } else {
      assert d == x + t;
      assert d * P == x * P + t * P;
      MulMono(d, B - 1, P);
    }
  }

  lemma SplitTwo(s: seq<nat>, i: nat, hi: nat)
    requires i + 2 <= hi <= |s|
    ensures Val(s[i..hi]) == (s[i] * B + s[i + 1]) * PowB(hi - i - 2) + Val(s[i + 2..hi])
  {
    assert s[i..hi] == [s[i], s[i + 1]] + s[i + 2..hi];
    ValConcat([s[i], s[i + 1]], s[i + 2..hi]);
    assert [s[i], s[i + 1]][..1] == [s[i]];
    assert Val([s[i]]) == s[i];
  }

  lemma SplitThree(s: seq<nat>, i: nat, hi: nat)
    requires i + 3 <= hi <= |s|
    ensures Val(s[i..hi]) == Top3(s[i], s[i + 1], s[i + 2]) * PowB(hi - i - 3) + Val(s[i + 3..hi])
  {
    SplitTwo(s, i, hi);
    SplitFirst(s, i + 2, hi);
    Regroup(s[i] * B + s[i + 1], s[i + 2], PowB(hi - i - 3));
  }

  lemma Regroup(x: nat, d: nat, P: nat)
    ensures x * (B * P) + d * P == (x * B + d) * P
  {
    assert x * (B * P) == x * B * P;
  }

  /** D3 on the digit strings. */
  method TrialDigit(u: array<nat>, o: nat, v: array<nat>, p: nat, n: nat) returns (qhat: nat)
    requires n >= 2 && o + n < u.Length && p + n < v.Length
    requires AllDigits(u[..]) && AllDigits(v[..]) && v[p + 1] >= B / 2
    requires Val(u[..][o..o + n + 1]) < Val(v[..][p + 1..p + n + 1]) * B
    ensures qhat < B
    ensures (qhat - 1) * Val(v[..][p + 1..p + n + 1]) <= Val(u[..][o..o + n + 1])
    ensures Val(u[..][o..o + n + 1]) < (qhat + 1) * Val(v[..][p + 1..p + n + 1])
  {
    ghost var W, vr, ur := TrialParts(u[..], o, v[..], p, n);
    qhat := Estimate(u[o], u[o + 1], u[o + 2], v[p + 1], v[p + 2], W, vr, ur);
  }

  lemma TrialParts(u: seq<nat>, o: nat, v: seq<nat>, p: nat, n: nat) returns (W: nat, vr: nat, ur: nat)
    requires n >= 2 && o + n < |u| && p + n < |v| && AllDigits(u) && AllDigits(v)
    ensures vr < W && ur < W
    ensures Val(v[p + 1..p + n + 1]) == (v[p + 1] * B + v[p + 2]) * W + vr
    ensures Val(u[o..o + n + 1]) == Top3(u[o], u[o + 1], u[o + 2]) * W + ur
  {
    W, vr, ur := PowB(n - 2), Val(v[p + 3..p + n + 1]), Val(u[o + 3..o + n + 1]);
    SplitTwo(v, p + 1, p + n + 1);
    SplitThree(u, o, o + n + 1);
    ValBound(v[p + 3..p + n + 1]);
    ValBound(u[o + 3..o + n + 1]);
  }

  /** D3 to D6: one exact digit of the quotient; u[o..o+n] is left with the partial remainder. */
  method DigitStep(u: array<nat>, o: nat, v: array<nat>, p: nat, n: nat) returns (qhat: nat)
    requires u != v && n >= 2 && o + n < u.Length && p + n < v.Length
    requires AllDigits(u[..]) && AllDigits(v[..]) && v[p + 1] >= B / 2
    requires Val(u[..][o..o + n + 1]) < Val(v[..][p + 1..p + n + 1]) * B
    modifies u
    ensures AllDigits(u[..]) && qhat < B
    ensures SameOutside(old(u[..]), u[..], o, o + n + 1)
    ensures Val(old(u[..])[o..o + n + 1]) == qhat * Val(v[..][p + 1..p + n + 1]) + Val(u[..][o..o + n + 1])
    ensures Val(u[..][o..o + n + 1]) < Val(v[..][p + 1..p + n + 1])
  {
    ghost var U, V := Val(u[..][o..o + n + 1]), Val(v[..][p + 1..p + n + 1]);
    qhat := TrialDigit(u, o, v, p, n);
    StepFacts(U, V, qhat);
    var borrowed := MulSub(u, o, v, p, n, qhat);
    if borrowed {
      qhat := qhat - 1;
      AddBack(u, o, v, p, n);
    }
  }

  lemma StepFacts(U: nat, V: nat, qhat: nat)
    requires (qhat - 1) * V <= U < (qhat + 1) * V
    ensures qhat == 0 ==> U >= qhat * V
    ensures U - qhat * V + V >= 0 && U - qhat * V < V
    ensures qhat > 0 ==> U - (qhat - 1) * V == U - qhat * V + V
  {
    assert (qhat - 1) * V == qhat * V - V;
    assert (qhat + 1) * V == qhat * V + V;
  }

  /** Bounds on both sides leave two candidates, and the sign of the difference says which. */
  lemma TrialDigitMeaning(U: nat, V: nat, qhat: nat)
    requires V > 0 && (qhat - 1) * V <= U < (qhat + 1) * V
    ensures qhat == U / V || qhat == U / V + 1
    ensures U - qhat * V < 0 <==> qhat == U / V + 1
  {
    StepFacts(U, V, qhat);
    if U - qhat * V < 0 {
      assert qhat > 0;
      DivModUnique(U, V, qhat - 1, U - (qhat - 1) * V);
    } else {
      DivModUnique(U, V, qhat, U - qhat * V);
    }
  }

  // ---------------------------------------------------------------- the digit loop

  /** After j quotient digits u[o..o+j] is zero. */
  ghost predicate Cleared(u: seq<nat>, o: nat, j: nat) {
    o + j <= |u| && forall k :: o <= k < o + j ==> u[k] == 0
  }

  /** N is Q times v at weight P, with a remainder below that. */
  ghost predicate Divided(N: nat, Q: nat, v: nat, P: nat, rest: nat) {
    rest < v * P && N == Q * v * P + rest
  }

  lemma SplitAt(u: seq<nat>, lo: nat, mid: nat, hi: nat)
    requires lo <= mid <= hi <= |u|
    ensures Val(u[lo..hi]) == Val(u[lo..mid]) * PowB(hi - mid) + Val(u[mid..hi])
  {
    assert u[lo..hi] == u[lo..mid] + u[mid..hi];
    ValConcat(u[lo..mid], u[mid..hi]);
  }

  /** The next n+1 digits are less than B times the divisor, so their quotient is one digit. */
  lemma NextDigitFits(u: seq<nat>, lo: nat, mid: nat, hi: nat, v: nat)
    requires lo <= mid <= hi <= |u|
    requires Val(u[lo..hi]) < v * PowB(hi - mid + 1)
    ensures Val(u[lo..mid]) < v * B
  {
    SplitAt(u, lo, mid, hi);
    CancelWeight(Val(u[lo..mid]), v, PowB(hi - mid));
  }

  lemma CancelWeight(x: nat, v: nat, P: nat)
    requires x * P < v * (B * P)
    ensures x < v * B
  {
    assert v * B * P == v * (B * P);
    if x >= v * B {
      MulMono(v * B, x, P);
    }
  }

  /** A partial remainder below the divisor leaves nothing in the top digit. */
  lemma TopIsZero(u: seq<nat>, b: nat, n: nat, hi: nat, v: nat)
    requires b + n + 1 <= hi <= |u|
    requires Val(u[b..b + n + 1]) < v <= PowB(n)
    ensures u[b] == 0 && Val(u[b..hi]) == Val(u[b + 1..hi])
  {
    SplitFirst(u, b, hi);
    SplitFirst(u, b, b + n + 1);
    if u[b] > 0 {
      MulMono(1, u[b], PowB(n));
    }
  }

  /** One digit's worth of progress, in values: b is where the digit is, lower digits unchanged. */
  lemma LoopValueStep(N: nat, Q: nat, qj: nat, u: seq<nat>, u': seq<nat>, b: nat, n: nat, hi: nat, v: nat)
    requires b + n + 1 <= hi <= |u| == |u'| && AllDigits(u) && v <= PowB(n)
    requires u'[b + n + 1..hi] == u[b + n + 1..hi]
    requires Val(u[b..b + n + 1]) == qj * v + Val(u'[b..b + n + 1]) && Val(u'[b..b + n + 1]) < v
    requires Divided(N, Q, v, PowB(hi - b - n), Val(u[b..hi]))
    ensures u'[b] == 0 && Divided(N, Q * B + qj, v, PowB(hi - b - n - 1), Val(u'[b + 1..hi]))
  {
    var mid := b + n + 1;
    var P, R, rest := PowB(hi - mid), Val(u'[b..mid]), Val(u[mid..hi]);
    SplitAt(u, b, mid, hi);
    SplitAt(u', b, mid, hi);
    ValBound(u[mid..hi]);
    assert Val(u[b..hi]) == (qj * v + R) * P + rest;
    assert PowB(hi - b - n) == B * P;
    LoopAlgebra(N, Q, qj, v, P, R, rest);
    TopIsZero(u', b, n, hi, v);
  }

  lemma LoopAlgebra(N: nat, Q: nat, qj: nat, v: nat, P: nat, R: nat, rest: nat)
    requires Divided(N, Q, v, B * P, (qj * v + R) * P + rest)
    requires rest < P && R < v
    ensures Divided(N, Q * B + qj, v, P, R * P + rest)
  {
    assert (qj * v + R) * P == qj * v * P + R * P;
    assert Q * v * (B * P) == Q * B * v * P by {
      var Z := v * P;
      assert Q * v * (B * P) == Q * B * Z;
      assert Q * B * v * P == Q * B * Z;
    }
    assert (Q * B + qj) * v * P == Q * B * v * P + qj * v * P by {
      assert (Q * B + qj) * v == Q * B * v + qj * v;
    }
    MulMono(R + 1, v, P);
    assert (R + 1) * P == R * P + P;
  }

  lemma IterateStep(N: nat, Q: nat, qj: nat, was: seq<nat>, now: seq<nat>, o: nat, j: nat, m: nat, n: nat, V: nat)
    requires j <= m && o + m + n < |was| && AllDigits(was) && V <= PowB(n)
    requires SameOutside(was, now, o + j, o + j + n + 1)
    requires Val(was[o + j..o + j + n + 1]) == qj * V + Val(now[o + j..o + j + n + 1])
    requires Val(now[o + j..o + j + n + 1]) < V
    requires Cleared(was, o, j)
    requires Divided(N, Q, V, PowB(m + 1 - j), Val(was[o + j..o + m + n + 1]))
    ensures SameOutside(was, now, o, o + m + n + 1)
    ensures Cleared(now, o, j + 1)
    ensures Divided(N, Q * B + qj, V, PowB(m - j), Val(now[o + j + 1..o + m + n + 1]))
  {
    var b, mid, hi := o + j, o + j + n + 1, o + m + n + 1;
    assert now[mid..hi] == now[mid..][..hi - mid] == was[mid..][..hi - mid] == was[mid..hi];
    LoopValueStep(N, Q, qj, was, now, b, n, hi, V);
    OuterParts(now, was, o, b, mid, hi);
  }

  lemma OuterParts(u: seq<nat>, was: seq<nat>, o: nat, b: nat, mid: nat, hi: nat)
    requires o <= b < mid <= hi <= |was| && SameOutside(was, u, b, mid)
    requires forall k :: o <= k < b ==> was[k] == 0
    ensures SameOutside(was, u, o, hi)
    ensures forall k :: o <= k < b ==> u[k] == 0
  {
    assert u[..b][..o] == was[..b][..o];
    assert u[mid..][hi - mid..] == was[mid..][hi - mid..];
    forall k | o <= k < b ensures u[k] == 0 {
      assert u[..b][k] == was[..b][k];
    }
  }

  /** One round of the loop. */
  method Iterate(u: array<nat>, o: nat, v: array<nat>, p: nat, j: nat, m: nat, n: nat, ghost N: nat, ghost Q: nat)
    returns (qj: nat, ghost Q': nat)
    requires u != v && n >= 2 && j <= m && o + m + n < u.Length && p + n < v.Length
    requires AllDigits(u[..]) && AllDigits(v[..]) && v[p + 1] >= B / 2
    requires Cleared(u[..], o, j)
    requires Divided(N, Q, Val(v[..][p + 1..p + n + 1]), PowB(m + 1 - j), Val(u[..][o + j..o + m + n + 1]))
    modifies u
    ensures AllDigits(u[..]) && qj < B
    ensures SameOutside(old(u[..]), u[..], o, o + m + n + 1)
    ensures Cleared(u[..], o, j + 1)
    ensures Q' == Q * B + qj
    ensures Divided(N, Q', Val(v[..][p + 1..p + n + 1]), PowB(m - j), Val(u[..][o + j + 1..o + m + n + 1]))
  {
    ghost var V, was := Val(v[..][p + 1..p + n + 1]), u[..];
    ghost var b, mid := o + j, o + j + n + 1;
    ValBound(v[..][p + 1..p + n + 1]);
    NextDigitFits(was, b, mid, o + m + n + 1, V);
    qj := DigitStep(u, o + j, v, p, n);
    IterateStep(N, Q, qj, was, u[..], o, j, m, n, V);
    Q' := Q * B + qj;
  }

  lemma NothingDivided(N: nat, V: nat, P: nat)
    requires N < V * P
    ensures Divided(N, Val([]), V, P, N)
  {
    assert Val([]) * V * P == 0;
  }

  /** One round of the loop, with the digit stored. */
  method Round(u: array<nat>, o: nat, v: array<nat>, p: nat, q: array<nat>, qo: nat, j: nat, m: nat, n: nat, ghost N: nat)
    requires u != v && u != q && q != v && n >= 2 && j <= m
    requires o + m + n < u.Length && p + n < v.Length && qo + m < q.Length
    requires AllDigits(u[..]) && AllDigits(v[..]) && AllDigits(q[..]) && v[p + 1] >= B / 2
    requires Cleared(u[..], o, j)
    requires Divided(N, Val(q[..][qo..qo + j]), Val(v[..][p + 1..p + n + 1]), PowB(m + 1 - j),
                     Val(u[..][o + j..o + m + n + 1]))
    modifies u, q
    ensures AllDigits(u[..]) && AllDigits(q[..])
    ensures SameOutside(old(u[..]), u[..], o, o + m + n + 1)
    ensures SameOutside(old(q[..]), q[..], qo, qo + m + 1)
    ensures Cleared(u[..], o, j + 1)
    ensures Divided(N, Val(q[..][qo..qo + j + 1]), Val(v[..][p + 1..p + n + 1]), PowB(m - j),
                    Val(u[..][o + j + 1..o + m + n + 1]))
  {
    ghost var q0 := q[..];
    var qj, Q' := Iterate(u, o, v, p, j, m, n, N, Val(q0[qo..qo + j]));
    ghost var u1 := u[..];
    q[qo + j] := qj;
    assert u[..] == u1 && q[..] == q0[qo + j := qj];
    WriteQuotient(q0, qo, j, m, qj);
  }

  lemma WriteQuotient(q0: seq<nat>, qo: nat, j: nat, m: nat, qj: nat)
    requires j <= m && qo + m < |q0|
    ensures var q := q0[qo + j := qj];
            SameOutside(q0, q, qo, qo + m + 1) && Val(q[qo..qo + j + 1]) == Val(q0[qo..qo + j]) * B + qj
  {
    assert q0[qo + j := qj][qo..qo + j + 1][..j] == q0[qo..qo + j];
  }

  lemma OutsideTrans(a: seq<nat>, b: seq<nat>, c: seq<nat>, lo: nat, hi: nat)
    requires SameOutside(a, b, lo, hi) && SameOutside(b, c, lo, hi)
    ensures SameOutside(a, c, lo, hi)
  {
  }

  /** The loop's invariant: j digits of the quotient of N and V are in q, and the rest of N in u. */
  ghost predicate InLoop(u: seq<nat>, u0: seq<nat>, q: seq<nat>, q0: seq<nat>, o: nat, qo: nat, j: nat, m: nat, n: nat,
                         N: nat, V: nat) {
    forall b {:trigger Look(b)} :: Look(b) ==>
      && j <= m + 1 && o + m + n < |u| && qo + m < |q| && AllDigits(u) && AllDigits(q)
      && SameOutside(u0, u, o, o + m + n + 1) && SameOutside(q0, q, qo, qo + m + 1) && Cleared(u, o, j)
      && Divided(N, Val(q[qo..qo + j]), V, PowB(m + 1 - j), Val(u[o + j..o + m + n + 1]))
  }

  method Turn(u: array<nat>, o: nat, v: array<nat>, p: nat, q: array<nat>, qo: nat, j: nat, m: nat, n: nat,
              ghost u0: seq<nat>, ghost q0: seq<nat>, ghost N: nat, ghost V: nat)
    requires u != v && u != q && q != v && n >= 2 && j <= m
    requires o + m + n < u.Length && p + n < v.Length && qo + m < q.Length
    requires AllDigits(v[..]) && v[p + 1] >= B / 2 && V == Val(v[..][p + 1..p + n + 1])
    requires InLoop(u[..], u0, q[..], q0, o, qo, j, m, n, N, V)
    modifies u, q
    ensures InLoop(u[..], u0, q[..], q0, o, qo, j + 1, m, n, N, V)
  {
    assert Look(true);
    ghost var u1, q1 := u[..], q[..];
    Round(u, o, v, p, q, qo, j, m, n, N);
    OutsideTrans(u0, u1, u[..], o, o + m + n + 1);
    OutsideTrans(q0, q1, q[..], qo, qo + m + 1);
  }

  /** D2 to D7: the digits q[qo..qo+m], and the remainder left in u[o+m+1..o+m+n]. */
  method LongDivide(u: array<nat>, o: nat, v: array<nat>, p: nat, q: array<nat>, qo: nat, m: nat, n: nat)
    requires u != v && u != q && q != v && n >= 2
    requires o + m + n < u.Length && p + n < v.Length && qo + m < q.Length
    requires AllDigits(u[..]) && AllDigits(v[..]) && AllDigits(q[..]) && v[p + 1] >= B / 2
    requires Val(u[..][o..o + m + n + 1]) < Val(v[..][p + 1..p + n + 1]) * PowB(m + 1)
    modifies u, q
    ensures AllDigits(u[..]) && AllDigits(q[..])
    ensures SameOutside(old(u[..]), u[..], o, o + m + n + 1)
    ensures SameOutside(old(q[..]), q[..], qo, qo + m + 1)
    ensures Cleared(u[..], o, m + 1)
    ensures Divided(Val(old(u[..])[o..o + m + n + 1]), Val(q[..][qo..qo + m + 1]), Val(v[..][p + 1..p + n + 1]), PowB(0),
                    Val(u[..][o + m + 1..o + m + n + 1]))
  {
    ghost var N, V := Val(u[..][o..o + m + n + 1]), Val(v[..][p + 1..p + n + 1]);
    ghost var u0, q0, v0 := u[..], q[..], v[..];
    NothingDivided(N, V, PowB(m + 1));
    assert q[..][qo..qo] == [];
    var j := 0;
    while j <= m
      invariant 0 <= j <= m + 1 && v[..] == v0
      invariant InLoop(u[..], u0, q[..], q0, o, qo, j, m, n, N, V)
    {
      Turn(u, o, v, p, q, qo, j, m, n, u0, q0, N, V);
      j := j + 1;
    }
    assert Look(true);
  }

  // ---------------------------------------------------------------- the remainder, shifted back

  lemma {:induction false} OrComm(a: nat, b: nat)
    ensures Or(a, b) == Or(b, a)
    decreases a + b
  {
    if a != 0 || b != 0 {
      OrComm(a / 2, b / 2);
    }
  }

  /** One digit of the right shift: the low bits of x come down on top of what y keeps. */
  function LoweredDigit(x: nat, y: nat, d: nat): (r: nat)
    requires x < B && y < B && 0 < d < HALF_BITS
    ensures r == Low(x, d) * Pow2(HALF_BITS - d) + Shr(y, d)
    ensures r < B
  {
    LoweredDigitParts(x, y, d);
    Or(Shr(y, d), LHalf(x * Pow2(HALF_BITS - d)))
  }

  lemma LoweredDigitParts(x: nat, y: nat, d: nat)
    requires x < B && y < B && 0 < d < HALF_BITS
    ensures var r := Low(x, d) * Pow2(HALF_BITS - d) + Shr(y, d);
            r < B && Or(Shr(y, d), LHalf(x * Pow2(HALF_BITS - d))) == r
  {
    var e := HALF_BITS - d;
    assert HALF_BITS - e == d;
    ShiftedDigitParts(x, y, e);
    OrComm(Shr(y, d), LHalf(x * Pow2(e)));
  }

  /** Digits above i are done: they are what was there, divided by 2^d, the last bits dropped. */
  ghost predicate ShrInv(cur: seq<nat>, was: seq<nat>, lo: nat, i: nat, hi: nat, d: nat) {
    && lo <= i < hi <= |cur| == |was| && AllDigits(cur)
    && cur[..i + 1] == was[..i + 1] && cur[hi..] == was[hi..]
    && Low(was[i], d) * PowB(hi - 1 - i) + Val(was[i + 1..hi])
       == Pow2(d) * Val(cur[i + 1..hi]) + Low(was[hi - 1], d)
  }

  lemma ShrInvStep(cur: seq<nat>, was: seq<nat>, lo: nat, i: nat, hi: nat, d: nat)
    requires ShrInv(cur, was, lo, i, hi, d) && lo < i && 0 < d < HALF_BITS && AllDigits(was)
    ensures cur[i] == was[i] && cur[i - 1] == was[i - 1]
    ensures ShrInv(cur[i := LoweredDigit(was[i - 1], was[i], d)], was, lo, i - 1, hi, d)
  {
    assert cur[..i + 1][i] == was[..i + 1][i] && cur[..i + 1][i - 1] == was[..i + 1][i - 1];
    var nd := LoweredDigit(was[i - 1], was[i], d);
    WriteDigit(cur, was, 0, hi - 1, i, nd);
    ShrEquation(was[i - 1], was[i], d, PowB(hi - 1 - i), Val(was[i + 1..hi]), Val(cur[i + 1..hi]), Low(was[hi - 1], d));
  }

  lemma ShrEquation(x: nat, y: nat, d: nat, P: nat, w: nat, c: nat, last: nat)
    requires x < B && y < B && 0 < d < HALF_BITS && Low(y, d) * P + w == Pow2(d) * c + last
    ensures Low(x, d) * (B * P) + (y * P + w) == Pow2(d) * (LoweredDigit(x, y, d) * P + c) + last
  {
    ShiftParts(x, y, HALF_BITS - d);
    LowHigh(y, d);
    ShrAlgebra(Low(x, d), y, Shr(y, d), Low(y, d), Pow2(d), Pow2(HALF_BITS - d), P, w, c, last);
  }

  lemma ShrAlgebra(lx: int, y: int, hy: int, ly: int, D: int, E: int, P: int, w: int, c: int, last: int)
    requires E * D == B && y == hy * D + ly
    requires ly * P + w == D * c + last
    ensures lx * (B * P) + (y * P + w) == D * ((lx * E + hy) * P + c) + last
  {
    assert y * P == hy * D * P + ly * P;
    assert D * ((lx * E + hy) * P + c) == D * ((lx * E + hy) * P) + D * c;
    assert D * ((lx * E + hy) * P) == lx * (E * D * P) + hy * D * P;
  }

  /** The loop of the right shift. */
  method ShiftDown(u: array<nat>, lo: nat, hi: nat, d: nat)
    requires lo < hi <= u.Length && 0 < d < HALF_BITS && AllDigits(u[..])
    modifies u
    ensures ShrInv(u[..], old(u[..]), lo, lo, hi, d)
  {
    ghost var was := u[..];
    var i: nat := hi - 1;
    assert u[..][i + 1..hi] == [] && PowB(0) == 1;
    while i > lo
      invariant ShrInv(u[..], was, lo, i, hi, d)
    {
      ShrInvStep(u[..], was, lo, i, hi, d);
      ghost var nxt := u[..][i := LoweredDigit(was[i - 1], was[i], d)];
      u[i] := LoweredDigit(u[i - 1], u[i], d);
      assert u[..] == nxt;
      i := i - 1;
    }
  }

  /** u[lo+1..hi] >>= d, where u[lo] is zero. */
  method ShiftBack(u: array<nat>, lo: nat, hi: nat, d: nat)
    requires lo < hi <= u.Length && 0 < d < HALF_BITS && AllDigits(u[..]) && u[lo] == 0
    modifies u
    ensures AllDigits(u[..]) && SameOutside(old(u[..]), u[..], lo + 1, hi)
    ensures Val(old(u[..])[lo + 1..hi]) == Pow2(d) * Val(u[..][lo + 1..hi]) + Low(old(u[hi - 1]), d)
  {
    ghost var was := u[..];
    ShiftDown(u, lo, hi, d);
    LowZero(d);
    ghost var nxt := u[..];
    u[lo] := 0;
    assert u[..] == nxt by { assert nxt[..lo + 1][lo] == was[..lo + 1][lo]; }
  }

  // ---------------------------------------------------------------- the whole division

  /** A doubleword as four digits in a[1..4], with a[0] clear. */
  method Spread(x: nat) returns (a: array<nat>)
    requires x < DWORD
    ensures fresh(a) && a.Length == 5 && a[0] == 0 && AllDigits(a[..]) && Val(a[..][1..5]) == x
  {
    a := new nat[5](_ => 0);
    var hi, lo := x / WORD, x % WORD;
    a[1], a[2], a[3], a[4] := HHalf(hi), LHalf(hi), HHalf(lo), LHalf(lo);
    FourDigits(a[..]);
  }

  lemma FourDigits(s: seq<nat>)
    requires |s| == 5
    ensures Val(s[1..5]) == (s[1] * B + s[2]) * WORD + (s[3] * B + s[4])
  {
    SplitTwo(s, 1, 5);
    SplitTwo(s, 3, 5);
    PowBSmall();
    assert s[5..5] == [];
  }

  /** Four digits a[1..4] back to a doubleword. */
  method Gather(a: array<nat>) returns (x: nat)
    requires a.Length == 5 && AllDigits(a[..])
    ensures x == Val(a[..][1..5])
  {
    FourDigits(a[..]);
    x := Combine(a[1], a[2]) * WORD + Combine(a[3], a[4]);
  }

  /** Exercise 16: division by a single digit, unrolled. */
  method ShortDivide(u: array<nat>, t: nat) returns (quot: nat, rem: nat)
    requires u.Length == 5 && AllDigits(u[..]) && 0 < t < B
    ensures Val(u[..][1..5]) == quot * t + rem && rem < t
  {
    var q1, r1 := DivideDigit(u[1], t);
    var q2, r2 := Divide(r1, u[2], t);
    var q3, r3 := Divide(r2, u[3], t);
    var q4, r4 := Divide(r3, u[4], t);
    rem := r4;
    quot := Combine(q1, q2) * WORD + Combine(q3, q4);
    FourDigits(u[..]);
    ShortSteps(u[1], u[2], u[3], u[4], t, q1, r1, q2, r2, q3, r3, q4, r4);
  }

  method DivideDigit(x: nat, t: nat) returns (q: nat, r: nat)
    requires x < B && 0 < t
    ensures q * t + r == x && r < t && q < B
  {
    q, r := x / t, x % t;
    if q >= B {
      MulMono(1, t, q);
    }
  }

  lemma ShortSteps(u1: nat, u2: nat, u3: nat, u4: nat, t: nat,
                   q1: nat, r1: nat, q2: nat, r2: nat, q3: nat, r3: nat, q4: nat, r4: nat)
    requires q1 * t + r1 == u1 && q2 * t + r2 == r1 * B + u2
    requires q3 * t + r3 == r2 * B + u3 && q4 * t + r4 == r3 * B + u4
    ensures (u1 * B + u2) * WORD + (u3 * B + u4) == ((q1 * B + q2) * WORD + (q3 * B + q4)) * t + r4
  {
    ShortStep(u1, q1, r1, u2, q2, r2, t);
    ShortStep(u1 * B + u2, q1 * B + q2, r2, u3, q3, r3, t);
    ShortStep((u1 * B + u2) * B + u3, (q1 * B + q2) * B + q3, r3, u4, q4, r4, t);
    assert ((q1 * B + q2) * B + q3) * B + q4 == (q1 * B + q2) * WORD + (q3 * B + q4);
  }

  lemma ShortStep(x: nat, Q: nat, r: nat, d: nat, q: nat, r': nat, t: nat)
    requires x == Q * t + r && q * t + r' == r * B + d
    ensures x * B + d == (Q * B + q) * t + r'
  {
    assert (Q * B + q) * t == Q * t * B + q * t;
  }

  /** D1: how far to shift so that the top digit reaches B/2. */
  method ShiftAmount(v1: nat) returns (d: nat)
    requires 0 < v1 < B
    ensures d < HALF_BITS && B / 2 <= v1 * Pow2(d) < B
  {
    d := 0;
    var t := v1;
    while t < B / 2
      invariant t == v1 * Pow2(d) && t < B
      decreases B - t
    {
      Doubled(v1, d);
      t := t * 2;
      d := d + 1;
    }
    ShiftIsSmall(v1, d);
  }

  lemma Doubled(x: nat, d: nat)
    ensures x * Pow2(d + 1) == 2 * (x * Pow2(d))
  {
  }

  lemma ShiftIsSmall(x: nat, d: nat)
    requires x > 0 && x * Pow2(d) < B
    ensures d < HALF_BITS
  {
    if d >= HALF_BITS {
      BaseIsPow2();
      Pow2Add(HALF_BITS, d - HALF_BITS);
      MulMono(1, Pow2(d - HALF_BITS), B);
      MulMono(1, x, Pow2(d));
    }
  }

  /** Skipping a leading zero digit does not change the value. */
  lemma SkipZero(s: seq<nat>, i: nat, hi: nat)
    requires i < hi <= |s| && s[i] == 0
    ensures Val(s[i..hi]) == Val(s[i + 1..hi])
  {
    SplitFirst(s, i, hi);
  }

  lemma {:induction false} SkipZeros(s: seq<nat>, i: nat, j: nat, hi: nat)
    requires i <= j <= hi <= |s| && forall k :: i <= k < j ==> s[k] == 0
    ensures Val(s[i..hi]) == Val(s[j..hi])
    decreases j - i
  {
    if i < j {
      SkipZero(s, i, hi);
      SkipZeros(s, i + 1, j, hi);
    }
  }

  lemma LeadingDigit(s: seq<nat>, i: nat, hi: nat)
    requires i < hi <= |s| && s[i] > 0
    ensures Val(s[i..hi]) >= PowB(hi - i - 1)
  {
    SplitFirst(s, i, hi);
    MulMono(1, s[i], PowB(hi - i - 1));
  }

  lemma TopDigitOf(s: seq<nat>, i: nat, hi: nat, t: nat)
    requires i < hi <= |s| && AllDigits(s)
    requires Val(s[i..hi]) >= t * PowB(hi - i - 1)
    ensures s[i] >= t
  {
    SplitFirst(s, i, hi);
    ValBound(s[i + 1..hi]);
    TopAtLeast(s[i], t, PowB(hi - i - 1), Val(s[i + 1..hi]));
  }

  lemma TopAtLeast(x: nat, t: nat, P: nat, rest: nat)
    requires rest < P && x * P + rest >= t * P
    ensures x >= t
  {
    if x < t {
      MulMono(x + 1, t, P);
    }
  }

  /** `Shl` when nothing falls out at the top, on whole sequences. */
  method ShlExact(p: array<nat>, o: nat, hi: nat, sh: nat)
    requires o < hi <= p.Length && 0 < sh < HALF_BITS && AllDigits(p[..])
    requires p[o] * Pow2(sh) < B
    modifies p
    ensures AllDigits(p[..]) && SameOutside(old(p[..]), p[..], o, hi)
    ensures Val(p[..][o..hi]) == Val(old(p[..])[o..hi]) * Pow2(sh)
  {
    ShiftParts(p[o], 0, sh);
    Shl(p, o, hi - 1 - o, sh);
  }

  lemma ShiftedTop(s: seq<nat>, t: seq<nat>, i: nat, hi: nat, D: nat)
    requires i < hi <= |s| == |t| && AllDigits(t)
    requires Val(t[i..hi]) == Val(s[i..hi]) * D && s[i] * D >= B / 2
    ensures t[i] >= B / 2
  {
    SplitFirst(s, i, hi);
    ScaledTop(s[i], PowB(hi - i - 1), Val(s[i + 1..hi]), D);
    TopDigitOf(t, i, hi, B / 2);
  }

  lemma ScaledTop(x: nat, P: nat, rest: nat, D: nat)
    requires x * D >= B / 2
    ensures (x * P + rest) * D >= B / 2 * P
  {
    MulMono(B / 2, x * D, P);
    assert (x * P + rest) * D == x * D * P + rest * D;
  }

  /** D1: both operands shifted by the same amount, the divisor's top digit now at least B/2. */
  method Normalise(u: array<nat>, uo: nat, v: array<nat>, vo: nat, ghost ull: nat, ghost vll: nat) returns (d: nat)
    requires u != v && u.Length == 5 && v.Length == 5 && uo < 4 && vo < 4
    requires AllDigits(u[..]) && AllDigits(v[..]) && u[uo] == 0 && v[vo + 1] > 0
    requires Val(u[..][uo..5]) == ull && Val(v[..][vo + 1..5]) == vll
    modifies u, v
    ensures d < HALF_BITS && AllDigits(u[..]) && AllDigits(v[..])
    ensures Val(u[..][uo..5]) == ull * Pow2(d) && Val(v[..][vo + 1..5]) == vll * Pow2(d)
    ensures v[vo + 1] >= B / 2
    ensures SameOutside(old(u[..]), u[..], uo, 5)
  {
    d := ShiftAmount(v[vo + 1]);
    ghost var u0, v0 := u[..], v[..];
    if d > 0 {
      ShlExact(u, uo, 5, d);
      ghost var u1 := u[..];
      assert v[..] == v0;
      ShlExact(v, vo + 1, 5, d);
      assert u[..] == u1;
      ShiftedTop(v0, v[..], vo + 1, 5, Pow2(d));
    }
  }

  /** The shifted dividend is less than the shifted divisor at weight m+1. */
  lemma QuotientDigits(ull: nat, vll: nat, D: nat, m: nat, n: nat)
    requires n > 0 && ull < PowB(m + n) && vll >= PowB(n - 1) && D > 0
    ensures ull * D < vll * D * PowB(m + 1)
  {
    PowBAdd(n - 1, m + 1);
    MulMono(PowB(n - 1), vll, PowB(m + 1));
    MulMono(ull + 1, vll * PowB(m + 1), D);
    assert (ull + 1) * D == ull * D + D;
    assert vll * PowB(m + 1) * D == vll * D * PowB(m + 1);
  }

  /** Undoing the normalisation: the same quotient, and the remainder scaled. */
  lemma Denormalise(ull: nat, vll: nat, D: nat, Q: nat, R: nat)
    requires D > 0 && vll > 0 && Divided(ull * D, Q, vll * D, PowB(0), R)
    ensures Q == ull / vll && R == (ull % vll) * D
  {
    var r := ull - Q * vll;
    assert Q * (vll * D) * 1 == Q * vll * D;
    assert R == r * D;
    assert 0 <= r < vll by {
      if r < 0 { MulMono(r, -1, D); }
      if r >= vll { MulMono(vll, r, D); }
    }
    DivModUnique(ull, vll, Q, r);
  }

  /** What `arq` receives: the partial remainder in u[uo+m+1..], shifted back. */
  method Remainder(u: array<nat>, k: nat, d: nat, ghost r: nat) returns (rem: nat)
    requires u.Length == 5 && k < 4 && d < HALF_BITS && AllDigits(u[..])
    requires forall i :: 0 <= i <= k ==> u[i] == 0
    requires Val(u[..][k + 1..5]) == r * Pow2(d)
    modifies u
    ensures rem == r
  {
    if d > 0 {
      ghost var was := u[..];
      ShiftBack(u, k, 5, d);
      ghost var now := Val(u[..][k + 1..5]);
      assert Pow2(d) * now == now * Pow2(d);
      LowHigh(was[4], d);
      Unique(Pow2(d), r, 0, now, Low(was[4], d));
      assert forall i :: 0 <= i <= k ==> u[i] == 0 by {
        forall i | 0 <= i <= k ensures u[i] == 0 { assert u[..][..k + 1][i] == was[..k + 1][i]; }
      }
    }
    SkipZeros(u[..], 1, k + 1, 5);
    rem := Gather(u);
  }

  lemma FrontStays(s: seq<nat>, t: seq<nat>, lo: nat, hi: nat)
    requires SameOutside(s, t, lo, hi) && forall i :: 0 <= i < lo ==> s[i] == 0
    ensures forall i :: 0 <= i < lo ==> t[i] == 0
  {
    forall i | 0 <= i < lo ensures t[i] == 0 {
      assert t[..lo][i] == s[..lo][i];
    }
  }

  lemma AllClear(s: seq<nat>, o: nat, j: nat)
    requires Cleared(s, o, j) && forall i :: 0 <= i < o ==> s[i] == 0
    ensures forall i :: 0 <= i < o + j ==> s[i] == 0
  {
  }

  /** Steps D1 to D7 on a dividend with m more digits than the divisor: the quotient's digits end
      in q[4], and u keeps the shifted remainder behind zeros. */
  method NormaliseAndDivide(u: array<nat>, uo: nat, v: array<nat>, vo: nat, q: array<nat>, m: nat,
                            ghost ull: nat, ghost vll: nat) returns (d: nat)
    requires u != v && u != q && v != q && u.Length == 5 && v.Length == 5 && q.Length == 5 && vo <= 2 && uo + m == vo
    requires AllDigits(u[..]) && AllDigits(v[..]) && AllDigits(q[..]) && v[vo + 1] > 0
    requires forall i :: 0 <= i <= uo ==> u[i] == 0
    requires Val(u[..][uo + 1..5]) == ull && Val(v[..][vo + 1..5]) == vll > 0
    requires ull < PowB(4 - uo) && vll >= PowB(3 - vo)
    modifies u, v, q
    ensures d < HALF_BITS && AllDigits(u[..]) && AllDigits(q[..])
    ensures Val(q[..][4 - m..5]) == ull / vll && SameOutside(old(q[..]), q[..], 4 - m, 5)
    ensures Val(u[..][vo + 1..5]) == (ull % vll) * Pow2(d)
    ensures forall i :: 0 <= i <= vo ==> u[i] == 0
  {
    SkipZero(u[..], uo, 5);
    ghost var u0, q0 := u[..], q[..];
    d := Normalise(u, uo, v, vo, ull, vll);
    QuotientDigits(ull, vll, Pow2(d), m, 4 - vo);
    FrontStays(u0, u[..], uo, 5);
    ghost var u1 := u[..];
    assert q[..] == q0;
    LongDivide(u, uo, v, vo, q, 4 - m, m, 4 - vo);
    FrontStays(u1, u[..], uo, 5);
    AllClear(u[..], uo, m + 1);
    Denormalise(ull, vll, Pow2(d), Val(q[..][4 - m..5]), Val(u[..][vo + 1..5]));
  }

  /** Algorithm D proper: the divisor has n >= 2 digits, in v[vo+1..4]. */
  method AlgorithmD(u: array<nat>, v: array<nat>, vo: nat, wantRem: bool, ghost ull: nat, ghost vll: nat)
    returns (quot: nat, rem: Option<nat>)
    requires u != v && u.Length == 5 && v.Length == 5 && vo <= 2
    requires AllDigits(u[..]) && AllDigits(v[..]) && u[0] == 0 && v[vo + 1] > 0
    requires Val(u[..][1..5]) == ull && Val(v[..][vo + 1..5]) == vll && ull >= vll > 0
    modifies u, v
    ensures quot == ull / vll
    ensures rem == if wantRem then Some(ull % vll) else None
  {
    LeadingDigit(v[..], vo + 1, 5);
    var uo, m := Leading(u, 4 - vo, ull);
    var junk: nat :| junk < B;  // the source leaves qspace uninitialised
    ghost var u0, v0 := u[..], v[..];
    var q := new nat[5](_ => junk);
    ClearFront(q, 4 - m);
    ghost var q0 := q[..];
    assert u[..] == u0 && v[..] == v0;
    var d := NormaliseAndDivide(u, uo, v, vo, q, m, ull, vll);
    FrontStays(q0, q[..], 4 - m, 5);
    SkipZeros(q[..], 1, 4 - m, 5);
    quot := Gather(q);
    rem := None;
    if wantRem {
      var r := Remainder(u, vo, d, ull % vll);
      rem := Some(r);
    }
  }

  lemma OneMoreDigit(u: seq<nat>, uo: nat, n: nat, ull: nat)
    requires |u| == 5 && 2 <= n && uo + n <= 4 && AllDigits(u)
    requires Val(u[uo + 1..5]) == ull >= PowB(n - 1) && u[uo + 1] == 0
    ensures uo + n < 4 && Val(u[uo + 2..5]) == ull
  {
    SkipZero(u, uo + 1, 5);
    ValBound(u[uo + 2..5]);
  }

  /** Count the dividend's leading zero digits; it has at least as many digits as the divisor. */
  method Leading(u: array<nat>, n: nat, ghost ull: nat) returns (uo: nat, m: nat)
    requires u.Length == 5 && 2 <= n <= 4 && AllDigits(u[..]) && u[0] == 0
    requires Val(u[..][1..5]) == ull && ull >= PowB(n - 1)
    ensures uo + m + n == 4
    ensures Val(u[..][uo + 1..5]) == ull < PowB(m + n)
    ensures forall i :: 0 <= i <= uo ==> u[i] == 0
  {
    m, uo := 4 - n, 0;
    while u[uo + 1] == 0
      invariant uo + m + n == 4
      invariant Val(u[..][uo + 1..5]) == ull
      invariant forall i :: 0 <= i <= uo ==> u[i] == 0
      decreases m
    {
      OneMoreDigit(u[..], uo, n, ull);
      m := m - 1;
      uo := uo + 1;
    }
    ValBound(u[..][uo + 1..5]);
  }

  method ClearFront(q: array<nat>, k: nat)
    requires k <= q.Length && AllDigits(q[..])
    modifies q
    ensures AllDigits(q[..]) && forall i :: 0 <= i < k ==> q[i] == 0
  {
    var i := k;
    while i > 0
      invariant 0 <= i <= k && AllDigits(q[..]) && forall x :: i <= x < k ==> q[x] == 0
    {
      i := i - 1;
      q[i] := 0;
    }
  }

  /** __qdivrem: quotient and remainder of any two doublewords, or the trap on a zero divisor. */
  method DivRem(ull: nat, vll: nat, wantRem: bool) returns (res: Outcome)
    requires ull < DWORD && vll < DWORD
    ensures res.DivideByZero? <==> vll == 0
    ensures vll > 0 ==> res == Quotient(ull / vll, if wantRem then Some(ull % vll) else None)
  {
    if vll == 0 {
      return DivideByZero;
    }
    if ull < vll {
      DivModUnique(ull, vll, 0, ull);
      return Quotient(0, if wantRem then Some(ull) else None);
    }
    var u := Spread(ull);
    ghost var spread := u[..];
    var v := Spread(vll);
    assert u[..] == spread;
    var n, vo := 4, 0;
    while v[vo + 1] == 0
      invariant 0 <= vo <= 2 && n == 4 - vo
      invariant u[..] == spread && AllDigits(v[..])
      invariant Val(v[..][vo + 1..5]) == vll
      decreases n
    {
      SkipZero(v[..], vo + 1, 5);
      n := n - 1;
      if n == 1 {
        var t := v[vo + 2];
        assert v[..][4..5] == [t] && Val([t]) == t;
        var quot, rem := ShortDivide(u, t);
        DivModUnique(ull, vll, quot, rem);
        return Quotient(quot, if wantRem then Some(rem) else None);
      }
      vo := vo + 1;
    }
    var quot, rem := AlgorithmD(u, v, vo, wantRem, ull, vll);
    res := Quotient(quot, rem);
  }
}
