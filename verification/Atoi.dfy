/** atoi (atoi.c), and what it makes of numbers printed by %d. */
module Atoi {
  import opened Common
  import opened Bits
  import opened Printf

  /** unsigned is a 32-bit word. */
  const WORD: int := 0x1_0000_0000

  // ---------------------------------------------------------------- what atoi computes

  predicate Blank(c: char) {
    c == ' ' || c == '\t'
  }

  predicate IsDigit(c: char) {
    '0' <= c <= '9'
  }

  function SkipBlanks(s: string): string {
    if s != [] && Blank(s[0]) then SkipBlanks(s[1..]) else s
  }

  /** The digits at the start of s appended to val, modulo 2^32. */
  function Accumulate(s: string, val: nat): nat {
    if s == [] || !IsDigit(s[0]) then val
    else Accumulate(s[1..], (val * 10 + (s[0] as int - '0' as int)) % WORD)
  }

  /** A word read as a signed int. */
  function Signed(w: int): int {
    if w % WORD < WORD / 2 then w % WORD else w % WORD - WORD
  }

  function Parsed(s: string): int {
    var t := SkipBlanks(s);
    if t != [] && t[0] == '-' then Signed(0 - Accumulate(t[1..], 0))
    else if t != [] && t[0] == '+' then Signed(Accumulate(t[1..], 0))
    else Signed(Accumulate(t, 0))
  }

  /** atoi on a string given without its NUL. */
  method Atoi(s: string) returns (r: int)
    ensures r == Parsed(s) && -WORD / 2 <= r < WORD / 2
  {
    var i := SkipLoop(s);
    var neg := false;
    ghost var t := s[i..];
    if i < |s| && s[i] == '-' {
      neg := true;
      i := i + 1;
    } else if i < |s| && s[i] == '+' {
      i := i + 1;
    }
    assert s[i..] == if t != [] && (t[0] == '-' || t[0] == '+') then t[1..] else t;
    var val: int := DigitLoop(s, i);
    r := if neg then Signed(-val) else Signed(val);
  }

  method SkipLoop(s: string) returns (i: nat)
    ensures i <= |s| && s[i..] == SkipBlanks(s)
  {
    i := 0;
    while i < |s| && (s[i] == ' ' || s[i] == '\t')
      invariant i <= |s| && SkipBlanks(s[i..]) == SkipBlanks(s)
    {
      assert s[i..][1..] == s[i + 1..];
      i := i + 1;
    }
  }

  method DigitLoop(s: string, start: nat) returns (val: nat)
    requires start <= |s|
    ensures val == Accumulate(s[start..], 0)
  {
    var i := start;
    val := 0;
    while i < |s| && IsDigit(s[i])
      invariant start <= i <= |s| && Accumulate(s[i..], val) == Accumulate(s[start..], 0)
    {
      assert s[i..][1..] == s[i + 1..];
      val := (val * 10 + (s[i] as int - '0' as int)) % WORD;
      i := i + 1;
    }
  }

  // ---------------------------------------------------------------- what that means

  predicate AllBlank(b: string) {
    forall i :: 0 <= i < |b| ==> b[i] == ' ' || b[i] == '\t'
  }

  predicate AllDigits(ds: string) {
    forall i :: 0 <= i < |ds| ==> '0' <= ds[i] <= '9'
  }

  /** Blanks, a sign or none, digits, and then something that is none of what may come next. */
  ghost predicate Parts(b: string, sign: string, ds: string, tail: string) {
    && AllBlank(b) && sign in {"", "+", "-"} && AllDigits(ds)
    && (tail != [] ==> !('0' <= tail[0] <= '9'))
    && (tail != [] && sign == "" && ds == "" ==> tail[0] !in " \t+-")
  }

  lemma {:induction false} SkipAll(b: string, rest: string)
    requires AllBlank(b) && (rest != [] ==> !Blank(rest[0]))
    ensures SkipBlanks(b + rest) == rest
    decreases |b|
  {
    if b == [] {
      assert b + rest == rest;
    } else {
      assert (b + rest)[1..] == b[1..] + rest;
      SkipAll(b[1..], rest);
    }
  }

  /** Digits are read by place value, modulo 2^32. */
  lemma {:induction false} ReadValue(ds: string, tail: string)
    requires AllDigits(ds) && (tail != [] ==> !IsDigit(tail[0]))
    ensures Accumulate(ds + tail, 0) == Evaluate(ds, 10) % WORD
  {
    ReadDigitsThen(ds, tail);
    assert Accumulate(tail, Evaluate(ds, 10) % WORD) == Evaluate(ds, 10) % WORD;
  }

  lemma {:induction false} ReadDigitsThen(ds: string, rest: string)
    requires AllDigits(ds)
    ensures Accumulate(ds + rest, 0) == Accumulate(rest, Evaluate(ds, 10) % WORD)
    decreases |ds|
  {
    if ds == [] {
      assert ds + rest == rest;
    } else {
      var front, c := ds[..|ds| - 1], ds[|ds| - 1];
      assert ds + rest == front + ([c] + rest);
      ReadDigitsThen(front, [c] + rest);
      assert ([c] + rest)[1..] == rest;
      ModTimesTen(Evaluate(front, 10), DigitValue(c));
    }
  }

  lemma {:induction false} ParsedIs(b: string, sign: string, ds: string, tail: string)
    requires Parts(b, sign, ds, tail)
    ensures var n := Evaluate(ds, 10) % WORD; Parsed(b + sign + ds + tail) == Signed(if sign == "-" then 0 - n else n)
  {
    var t := sign + (ds + tail);
    assert b + sign + ds + tail == b + t;
    assert if sign == "" then t == ds + tail else t[0] == sign[0] && t[1..] == ds + tail;
    SkipAll(b, t);
    ReadValue(ds, tail);
  }

  lemma SignedMeans(n: nat, negative: bool)
    ensures var r := Signed(if negative then 0 - n % WORD else n % WORD);
            -0x8000_0000 <= r < 0x8000_0000 && (r - if negative then 0 - n else n) % 0x1_0000_0000 == 0
  {
    var q := n / WORD;
    assert n == q * WORD + n % WORD;
  }

  /** atoi of blanks, sign, digits and anything else is the value of the digits, negative exactly for a
      minus, modulo 2^32 as a signed int. */
  lemma {:induction false} ParsedMeans(b: string, sign: string, ds: string, tail: string)
    requires Parts(b, sign, ds, tail)
    ensures var r := Parsed(b + sign + ds + tail);
            && -0x8000_0000 <= r < 0x8000_0000
            && (r - if sign == "-" then 0 - Evaluate(ds, 10) else Evaluate(ds, 10)) % 0x1_0000_0000 == 0
  {
    ParsedIs(b, sign, ds, tail);
    SignedMeans(Evaluate(ds, 10), sign == "-");
  }

  /** Every string has such parts, so this says what atoi does with any string. */
  lemma HasParts(s: string) returns (b: string, sign: string, ds: string, tail: string)
    ensures Parts(b, sign, ds, tail) && s == b + sign + ds + tail
  {
    var rest: string;
    b, rest := Blanks(s);
    sign := if rest != [] && (rest[0] == '+' || rest[0] == '-') then [rest[0]] else "";
    ds, tail := LeadingDigits(rest[|sign|..]);
    assert rest == sign + (ds + tail);
    assert sign == "" ==> rest == ds + tail;
  }

  lemma {:induction false} Blanks(s: string) returns (b: string, rest: string)
    ensures s == b + rest && AllBlank(b) && (rest != [] ==> !Blank(rest[0]))
  {
    if s == [] || !Blank(s[0]) {
      b, rest := "", s;
    } else {
      b, rest := Blanks(s[1..]);
      b := [s[0]] + b;
    }
  }

  lemma {:induction false} LeadingDigits(s: string) returns (ds: string, tail: string)
    ensures s == ds + tail && AllDigits(ds) && (tail != [] ==> !IsDigit(tail[0]))
  {
    if s == [] || !IsDigit(s[0]) {
      ds, tail := "", s;
    } else {
      ds, tail := LeadingDigits(s[1..]);
      ds := [s[0]] + ds;
    }
  }

  // ---------------------------------------------------------------- reading printed numbers

  lemma DigitIs(d: nat)
    requires d < 10
    ensures IsDigit(Digit(d)) && Digit(d) as int - '0' as int == d
  {
  }

  lemma ModTimesTen(x: int, d: int)
    ensures (x % WORD * 10 + d) % WORD == (x * 10 + d) % WORD
  {
    var q := x / WORD;
    assert x * 10 + d == x % WORD * 10 + d + q * 10 * WORD;
  }

  lemma ModStep(n: int)
    ensures (n / 10 % WORD * 10 + n % 10) % WORD == n % WORD
  {
    ModTimesTen(n / 10, n % 10);
  }

  lemma {:induction false} ReadOne(d: nat, rest: string, val: nat, val': nat)
    requires d < 10 && val' == (val * 10 + d) % WORD
    ensures Accumulate([Digit(d)] + rest, val) == Accumulate(rest, val')
  {
    DigitIs(d);
    assert ([Digit(d)] + rest)[1..] == rest;
  }

  /** Reading the digits of n. */
  lemma {:induction false} ReadDigits(n: nat, rest: string)
    ensures Accumulate(Digits(n, 10) + rest, 0) == Accumulate(rest, n % WORD)
    decreases n, 0
  {
    if n < 10 {
      ReadOne(n, rest, 0, n % WORD);
    } else {
      ModStep(n);
      ReadMore(n / 10, n % 10, rest, n / 10 % WORD, n % WORD);
    }
  }

  lemma {:induction false} ReadMore(m: nat, d: nat, rest: string, val: nat, val': nat)
    requires d < 10 && val == m % WORD && val' == (val * 10 + d) % WORD
    ensures Accumulate(Digits(m, 10) + [Digit(d)] + rest, 0) == Accumulate(rest, val')
    decreases m, 1
  {
    assert Digits(m, 10) + [Digit(d)] + rest == Digits(m, 10) + ([Digit(d)] + rest);
    ReadDigits(m, [Digit(d)] + rest);
    ReadOne(d, rest, val, val');
  }

  lemma {:induction false} ReadZeros(k: nat, rest: string)
    ensures Accumulate(Repeat('0', k) + rest, 0) == Accumulate(rest, 0)
  {
    if k == 0 {
      assert Repeat('0', 0) + rest == rest;
    } else {
      assert Repeat('0', k) + rest == Repeat('0', k - 1) + (['0'] + rest);
      ReadZeros(k - 1, ['0'] + rest);
      assert (['0'] + rest)[1..] == rest;
    }
  }

  lemma {:induction false} SkipSpaces(k: nat, rest: string)
    ensures SkipBlanks(Repeat(' ', k) + rest) == SkipBlanks(rest)
  {
    if k == 0 {
      assert Repeat(' ', 0) + rest == rest;
    } else {
      assert Repeat(' ', k) + rest == Repeat(' ', k - 1) + ([' '] + rest);
      SkipSpaces(k - 1, [' '] + rest);
      assert ([' '] + rest)[1..] == rest;
    }
  }

  lemma {:induction false} RepeatFront(c: char, k: nat)
    requires k > 0
    ensures Repeat(c, k) == [c] + Repeat(c, k - 1)
  {
    if k > 1 {
      RepeatFront(c, k - 1);
    }
  }

  function Tens(k: nat): nat {
    if k == 0 then 1 else 10 * Tens(k - 1)
  }

  /** Zeros at the end multiply. */
  lemma {:induction false} ReadTrailing(k: nat, val: nat)
    requires val < WORD
    ensures Accumulate(Repeat('0', k), val) == val * Tens(k) % WORD
    decreases k
  {
    if k > 0 {
      RepeatFront('0', k);
      var val' := (val * 10 + 0) % WORD;
      ReadOne(0, Repeat('0', k - 1), val, val');
      ReadTrailing(k - 1, val');
      TensStep(val, k, val');
    }
  }

  lemma {:induction false} TensStep(val: nat, k: nat, val': nat)
    requires k > 0 && val' == val * 10 % WORD
    ensures val' * Tens(k - 1) % WORD == val * Tens(k) % WORD
  {
    ModTimes(val * 10, Tens(k - 1));
    assert val * 10 * Tens(k - 1) == val * Tens(k);
  }

  lemma ModTimes(x: int, p: int)
    ensures x % WORD * p % WORD == x * p % WORD
  {
    var q := x / WORD;
    assert x * p == x % WORD * p + q * p * WORD;
    ModOf(x % WORD * p, q * p);
  }

  lemma ModOf(r: int, q: int)
    ensures (r + q * WORD) % WORD == r % WORD
  {
  }

  // ---------------------------------------------------------------- the round trip

  predicate IsInt(n: int) {
    -WORD / 2 <= n < WORD / 2
  }

  function Sign(n: int): string {
    if n < 0 then "-" else ""
  }

  /** A sign and then what reads as a number. */
  lemma ReadSigned(n: int, body: string)
    requires body != [] && IsDigit(body[0])
    ensures Parsed(Sign(n) + body) == Signed(if n < 0 then 0 - Accumulate(body, 0) else Accumulate(body, 0))
  {
    var s := Sign(n) + body;
    assert SkipBlanks(s) == s;
    if n < 0 {
      assert s[1..] == body;
    } else {
      assert s == body;
    }
  }

  lemma SignedIs(n: int, val: nat)
    requires IsInt(n) && val < WORD
    ensures Signed(if n < 0 then 0 - val else val) == n <==> val == Magnitude(n)
  {
  }

  lemma ReadBody(n: int, body: string, val: nat)
    requires IsInt(n) && body != [] && IsDigit(body[0]) && Accumulate(body, 0) == val < WORD
    ensures Parsed(Sign(n) + body) == n <==> val == Magnitude(n)
  {
    ReadSigned(n, body);
    SignedIs(n, val);
  }

  lemma {:induction false} DigitsStart(n: nat)
    ensures IsDigit(Digits(n, 10)[0])
  {
    if n < 10 {
      DigitIs(n);
    } else {
      DigitsStart(n / 10);
    }
  }

  /** ds are the digits of n, whatever follows them. */
  ghost predicate AreDigits(ds: string, n: int) {
    ds != [] && IsDigit(ds[0]) && forall rest :: Accumulate(ds + rest, 0) == Accumulate(rest, Magnitude(n))
  }

  lemma Printed(n: int)
    requires IsInt(n)
    ensures AreDigits(Digits(Magnitude(n), 10), n)
  {
    var m := Magnitude(n);
    var ds := Digits(m, 10);
    DigitsStart(m);
    assert m % WORD == m;
    forall rest ensures Accumulate(ds + rest, 0) == Accumulate(rest, m) {
      ReadDigits(m, rest);
    }
  }

  lemma LeftSpaces(n: int, ds: string, k: nat)
    requires IsInt(n) && AreDigits(ds, n)
    ensures Parsed(Repeat(' ', k) + Sign(n) + ds) == n
  {
    assert ds + "" == ds;
    ReadBody(n, ds, Magnitude(n));
    SkipSpaces(k, Sign(n) + ds);
    assert Repeat(' ', k) + Sign(n) + ds == Repeat(' ', k) + (Sign(n) + ds);
  }

  lemma LeftZeros(n: int, ds: string, k: nat)
    requires IsInt(n) && AreDigits(ds, n)
    ensures Parsed(Sign(n) + Repeat('0', k) + ds) == n
  {
    assert ds + "" == ds;
    ReadZeros(k, ds);
    var body := Repeat('0', k) + ds;
    if k > 0 {
      RepeatFront('0', k);
    }
    ReadBody(n, body, Magnitude(n));
    assert Sign(n) + Repeat('0', k) + ds == Sign(n) + body;
  }

  lemma RightSpaces(n: int, ds: string, k: nat)
    requires IsInt(n) && AreDigits(ds, n)
    ensures Parsed(Sign(n) + ds + Repeat(' ', k)) == n
  {
    if k > 0 {
      RepeatFront(' ', k);
    }
    var body := ds + Repeat(' ', k);
    ReadBody(n, body, Magnitude(n));
    assert Sign(n) + ds + Repeat(' ', k) == Sign(n) + body;
  }

  /** Zeros on the right change the value, except that of 0. */
  lemma RightZeros(n: int, ds: string, k: nat)
    requires IsInt(n) && AreDigits(ds, n)
    ensures Parsed(Sign(n) + ds + Repeat('0', k)) == n <==> k == 0 || n == 0
  {
    var m, body := Magnitude(n), ds + Repeat('0', k);
    ReadTrailing(k, m);
    ReadBody(n, body, m * Tens(k) % WORD);
    assert Sign(n) + ds + Repeat('0', k) == Sign(n) + body;
    TimesTens(m, k);
  }

  /** n * 10^k leaves n modulo 2^32 only if k or n is 0: 10^k - 1 is odd, so it can be cancelled. */
  lemma TimesTens(n: nat, k: nat)
    requires n < WORD
    ensures n * Tens(k) % WORD == n <==> k == 0 || n == 0
  {
    var p := Tens(k);
    if k > 0 && n * p % WORD == n {
      PowerOdd(k);
      var t := n * p / WORD;
      assert n * p == t * WORD + n;
      assert n * (p - 1) == t * WORD;
      WordIsPow2();
      var u := OddCancel(n, p - 1, 32, t);
      assert n == Pow2(32) * u;
    }
  }

  lemma PowerOdd(k: nat)
    requires k > 0
    ensures Tens(k) >= 1 && (Tens(k) - 1) % 2 == 1
  {
    PowerPositive(k - 1);
    IsOdd(Tens(k) - 1, 5 * Tens(k - 1) - 1);
  }

  lemma IsOdd(x: int, q: int)
    requires x == 2 * q + 1
    ensures x % 2 == 1
  {
  }

  lemma {:induction false} PowerPositive(k: nat)
    ensures Tens(k) >= 1
  {
    if k > 0 {
      PowerPositive(k - 1);
    }
  }

  lemma WordIsPow2()
    ensures Pow2(32) == WORD
  {
    assert Pow2(4) == 16;
    Pow2Add(4, 4);
    Pow2Add(8, 8);
    Pow2Add(16, 16);
  }

  /** A power of two that divides n * m with m odd divides n. */
  lemma {:induction false} OddCancel(n: nat, m: nat, e: nat, t: int) returns (u: nat)
    requires m % 2 == 1 && n * m == t * Pow2(e)
    ensures n == Pow2(e) * u
    decreases e
  {
    if e == 0 {
      u := n;
    } else {
      var h := n / 2;
      Halve(n, m, t * Pow2(e - 1), t, Pow2(e - 1));
      u := OddCancel(h, m, e - 1, t);
      assert Pow2(e) * u == 2 * (Pow2(e - 1) * u);
    }
  }

  lemma Halve(n: nat, m: nat, x: int, t: int, p: int)
    requires m % 2 == 1 && x == t * p && n * m == t * (2 * p)
    ensures n % 2 == 0 && n / 2 * m == x
  {
    assert n * m == 2 * x;
    var b, a := m / 2, n / 2;
    assert m == 2 * b + 1;
    assert n * m == 2 * (n * b) + n;
    assert n == 2 * a;
    assert n * m == 2 * (a * m);
  }

  /** atoi gets back every int that %d printed, whatever the field width, unless the field was padded
      with zeros on the right; then only 0 comes back. */
  lemma RoundTrip(n: int, spacing: nat, rightspc: bool, fillchar: char)
    requires IsInt(n) && (fillchar == ' ' || fillchar == '0')
    ensures var len := |Sign(n)| + |Digits(Magnitude(n), 10)|;
            Parsed(Field(Sign(n), Digits(Magnitude(n), 10), spacing, rightspc, fillchar)) == n
            <==> !(rightspc && fillchar == '0' && spacing > len) || n == 0
  {
    var len := |Sign(n)| + |Digits(Magnitude(n), 10)|;
    var k := if spacing > len then spacing - len else 0;
    var ds := Digits(Magnitude(n), 10);
    Printed(n);
    LeftSpaces(n, ds, k);
    LeftZeros(n, ds, k);
    RightSpaces(n, ds, k);
    RightZeros(n, ds, k);
  }

  // ---------------------------------------------------------------- through a whole format

  /** One %d field. */
  lemma RenderField(pf: Pf, n: int)
    requires pf.inPct && pf.args == [Num(n)] && IsInt(n)
    ensures Render(pf, "d") == Some(Field(Sign(n), Digits(Magnitude(n), 10), pf.spacing, pf.rightspc, pf.fillchar))
  {
    assert Prefix('d', n, pf.altformat) == Sign(n);
    var text := Field(Sign(n), Digits(Magnitude(n), 10), pf.spacing, pf.rightspc, pf.fillchar);
    assert Send(pf, 'd') == Some((EndField(pf.args[1..]), text));
    assert "d"[1..] == "";
    assert text + "" == text;
  }

  lemma FormatField(mods: string, n: int)
    requires AllModifiers(mods) && IsInt(n)
    ensures var pf := After(EndField([Num(n)]).(inPct := true), mods);
            Render(EndField([Num(n)]), "%" + mods + "d")
            == Some(Field(Sign(n), Digits(Magnitude(n), 10), pf.spacing, pf.rightspc, pf.fillchar))
  {
    var pf0 := EndField([Num(n)]);
    var pf := After(pf0.(inPct := true), mods);
    var fmt := "%" + mods + "d";
    assert fmt[1..] == mods + "d";
    RenderModifiers(pf0.(inPct := true), mods, "d");
    RenderField(pf, n);
    var text := Render(pf, "d").value;
    assert "" + text == text;
  }

  /** atoi of what a %d with any modifiers prints is the number, unless the field was wider than the
      number and padded with zeros on the right; then it is so only for 0. */
  lemma FormatRoundTrip(mods: string, n: int)
    requires AllModifiers(mods) && IsInt(n)
    ensures var pf := After(EndField([Num(n)]).(inPct := true), mods);
            var out := Render(EndField([Num(n)]), "%" + mods + "d");
            && out.Some?
            && (Parsed(out.value) == n <==>
                  !(pf.rightspc && pf.fillchar == '0' && pf.spacing > |Sign(n)| + |Digits(Magnitude(n), 10)|) || n == 0)
  {
    var pf := After(EndField([Num(n)]).(inPct := true), mods);
    FormatField(mods, n);
    RoundTrip(n, pf.spacing, pf.rightspc, pf.fillchar);
  }

  // ---------------------------------------------------------------- cut to the size of a buffer

  lemma {:induction false} RepeatPrefix(c: char, k: nat, j: nat)
    requires j <= k
    ensures |Repeat(c, k)| == k && Repeat(c, k)[..j] == Repeat(c, j)
    decreases k
  {
    if j < k {
      RepeatPrefix(c, k - 1, j);
    }
  }

  /** The first j digits of m are those of a number that is smaller unless they are all. */
  lemma {:induction false} DigitsPrefix(m: nat, j: nat) returns (m': nat)
    requires 0 < j <= |Digits(m, 10)|
    ensures Digits(m, 10)[..j] == Digits(m', 10) && m' <= m && (j < |Digits(m, 10)| ==> m' < m)
    decreases m
  {
    if j == |Digits(m, 10)| {
      m' := m;
    } else {
      m' := DigitsPrefix(m / 10, j);
    }
  }

  lemma {:induction false} ReadWhole(m: nat)
    requires m < WORD
    ensures Accumulate(Digits(m, 10), 0) == m
  {
    assert Digits(m, 10) + "" == Digits(m, 10) && m % WORD == m;
    ReadDigits(m, "");
  }

  lemma {:induction false} ReadPrefix(m: nat, j: nat) returns (val: nat)
    requires 0 < m < WORD && 0 < j < |Digits(m, 10)|
    ensures val < m && Accumulate(Digits(m, 10)[..j], 0) == val && IsDigit(Digits(m, 10)[..j][0])
  {
    val := DigitsPrefix(m, j);
    ReadWhole(val);
    DigitsStart(val);
  }

  /** Zeros and then the first j digits of m are read as less than m. */
  lemma {:induction false} ReadPart(m: nat, a: nat, j: nat) returns (val: nat)
    requires 0 < m < WORD && j < |Digits(m, 10)| && a + j > 0
    ensures val < m && Accumulate(Repeat('0', a) + Digits(m, 10)[..j], 0) == val
    ensures IsDigit((Repeat('0', a) + Digits(m, 10)[..j])[0])
  {
    ReadZeros(a, Digits(m, 10)[..j]);
    if a > 0 {
      RepeatFront('0', a);
    }
    if j == 0 {
      val := 0;
    } else {
      val := ReadPrefix(m, j);
    }
  }

  lemma {:induction false} TakeZeros(sign: string, p: nat, ds: string, a: nat, j: nat)
    requires a <= p && j <= |ds| && (j == 0 || a == p)
    ensures (sign + Repeat('0', p) + ds)[..|sign| + a + j] == sign + (Repeat('0', a) + ds[..j])
  {
    RepeatPrefix('0', p, a);
  }

  /** What is left of a sign, zeros and digits when the end is cut off is not the number, unless that is 0. */
  lemma {:induction false} ShortZeros(n: int, p: nat, k: nat)
    requires IsInt(n) && n != 0 && k < |Sign(n)| + p + |Digits(Magnitude(n), 10)|
    ensures Parsed((Sign(n) + Repeat('0', p) + Digits(Magnitude(n), 10))[..k]) != n
  {
    var ds, all := Digits(Magnitude(n), 10), Sign(n) + Repeat('0', p) + Digits(Magnitude(n), 10);
    if k <= |Sign(n)| {
      assert all[..k] == Sign(n)[..k];
    } else {
      var r := k - |Sign(n)|;
      var a, j := if r < p then r else p, if r < p then 0 else r - p;
      TakeZeros(Sign(n), p, ds, a, j);
      var val := ReadPart(Magnitude(n), a, j);
      ReadBody(n, Repeat('0', a) + ds[..j], val);
    }
  }

  lemma {:induction false} BlanksBefore(a: nat, text: string)
    ensures Parsed(Repeat(' ', a) + text) == Parsed(text)
  {
    SkipSpaces(a, text);
  }

  /** The same with blanks in front. */
  lemma {:induction false} ShortSpaces(n: int, p: nat, k: nat)
    requires IsInt(n) && n != 0 && k < p + |Sign(n)| + |Digits(Magnitude(n), 10)|
    ensures Parsed((Repeat(' ', p) + Sign(n) + Digits(Magnitude(n), 10))[..k]) != n
  {
    var ds := Digits(Magnitude(n), 10);
    var a, j := if k < p then k else p, if k < p then 0 else k - p;
    TakeSpaces(Sign(n), p, ds, a, j);
    BlanksBefore(a, (Sign(n) + Repeat('0', 0) + ds)[..j]);
    ShortZeros(n, 0, j);
  }

  lemma {:induction false} TakeSpaces(sign: string, p: nat, ds: string, a: nat, j: nat)
    requires a <= p && j <= |sign| + |ds| && (j == 0 || a == p)
    ensures (Repeat(' ', p) + sign + ds)[..a + j] == Repeat(' ', a) + (sign + Repeat('0', 0) + ds)[..j]
  {
    RepeatPrefix(' ', p, a);
    assert sign + Repeat('0', 0) + ds == sign + ds;
  }

  lemma {:induction false} CutZero(spacing: nat, rightspc: bool, fillchar: char, k: nat)
    requires fillchar == ' ' || fillchar == '0'
    requires k <= |Field("", "0", spacing, rightspc, fillchar)|
    ensures Parsed(Field("", "0", spacing, rightspc, fillchar)[..k]) == 0
  {
    var p := if spacing > 1 then spacing - 1 else 0;
    ZeroField(spacing, rightspc, fillchar, p);
    if fillchar == '0' {
      CutZeroZeros(p, rightspc, k);
    } else {
      CutZeroSpaces(p, rightspc, k);
    }
  }

  lemma {:induction false} ZeroField(spacing: nat, rightspc: bool, fillchar: char, p: nat)
    requires p == if spacing > 1 then spacing - 1 else 0
    ensures Field("", "0", spacing, rightspc, fillchar)
            == if rightspc then "0" + Repeat(fillchar, p) else Repeat(fillchar, p) + "0"
  {
    var pad := Repeat(fillchar, p);
    assert "" + "0" + pad == "0" + pad && "" + pad + "0" == pad + "0" && pad + "" + "0" == pad + "0";
  }

  lemma {:induction false} CutZeroZeros(p: nat, rightspc: bool, k: nat)
    requires k <= p + 1
    ensures Parsed((if rightspc then "0" + Repeat('0', p) else Repeat('0', p) + "0")[..k]) == 0
  {
    RepeatFront('0', p + 1);
    RepeatPrefix('0', p + 1, k);
    AllZeros(k);
  }

  lemma {:induction false} AllZeros(k: nat)
    ensures Parsed(Repeat('0', k)) == 0
  {
    assert Repeat('0', k) + "" == Repeat('0', k);
    ReadZeros(k, "");
    if k > 0 {
      RepeatFront('0', k);
    }
  }

  lemma {:induction false} CutZeroSpaces(p: nat, rightspc: bool, k: nat)
    requires k <= p + 1
    ensures Parsed((if rightspc then "0" + Repeat(' ', p) else Repeat(' ', p) + "0")[..k]) == 0
  {
    RepeatPrefix(' ', p, p);
    if rightspc {
      if k > 0 {
        RepeatPrefix(' ', p, k - 1);
        assert ("0" + Repeat(' ', p))[..k] == Sign(0) + "0" + Repeat(' ', k - 1);
        Printed(0);
        RightSpaces(0, "0", k - 1);
      }
    } else if k <= p {
      RepeatPrefix(' ', p, k);
      assert (Repeat(' ', p) + "0")[..k] == Repeat(' ', k) + "";
      SkipSpaces(k, "");
    } else {
      assert (Repeat(' ', p) + "0")[..k] == Repeat(' ', p) + Sign(0) + "0";
      Printed(0);
      LeftSpaces(0, "0", p);
    }
  }

  /** A field cut after k characters still shows its number: no digit is lost, and no zero of padding
      stands behind. */
  predicate Shows(n: int, spacing: nat, rightspc: bool, fillchar: char, k: nat) {
    var len := |Sign(n)| + |Digits(Magnitude(n), 10)|;
    var pad := if spacing > len then spacing - len else 0;
    n == 0 || (if rightspc then k >= len && (fillchar == '0' ==> k == len) else k == pad + len)
  }

  /** atoi gets a number back from the first k characters of its field exactly if they show it. */
  lemma {:induction false} RoundTripCut(n: int, spacing: nat, rightspc: bool, fillchar: char, k: nat)
    requires IsInt(n) && (fillchar == ' ' || fillchar == '0')
    requires k <= |Field(Sign(n), Digits(Magnitude(n), 10), spacing, rightspc, fillchar)|
    ensures Parsed(Field(Sign(n), Digits(Magnitude(n), 10), spacing, rightspc, fillchar)[..k]) == n
            <==> Shows(n, spacing, rightspc, fillchar, k)
  {
    if n == 0 {
      CutZero(spacing, rightspc, fillchar, k);
    } else if rightspc {
      CutRight(n, spacing, fillchar, k);
    } else {
      CutLeft(n, spacing, fillchar, k);
    }
  }

  lemma {:induction false} CutRight(n: int, spacing: nat, fillchar: char, k: nat)
    requires IsInt(n) && n != 0 && (fillchar == ' ' || fillchar == '0')
    requires k <= |Field(Sign(n), Digits(Magnitude(n), 10), spacing, true, fillchar)|
    ensures Parsed(Field(Sign(n), Digits(Magnitude(n), 10), spacing, true, fillchar)[..k]) == n
            <==> Shows(n, spacing, true, fillchar, k)
  {
    var ds := Digits(Magnitude(n), 10);
    var len := |Sign(n)| + |ds|;
    var pad := if spacing > len then spacing - len else 0;
    TakeRight(Sign(n), ds, fillchar, pad, k);
    if k < len {
      ShortZeros(n, 0, k);
    } else {
      Printed(n);
      RightSpaces(n, ds, k - len);
      RightZeros(n, ds, k - len);
    }
  }

  lemma {:induction false} TakeRight(sign: string, ds: string, c: char, pad: nat, k: nat)
    requires k <= |sign| + |ds| + pad
    ensures var all, len := sign + ds + Repeat(c, pad), |sign| + |ds|;
            all[..k] == if k < len then (sign + Repeat('0', 0) + ds)[..k] else sign + ds + Repeat(c, k - len)
  {
    if k >= |sign| + |ds| {
      RepeatPrefix(c, pad, k - |sign| - |ds|);
    }
  }

  lemma {:induction false} CutLeft(n: int, spacing: nat, fillchar: char, k: nat)
    requires IsInt(n) && n != 0 && (fillchar == ' ' || fillchar == '0')
    requires k <= |Field(Sign(n), Digits(Magnitude(n), 10), spacing, false, fillchar)|
    ensures Parsed(Field(Sign(n), Digits(Magnitude(n), 10), spacing, false, fillchar)[..k]) == n
            <==> Shows(n, spacing, false, fillchar, k)
  {
    var ds := Digits(Magnitude(n), 10);
    var len := |Sign(n)| + |ds|;
    var pad := if spacing > len then spacing - len else 0;
    RepeatPrefix(fillchar, pad, pad);
    var all := Field(Sign(n), ds, spacing, false, fillchar);
    if k == pad + len {
      assert all[..k] == all;
      RoundTrip(n, spacing, false, fillchar);
    } else if fillchar == '0' {
      ShortZeros(n, pad, k);
    } else {
      ShortSpaces(n, pad, k);
    }
  }

  /** atoi stops at a NUL. */
  lemma {:induction false} StopsAtNul(s: string, rest: string)
    ensures Parsed(s + [NUL] + rest) == Parsed(s)
  {
    var tail := [NUL] + rest;
    SkipToNul(s, tail);
    var t := SkipBlanks(s);
    ReadToNul(t, tail, 0);
    if t != [] {
      assert (t + tail)[1..] == t[1..] + tail;
      ReadToNul(t[1..], tail, 0);
    }
    assert s + [NUL] + rest == s + tail;
  }

  lemma {:induction false} SkipToNul(s: string, tail: string)
    requires tail != [] && tail[0] == NUL
    ensures SkipBlanks(s + tail) == SkipBlanks(s) + tail
  {
    if s != [] {
      assert (s + tail)[1..] == s[1..] + tail;
      SkipToNul(s[1..], tail);
    } else {
      assert s + tail == tail;
    }
  }

  lemma {:induction false} ReadToNul(s: string, tail: string, val: nat)
    requires tail != [] && tail[0] == NUL
    ensures Accumulate(s + tail, val) == Accumulate(s, val)
    decreases |s|
  {
    if s == [] {
      assert s + tail == tail;
    } else if IsDigit(s[0]) {
      assert (s + tail)[1..] == s[1..] + tail;
      ReadToNul(s[1..], tail, (val * 10 + (s[0] as int - '0' as int)) % WORD);
    }
  }

  /** A number printed into a buffer of len bytes and read back from there. */
  method PrintThenRead(buf: array<char>, len: nat, mods: string, n: int) returns (chars: nat, r: int)
    requires 0 < len <= buf.Length && AllModifiers(mods) && IsInt(n)
    modifies buf
    ensures var pf := After(EndField([Num(n)]).(inPct := true), mods);
            r == n <==> Shows(n, pf.spacing, pf.rightspc, pf.fillchar, if chars < len - 1 then chars else len - 1)
    ensures var pf := After(EndField([Num(n)]).(inPct := true), mods);
            chars == |Field(Sign(n), Digits(Magnitude(n), 10), pf.spacing, pf.rightspc, pf.fillchar)|
  {
    ghost var pf, was := After(EndField([Num(n)]).(inPct := true), mods), buf[..];
    FormatField(mods, n);
    ReadBack(n, pf.spacing, pf.rightspc, pf.fillchar, len, was);
    chars := VSnprintf(buf, len, "%" + mods + "d", [Num(n)]);
    r := Atoi(buf[..]);
  }

  lemma {:induction false} ReadBack(n: int, spacing: nat, rightspc: bool, fillchar: char, len: nat, was: string)
    requires IsInt(n) && (fillchar == ' ' || fillchar == '0') && 0 < len <= |was|
    ensures var text := Field(Sign(n), Digits(Magnitude(n), 10), spacing, rightspc, fillchar);
            Parsed(Stored(text, len, was)) == n
            <==> Shows(n, spacing, rightspc, fillchar, if |text| < len - 1 then |text| else len - 1)
  {
    var text := Field(Sign(n), Digits(Magnitude(n), 10), spacing, rightspc, fillchar);
    var k := if |text| < len - 1 then |text| else len - 1;
    StopsAtNul(text[..k], was[k + 1..]);
    RoundTripCut(n, spacing, rightspc, fillchar, k);
  }
}
