/** The printf engine (__printf.c) and vsnprintf (snprintf.c). */
module Printf {
  import opened Common

  const NUMBER_BUF_SIZE: nat := 23
  const NUL: char := '\0'

  // ---------------------------------------------------------------- numbers

  function Digit(d: nat): char
    requires d < 16
  {
    "0123456789abcdef"[d]
  }

  /** A number in a base, most significant digit first. */
  function Digits(num: nat, base: nat): (s: string)
    requires 2 <= base <= 16
    ensures |s| >= 1
  {
    if num < base then [Digit(num)] else Digits(num / base, base) + [Digit(num % base)]
  }

  /** What a digit stands for. */
  function DigitValue(c: char): nat {
    if '0' <= c <= '9' then c as int - '0' as int
    else if 'a' <= c <= 'f' then c as int - 'a' as int + 10
    else 0
  }

  /** What a string of digits stands for in a base. */
  function Evaluate(s: string, base: nat): nat {
    if s == [] then 0 else Evaluate(s[..|s| - 1], base) * base + DigitValue(s[|s| - 1])
  }

  lemma DigitMeans(d: nat)
    requires d < 16
    ensures DigitValue(Digit(d)) == d && (Digit(d) == '0' <==> d == 0)
  {
  }

  /** In any base the digits stand for the number. */
  lemma {:induction false} DigitsMean(num: nat, base: nat)
    requires 2 <= base <= 16
    ensures Evaluate(Digits(num, base), base) == num
    decreases num
  {
    if num < base {
      DigitMeans(num);
      EvaluateMore([], base, Digit(num), 0, num);
    } else {
      var q := num / base;
      Smaller(num, base);
      DigitsMean(q, base);
      DigitMeans(num % base);
      Recompose(num, base);
      EvaluateMore(Digits(q, base), base, Digit(num % base), q, num);
    }
  }

  lemma {:induction false} EvaluateMore(s: string, base: nat, c: char, v: nat, v': nat)
    requires Evaluate(s, base) == v && v' == v * base + DigitValue(c)
    ensures Evaluate(s + [c], base) == v'
  {
    assert (s + [c])[..|s|] == s;
  }

  lemma Recompose(num: nat, base: nat)
    requires base > 0
    ensures num / base * base + num % base == num
  {
  }

  /** Each is a digit of the base, and the first is 0 only in "0". */
  lemma {:induction false} DigitsOfBase(num: nat, base: nat)
    requires 2 <= base <= 16
    ensures forall i :: 0 <= i < |Digits(num, base)| ==> DigitValue(Digits(num, base)[i]) < base
    ensures Digits(num, base)[0] == '0' <==> num == 0
    decreases num
  {
    if num < base {
      DigitMeans(num);
    } else {
      Smaller(num, base);
      DigitsOfBase(num / base, base);
      DigitMeans(num % base);
      Recompose(num, base);
    }
  }

  /** base to the k. */
  function Power(base: nat, k: nat): nat {
    if k == 0 then 1 else base * Power(base, k - 1)
  }

  lemma DivBelow(num: nat, base: nat, p: nat)
    requires base > 0 && num < base * p
    ensures num / base < p
  {
    assert num == base * (num / base) + num % base;
    if num / base >= p {
      MulAtLeast(base, p, num / base);
    }
  }

  lemma MulAtLeast(base: nat, p: nat, q: nat)
    requires p <= q
    ensures base * p <= base * q
  {
  }

  /** A number below base^k has at most k digits. */
  lemma {:induction false} DigitsBound(num: nat, base: nat, k: nat)
    requires 2 <= base <= 16 && num < Power(base, k) && k > 0
    ensures |Digits(num, base)| <= k
    decreases k
  {
    if num >= base {
      DivBelow(num, base, Power(base, k - 1));
      DigitsBound(num / base, base, k - 1);
    }
  }

  /** Any 64-bit number has at most 22 digits in each base. */
  lemma DigitsFit(num: nat, base: nat)
    requires num < 0x1_0000_0000_0000_0000 && (base == 8 || base == 10 || base == 16)
    ensures |Digits(num, base)| <= NUMBER_BUF_SIZE - 1
  {
    PowerGrows(8, base, 22);
    PowerOf8();
    DigitsBound(num, base, 22);
  }

  lemma {:induction false} PowerGrows(a: nat, b: nat, k: nat)
    requires a <= b
    ensures Power(a, k) <= Power(b, k)
  {
    if k > 0 {
      PowerGrows(a, b, k - 1);
      Grows(a, Power(a, k - 1), b, Power(b, k - 1));
    }
  }

  lemma Grows(a: nat, x: nat, b: nat, y: nat)
    requires a <= b && x <= y
    ensures a * x <= b * y
  {
    MulAtLeast(a, x, y);
    MulAtLeast(y, a, b);
  }

  lemma PowerOf8()
    ensures Power(8, 22) == 0x4_0000_0000_0000_0000
  {
    assert Power(8, 4) == 4096;
    PowerAdd(8, 4, 4);
    PowerAdd(8, 8, 8);
    PowerAdd(8, 16, 4);
    PowerAdd(8, 20, 2);
    assert Power(8, 2) == 64;
  }

  lemma {:induction false} PowerAdd(b: nat, j: nat, k: nat)
    ensures Power(b, j + k) == Power(b, j) * Power(b, k)
    decreases j
  {
    if j > 0 {
      PowerAdd(b, j - 1, k);
      Assoc(b, Power(b, j - 1), Power(b, k));
    }
  }

  lemma Assoc(a: nat, b: nat, c: nat)
    ensures a * (b * c) == a * b * c
  {
  }

  /** s spells num. */
  ghost predicate Spells(s: string, num: nat, base: nat)
    requires 2 <= base <= 16
  {
    forall u {:trigger Look(u)} :: Look(u) ==> s == Digits(num, base)
  }

  lemma Spelled(num: nat, base: nat)
    requires num < 0x1_0000_0000_0000_0000 && (base == 8 || base == 10 || base == 16)
    ensures Spells(Digits(num, base), num, base) && |Digits(num, base)| <= NUMBER_BUF_SIZE - 1
  {
    DigitsFit(num, base);
  }

  /** __pf_printnum's loop: the digits of any 64-bit number are put into the buffer from the right, and
      fit with room for the NUL. */
  method Convert(num: nat, base: nat) returns (buf: array<char>, x: nat)
    requires num < 0x1_0000_0000_0000_0000 && (base == 8 || base == 10 || base == 16)
    ensures fresh(buf) && buf.Length == NUMBER_BUF_SIZE && x < NUMBER_BUF_SIZE
    ensures buf[x..NUMBER_BUF_SIZE - 1] == Digits(num, base) && buf[NUMBER_BUF_SIZE - 1] == NUL
  {
    Spelled(num, base);
    ghost var whole := Digits(num, base);
    buf, x := FillIn(num, base, whole);
  }

  method FillIn(num: nat, base: nat, ghost whole: string) returns (buf: array<char>, x: nat)
    requires (base == 8 || base == 10 || base == 16) && Spells(whole, num, base) && |whole| <= NUMBER_BUF_SIZE - 1
    ensures fresh(buf) && buf.Length == NUMBER_BUF_SIZE && x < NUMBER_BUF_SIZE
    ensures buf[x..NUMBER_BUF_SIZE - 1] == whole && buf[NUMBER_BUF_SIZE - 1] == NUL
  {
    buf := new char[NUMBER_BUF_SIZE];
    x := NUMBER_BUF_SIZE - 1;
    buf[x] := NUL;
    var xnum: nat, more := num, true;
    ghost var left := whole;
    while more
      invariant x <= NUMBER_BUF_SIZE - 1 && buf[NUMBER_BUF_SIZE - 1] == NUL
      invariant whole == left + buf[x..NUMBER_BUF_SIZE - 1] && |left| <= x
      invariant if more then Spells(left, xnum, base) else left == ""
      decreases if more then xnum + 1 else 0
    {
      ghost var tail := buf[x..NUMBER_BUF_SIZE - 1];
      var d;
      xnum, d, left := OneDigit(xnum, base, left);
      x := x - 1;
      buf[x] := d;
      assert buf[x..NUMBER_BUF_SIZE - 1] == [d] + tail;
      more := xnum > 0;
    }
  }

  /** The least significant digit and the rest. */
  method OneDigit(num: nat, base: nat, ghost s: string) returns (q: nat, d: char, ghost left: string)
    requires 2 <= base <= 16 && Spells(s, num, base)
    ensures q < num || q == 0
    ensures s == left + [d] && if q > 0 then Spells(left, q, base) else left == ""
  {
    assert Look(true);
    Smaller(num, base);
    d := Digit(num % base);
    q := num / base;
    left := if q > 0 then Digits(q, base) else "";
  }

  lemma Smaller(num: nat, base: nat)
    requires 2 <= base
    ensures num / base < num || num / base == 0
    ensures num / base == 0 <==> num < base
  {
    var q, r := num / base, num % base;
    assert num == base * q + r;
    if q > 0 {
      MulAtLeast(q, 2, base);
    }
  }

  // ---------------------------------------------------------------- fields

  function Repeat(c: char, n: nat): (s: string)
    ensures |s| == n
  {
    if n == 0 then "" else Repeat(c, n - 1) + [c]
  }

  /** What __pf_printstuff prints: padding goes before the prefixes, or between them and the rest when
      it is zeros, or after everything. */
  function Field(prefix: string, stuff: string, spacing: nat, rightspc: bool, fillchar: char): string {
    var len := |prefix| + |stuff|;
    var pad := Repeat(fillchar, if spacing > len then spacing - len else 0);
    if rightspc then prefix + stuff + pad
    else if fillchar == '0' then prefix + pad + stuff
    else pad + prefix + stuff
  }

  function Padding(here: bool, fillchar: char, spc: nat): string {
    if here then Repeat(fillchar, spc) else ""
  }

  /** The six parts that are printed one after the other make the field. */
  lemma FieldParts(sent: string, prefix: string, prefix2: string, stuff: string, spacing: nat, rightspc: bool, fillchar: char)
    ensures var len := |prefix| + |prefix2| + |stuff|;
            var spc := if spacing > len then spacing - len else 0;
            sent + Padding(!rightspc && fillchar != '0', fillchar, spc) + prefix + prefix2
            + Padding(!rightspc && fillchar == '0', fillchar, spc) + stuff + Padding(rightspc, fillchar, spc)
            == sent + Field(prefix + prefix2, stuff, spacing, rightspc, fillchar)
  {
    var len := |prefix| + |prefix2| + |stuff|;
    var spc := if spacing > len then spacing - len else 0;
    var a, b, c := Padding(!rightspc && fillchar != '0', fillchar, spc),
                   Padding(!rightspc && fillchar == '0', fillchar, spc), Padding(rightspc, fillchar, spc);
    Regroup(sent, a, prefix, prefix2, b, stuff, c);
    OnePadding(prefix + prefix2, stuff, a, b, c);
  }

  lemma Regroup(sent: string, a: string, p: string, q: string, b: string, t: string, c: string)
    ensures sent + a + p + q + b + t + c == sent + (a + (p + q) + b + t + c)
  {
  }

  lemma OnePadding(p: string, t: string, a: string, b: string, c: string)
    ensures a == "" && b == "" ==> a + p + b + t + c == p + t + c
    ensures a == "" && c == "" ==> a + p + b + t + c == p + b + t
    ensures b == "" && c == "" ==> a + p + b + t + c == a + p + t
  {
  }

  // ---------------------------------------------------------------- formats

  datatype Size = IntSize | LongSize | LongLongSize | SizeTSize

  /** Arguments: integers (of any size) and strings, None for a null pointer. */
  datatype Arg = Num(v: int) | Text(s: Option<string>)

  /** The state between two format characters. */
  datatype Pf = Pf(inPct: bool, size: Size, spacing: nat, rightspc: bool, fillchar: char, altformat: bool, args: seq<Arg>)

  function EndField(args: seq<Arg>): Pf {
    Pf(false, IntSize, 0, false, ' ', false, args)
  }

  predicate IsModifier(ch: char) {
    ch == '#' || ch == '-' || ch == 'l' || ch == 'z' || '0' <= ch <= '9'
  }

  predicate IsInteger(ch: char) {
    ch == 'd' || ch == 'o' || ch == 'u' || ch == 'p' || ch == 'x'
  }

  function Modified(pf: Pf, ch: char): Pf
    requires IsModifier(ch)
  {
    if ch == '#' then pf.(altformat := true)
    else if ch == '-' then pf.(rightspc := true)
    else if ch == 'l' then pf.(size := if pf.size == LongSize then LongLongSize else LongSize)
    else if ch == 'z' then pf.(size := SizeTSize)
    else if ch == '0' && pf.spacing == 0 then pf.(fillchar := '0')
    else pf.(spacing := pf.spacing * 10 + (ch as int - '0' as int))
  }

  function Base(ch: char): (b: nat)
    ensures b == 8 || b == 10 || b == 16
  {
    if ch == 'd' || ch == 'u' then 10 else if ch == 'o' then 8 else 16
  }

  /** The value an integer argument of the given size and format can have. */
  predicate Holds(v: int, size: Size, ch: char) {
    var bits := if size == LongLongSize && ch != 'p' then 0x1_0000_0000_0000_0000 else 0x1_0000_0000;
    if ch == 'd' then -(bits / 2) <= v < bits / 2 else 0 <= v < bits
  }

  function Prefix(ch: char, v: int, altformat: bool): string {
    (if v < 0 then "-" else "") +
    (if !altformat && ch != 'p' then "" else if Base(ch) == 16 then "0x" else if Base(ch) == 8 then "0" else "")
  }

  function Magnitude(v: int): nat {
    if v < 0 then -v else v
  }

  /** The string of a field that is not an integer, if its argument is there. */
  function PlainText(ch: char, args: seq<Arg>): Option<string> {
    if ch == 's' then
      if args != [] && args[0].Text? then Some(if args[0].s.None? then "(null)" else CString(args[0].s.value)) else None
    else if ch == 'c' then
      if args != [] && args[0].Num? then Some(CString([(args[0].v % 256) as char])) else None
    else Some([ch])
  }

  /** A string as C reads it: up to the first NUL. */
  function CString(s: string): (r: string)
    ensures NUL !in r
  {
    if s == [] || s[0] == NUL then "" else [s[0]] + CString(s[1..])
  }

  /** One format character: the new state and what is printed; None if the argument is not what the
      format asks for. */
  function Send(pf: Pf, ch: char): Option<(Pf, string)> {
    if !pf.inPct then
      if ch == '%' then Some((pf.(inPct := true), "")) else Some((pf, [ch]))
    else if IsModifier(ch) then Some((Modified(pf, ch), ""))
    else if IsInteger(ch) then
      if pf.args == [] || !pf.args[0].Num? || !Holds(pf.args[0].v, pf.size, ch) then None
      else
        var v := pf.args[0].v;
        Some((EndField(pf.args[1..]),
              Field(Prefix(ch, v, pf.altformat), Digits(Magnitude(v), Base(ch)), pf.spacing, pf.rightspc, pf.fillchar)))
    else
      match PlainText(ch, pf.args)
      case None => None
      case Some(text) =>
        Some((EndField(if ch == 's' || ch == 'c' then pf.args[1..] else pf.args),
              Field("", text, pf.spacing, pf.rightspc, pf.fillchar)))
  }

  /** The whole output for a format. */
  function Render(pf: Pf, fmt: string): Option<string>
    decreases |fmt|
  {
    if fmt == [] then Some("")
    else
      match Send(pf, fmt[0])
      case None => None
      case Some((pf', text)) =>
        match Render(pf', fmt[1..])
        case None => None
        case Some(rest) => Some(text + rest)
  }

  // ---------------------------------------------------------------- what formats print

  predicate AllModifiers(mods: string) {
    forall i :: 0 <= i < |mods| ==> IsModifier(mods[i])
  }

  /** The state after "%" and modifiers. */
  function After(pf: Pf, mods: string): (r: Pf)
    requires AllModifiers(mods)
    ensures pf.inPct == r.inPct && r.args == pf.args
    ensures pf.fillchar == ' ' || pf.fillchar == '0' ==> r.fillchar == ' ' || r.fillchar == '0'
    decreases |mods|
  {
    if mods == [] then pf else After(Modified(pf, mods[0]), mods[1..])
  }

  lemma {:induction false} AfterMore(pf: Pf, mods: string, ch: char)
    requires AllModifiers(mods) && IsModifier(ch)
    ensures After(pf, mods + [ch]) == Modified(After(pf, mods), ch)
    decreases |mods|
  {
    if mods != [] {
      assert (mods + [ch])[1..] == mods[1..] + [ch];
      AfterMore(Modified(pf, mods[0]), mods[1..], ch);
    }
  }

  /** The digits among the modifiers, as one number. */
  function Width(mods: string): nat {
    if mods == [] then 0
    else
      var w, ch := Width(mods[..|mods| - 1]), mods[|mods| - 1];
      if '0' <= ch <= '9' then w * 10 + DigitValue(ch) else w
  }

  /** A 0 with no other digit before it. */
  ghost predicate ZeroFill(mods: string) {
    exists i :: 0 <= i < |mods| && mods[i] == '0' && forall j :: 0 <= j < i ==> !('1' <= mods[j] <= '9')
  }

  /** How many l stand behind the last z. */
  function Ls(mods: string): nat {
    if mods == [] || mods[|mods| - 1] == 'z' then 0
    else Ls(mods[..|mods| - 1]) + if mods[|mods| - 1] == 'l' then 1 else 0
  }

  /** The modifiers ask for a long long. */
  predicate LongLong(mods: string) {
    Ls(mods) > 0 && Ls(mods) % 2 == 0
  }

  lemma {:induction false} WidthZero(mods: string)
    ensures Width(mods) == 0 <==> forall j :: 0 <= j < |mods| ==> !('1' <= mods[j] <= '9')
  {
    if mods != [] {
      var front := mods[..|mods| - 1];
      WidthZero(front);
      assert forall j :: 0 <= j < |front| ==> front[j] == mods[j];
    }
  }

  lemma ZeroFillMore(mods: string, ch: char)
    ensures ZeroFill(mods + [ch]) <==> ZeroFill(mods) || (ch == '0' && Width(mods) == 0)
  {
    var all := mods + [ch];
    WidthZero(mods);
    assert forall j :: 0 <= j < |mods| ==> all[j] == mods[j];
    if ch == '0' && Width(mods) == 0 {
      assert all[|mods|] == '0';
    }
    if i :| 0 <= i < |mods| && mods[i] == '0' && forall j :: 0 <= j < i ==> !('1' <= mods[j] <= '9') {
      assert all[i] == '0';
    }
  }

  /** What the modifiers come to. */
  lemma {:induction false} ModifiersMean(args: seq<Arg>, mods: string)
    requires AllModifiers(mods)
    ensures var pf := After(EndField(args).(inPct := true), mods);
            && pf.spacing == Width(mods) && pf.rightspc == ('-' in mods) && pf.altformat == ('#' in mods)
            && pf.fillchar == (if ZeroFill(mods) then '0' else ' ') && (pf.size == LongLongSize <==> LongLong(mods))
            && (pf.size == LongSize <==> Ls(mods) % 2 == 1)
    decreases |mods|
  {
    if mods != [] {
      var front, ch := mods[..|mods| - 1], mods[|mods| - 1];
      assert mods == front + [ch];
      ModifiersMean(args, front);
      AfterMore(EndField(args).(inPct := true), front, ch);
      ZeroFillMore(front, ch);
    }
  }

  /** Modifiers print nothing. */
  lemma {:induction false} RenderModifiers(pf: Pf, mods: string, rest: string)
    requires pf.inPct && AllModifiers(mods)
    ensures Render(pf, mods + rest) == Render(After(pf, mods), rest)
    ensures Final(pf, mods + rest) == Final(After(pf, mods), rest)
    decreases |mods|
  {
    if mods == [] {
      assert mods + rest == rest;
    } else {
      var pf', fmt := Modified(pf, mods[0]), mods[1..] + rest;
      assert (mods + rest)[1..] == fmt && Send(pf, mods[0]) == Some((pf', ""));
      assert Render(pf', fmt).Some? ==> "" + Render(pf', fmt).value == Render(pf', fmt).value;
      RenderModifiers(pf', mods[1..], rest);
    }
  }

  /** The state at the end of a format. */
  function Final(pf: Pf, fmt: string): Option<Pf>
    decreases |fmt|
  {
    if fmt == [] then Some(pf)
    else
      match Send(pf, fmt[0])
      case None => None
      case Some((pf', _)) => Final(pf', fmt[1..])
  }

  /** The format takes exactly these arguments, prints out, and does not end inside a directive. */
  ghost predicate Prints(fmt: string, args: seq<Arg>, out: string) {
    Render(EndField(args), fmt) == Some(out) && Final(EndField(args), fmt) == Some(EndField([]))
  }

  lemma {:induction false} FinalTwo(pf: Pf, f: string, g: string)
    requires Final(pf, f).Some?
    ensures Final(pf, f + g) == Final(Final(pf, f).value, g)
    decreases |f|
  {
    if f == [] {
      assert f + g == g;
    } else {
      assert (f + g)[1..] == f[1..] + g;
      FinalTwo(Send(pf, f[0]).value.0, f[1..], g);
    }
  }

  lemma {:induction false} RenderTwo(pf: Pf, f: string, g: string, y: string)
    requires Render(pf, f).Some? && Final(pf, f).Some? && Render(Final(pf, f).value, g) == Some(y)
    ensures Render(pf, f + g) == Some(Render(pf, f).value + y)
    decreases |f|
  {
    if f == [] {
      assert f + g == g && "" + y == y;
    } else {
      var (pf', text) := Send(pf, f[0]).value;
      var rest := Render(pf', f[1..]).value;
      assert (f + g)[1..] == f[1..] + g && text + rest + y == text + (rest + y);
      RenderTwo(pf', f[1..], g, y);
    }
  }

  /** Arguments that are not reached do not matter. */
  lemma {:induction false} MoreArgs(pf: Pf, f: string, more: seq<Arg>)
    requires Render(pf, f).Some? && Final(pf, f).Some?
    ensures var pf' := pf.(args := pf.args + more);
            && Render(pf', f) == Render(pf, f)
            && Final(pf', f) == Some(Final(pf, f).value.(args := Final(pf, f).value.args + more))
    decreases |f|
  {
    if f != [] {
      var (next, text) := Send(pf, f[0]).value;
      SendMoreArgs(pf, f[0], more);
      MoreArgs(next, f[1..], more);
    }
  }

  lemma SendMoreArgs(pf: Pf, ch: char, more: seq<Arg>)
    requires Send(pf, ch).Some?
    ensures var (next, text) := Send(pf, ch).value;
            Send(pf.(args := pf.args + more), ch) == Some((next.(args := next.args + more), text))
  {
    if pf.args != [] {
      assert (pf.args + more)[0] == pf.args[0] && (pf.args + more)[1..] == pf.args[1..] + more;
    }
  }

  /** Two formats one after the other print what each prints on its own arguments. */
  lemma PrintsConcat(f: string, a: seq<Arg>, x: string, g: string, b: seq<Arg>, y: string)
    requires Prints(f, a, x) && Prints(g, b, y)
    ensures Prints(f + g, a + b, x + y)
  {
    MoreArgs(EndField(a), f, b);
    assert EndField(a).(args := a + b) == EndField(a + b) && EndField([]).(args := [] + b) == EndField(b);
    FinalTwo(EndField(a + b), f, g);
    RenderTwo(EndField(a + b), f, g, y);
  }

  /** Text without a % prints as itself. */
  lemma {:induction false} PrintsLiteral(s: string)
    requires '%' !in s
    ensures Prints(s, [], s)
  {
    if s != [] {
      PrintsLiteral(s[1..]);
      assert s == [s[0]] + s[1..];
    }
  }

  /** A directive with any modifiers is what its last character makes of the state. */
  lemma {:induction false} PrintsDirective(mods: string, ch: char, args: seq<Arg>, out: string)
    requires AllModifiers(mods)
    requires Send(After(EndField(args).(inPct := true), mods), ch) == Some((EndField([]), out))
    ensures Prints("%" + mods + [ch], args, out)
  {
    var pf0, fmt := EndField(args).(inPct := true), "%" + mods + [ch];
    assert fmt[1..] == mods + [ch] && fmt[0] == '%';
    RenderModifiers(pf0, mods, [ch]);
    var pf := After(pf0, mods);
    assert [ch][1..] == "" && out + "" == out && "" + out == out;
    assert Render(pf, [ch]) == Some(out) && Final(pf, [ch]) == Some(EndField([]));
  }

  /** Text in a field as the modifiers say. */
  ghost function InField(mods: string, prefix: string, text: string): string {
    Field(prefix, text, Width(mods), '-' in mods, if ZeroFill(mods) then '0' else ' ')
  }

  /** As wide as asked, or as wide as the text; text on the left, or on the right with the prefix in
      front of zeros but behind blanks. */
  lemma FieldShape(mods: string, prefix: string, text: string)
    ensures var out, len := InField(mods, prefix, text), |prefix| + |text|;
            && |out| == (if Width(mods) > len then Width(mods) else len)
            && ('-' in mods ==> out[..len] == prefix + text)
            && ('-' !in mods && ZeroFill(mods) ==> out[..|prefix|] == prefix && out[|out| - |text|..] == text)
            && ('-' !in mods && !ZeroFill(mods) ==> out[|out| - len..] == prefix + text)
  {
    var c, len := if ZeroFill(mods) then '0' else ' ', |prefix| + |text|;
    Joined(prefix, text, Repeat(c, if Width(mods) > len then Width(mods) - len else 0));
  }

  lemma Joined(a: string, b: string, pad: string)
    ensures (a + b + pad)[..|a| + |b|] == a + b
    ensures (a + pad + b)[..|a|] == a && (a + pad + b)[|a| + |pad|..] == b
    ensures (pad + a + b)[|pad|..] == a + b
  {
  }

  /** Nothing but the fill character is added. */
  lemma FieldFill(mods: string, prefix: string, text: string, c: char)
    requires c in InField(mods, prefix, text)
    ensures c in prefix || c in text || c == if ZeroFill(mods) then '0' else ' '
  {
    var fill, len := if ZeroFill(mods) then '0' else ' ', |prefix| + |text|;
    RepeatOnly(fill, if Width(mods) > len then Width(mods) - len else 0);
  }

  lemma {:induction false} RepeatOnly(c: char, n: nat)
    ensures forall x :: x in Repeat(c, n) ==> x == c
  {
    if n > 0 {
      RepeatOnly(c, n - 1);
    }
  }

  /** The values an integer argument can have: a pointer and every size but long long are 32 bits. */
  predicate Fits(mods: string, ch: char, v: int) {
    if ch == 'd' then
      if LongLong(mods) then -0x8000_0000_0000_0000 <= v < 0x8000_0000_0000_0000 else -0x8000_0000 <= v < 0x8000_0000
    else if LongLong(mods) && ch != 'p' then 0 <= v < 0x1_0000_0000_0000_0000
    else 0 <= v < 0x1_0000_0000
  }

  /** An integer directive prints digits that stand for the value: %d and %u in base 10, %o in base 8, %x
      and %p in base 16.  A minus goes before them, and 0 or 0x if asked for and always for %p. */
  lemma PrintsInteger(mods: string, ch: char, v: int) returns (prefix: string, digits: string)
    requires AllModifiers(mods) && ch in "doupx" && Fits(mods, ch, v)
    ensures Prints("%" + mods + [ch], [Num(v)], InField(mods, prefix, digits))
    ensures ch == 'd' || ch == 'u' ==> Evaluate(digits, 10) == Magnitude(v) && prefix == if v < 0 then "-" else ""
    ensures ch == 'o' ==> Evaluate(digits, 8) == v && prefix == if '#' in mods then "0" else ""
    ensures ch == 'x' ==> Evaluate(digits, 16) == v && prefix == if '#' in mods then "0x" else ""
    ensures ch == 'p' ==> Evaluate(digits, 16) == v && prefix == "0x"
    ensures digits != "" && (digits[0] == '0' <==> v == 0)
    ensures forall i :: 0 <= i < |digits| ==> '0' <= digits[i] <= '9' || 'a' <= digits[i] <= 'f'
  {
    ModifiersMean([Num(v)], mods);
    var pf := After(EndField([Num(v)]).(inPct := true), mods);
    prefix, digits := Prefix(ch, v, pf.altformat), Digits(Magnitude(v), Base(ch));
    DigitsMean(Magnitude(v), Base(ch));
    DigitsOfBase(Magnitude(v), Base(ch));
    DigitsAre(Magnitude(v), Base(ch));
    IntegerSent(pf, ch, v);
    PrintsDirective(mods, ch, [Num(v)], InField(mods, prefix, digits));
  }

  /** And it prints nothing defined for a value that its size does not hold. */
  lemma PrintsIntegerIff(mods: string, ch: char, v: int)
    requires AllModifiers(mods) && ch in "doupx"
    ensures Render(EndField([Num(v)]), "%" + mods + [ch]).Some? <==> Fits(mods, ch, v)
  {
    if Fits(mods, ch, v) {
      var prefix, digits := PrintsInteger(mods, ch, v);
    } else {
      ModifiersMean([Num(v)], mods);
      var pf0, fmt := EndField([Num(v)]).(inPct := true), "%" + mods + [ch];
      assert fmt[1..] == mods + [ch] && fmt[0] == '%';
      RenderModifiers(pf0, mods, [ch]);
      assert Render(After(pf0, mods), [ch]) == None;
    }
  }

  lemma IntegerSent(pf: Pf, ch: char, v: int)
    requires pf.inPct && pf.args == [Num(v)] && IsInteger(ch) && Holds(v, pf.size, ch)
    ensures Send(pf, ch) == Some((EndField([]), Field(Prefix(ch, v, pf.altformat), Digits(Magnitude(v), Base(ch)),
                                                      pf.spacing, pf.rightspc, pf.fillchar)))
  {
    assert !IsModifier(ch) && [Num(v)][1..] == [];
  }

  lemma DigitIsOne(d: nat)
    requires d < 16
    ensures '0' <= Digit(d) <= '9' || 'a' <= Digit(d) <= 'f'
  {
  }

  lemma {:induction false} DigitsAre(num: nat, base: nat)
    requires 2 <= base <= 16
    ensures forall i :: 0 <= i < |Digits(num, base)| ==>
              '0' <= Digits(num, base)[i] <= '9' || 'a' <= Digits(num, base)[i] <= 'f'
    decreases num
  {
    if num < base {
      DigitIsOne(num);
    } else {
      Smaller(num, base);
      DigitsAre(num / base, base);
      DigitIsOne(num % base);
    }
  }

  /** %s prints its argument up to the first NUL, and "(null)" for a null pointer. */
  lemma PrintsString(mods: string, t: Option<string>) returns (text: string)
    requires AllModifiers(mods)
    ensures Prints("%" + mods + "s", [Text(t)], InField(mods, "", text))
    ensures t.None? ==> text == "(null)"
    ensures t.Some? ==> text <= t.value && NUL !in text && (|text| < |t.value| ==> t.value[|text|] == NUL)
  {
    ModifiersMean([Text(t)], mods);
    text := if t.None? then "(null)" else CString(t.value);
    if t.Some? {
      CStringIs(t.value);
    }
    assert [Text(t)][1..] == [];
    PrintsDirective(mods, 's', [Text(t)], InField(mods, "", text));
  }

  lemma {:induction false} CStringIs(s: string)
    ensures CString(s) <= s && (|CString(s)| < |s| ==> s[|CString(s)|] == NUL)
  {
    if s != [] && s[0] != NUL {
      CStringIs(s[1..]);
    }
  }

  /** %c prints its character, and nothing for a NUL. */
  lemma PrintsChar(mods: string, v: int) returns (text: string)
    requires AllModifiers(mods)
    ensures Prints("%" + mods + "c", [Num(v)], InField(mods, "", text))
    ensures text == if v % 256 == 0 then "" else [(v % 256) as char]
  {
    ModifiersMean([Num(v)], mods);
    var c := (v % 256) as char;
    text := CString([c]);
    assert CString([c][1..]) == "" && [c] + "" == [c];
    assert [Num(v)][1..] == [] && (c == NUL <==> v % 256 == 0);
    PrintsDirective(mods, 'c', [Num(v)], InField(mods, "", text));
  }

  /** Any other character prints itself, as in "%%". */
  lemma PrintsOther(mods: string, ch: char)
    requires AllModifiers(mods) && !IsModifier(ch) && ch !in "doupxsc" && ch != NUL
    ensures Prints("%" + mods + [ch], [], InField(mods, "", [ch]))
  {
    ModifiersMean([], mods);
    PrintsDirective(mods, ch, [], InField(mods, "", [ch]));
  }

  // ---------------------------------------------------------------- the buffer of snprintf

  /** The longest prefix of the text that leaves room for a NUL, the NUL, and nothing else. */
  function Stored(text: string, len: nat, was: string): string
    requires len <= |was|
  {
    if len == 0 then was
    else
      var k := if |text| < len - 1 then |text| else len - 1;
      text[..k] + [NUL] + was[k + 1..]
  }

  lemma Terminated(text: string, was: string, k: nat)
    requires k <= |text| && k < |was|
    ensures (text[..k] + was[k..])[k := NUL] == text[..k] + [NUL] + was[k + 1..]
  {
  }

  /** SNP; `sent` is everything handed to __snprintf_send. */
  class Buffer {
    const buf: array<char>
    const buflen: nat
    var bufpos: nat
    ghost const was: string
    ghost var sent: string

    /** The longest prefix of what was sent that fits is in the buffer, and the rest is untouched. */
    ghost predicate Valid()
      reads this, buf
    {
      && |was| == buf.Length && buflen <= buf.Length
      && bufpos == (if |sent| < buflen then |sent| else buflen)
      && buf[..] == sent[..bufpos] + was[bufpos..]
    }

    constructor (buf: array<char>, buflen: nat)
      requires buflen <= buf.Length
      ensures Valid() && this.buf == buf && this.buflen == buflen && sent == "" && was == buf[..]
    {
      this.buf, this.buflen, bufpos, sent, was := buf, buflen, 0, "", buf[..];
    }

    method SendOne(c: char)
      requires Valid()
      modifies this, buf
      ensures Valid() && sent == old(sent) + [c]
    {
      if bufpos < buflen {
        buf[bufpos] := c;
        bufpos := bufpos + 1;
      }
      sent := sent + [c];
    }

    method Send(data: string)
      requires Valid()
      modifies this, buf
      ensures Valid() && sent == old(sent) + data
    {
      var i := 0;
      while i < |data|
        invariant 0 <= i <= |data| && Valid() && sent == old(sent) + data[..i]
      {
        SendOne(data[i]);
        i := i + 1;
      }
    }

    /** The end of vsnprintf. */
    method Terminate(len: nat)
      requires Valid() && len <= buf.Length && buflen == if len == 0 then 0 else len - 1
      modifies buf
      ensures buf[..] == Stored(sent, len, was)
    {
      if len > 0 {
        Terminated(sent, was, bufpos);
        buf[bufpos] := NUL;
      }
    }
  }

  // ---------------------------------------------------------------- the engine

  class Printer {
    const out: Buffer
    var charcount: nat
    var inPct: bool
    var size: Size
    var spacing: nat
    var rightspc: bool
    var fillchar: char
    var altformat: bool
    var args: seq<Arg>

    ghost predicate Valid()
      reads this, out, out.buf
    {
      out.Valid() && charcount == |out.sent|
    }

    ghost function State(): Pf
      reads this
    {
      Pf(inPct, size, spacing, rightspc, fillchar, altformat, args)
    }

    constructor (out: Buffer, args: seq<Arg>)
      requires out.Valid() && out.sent == ""
      ensures Valid() && this.out == out && State() == EndField(args)
    {
      this.out, charcount, this.args := out, 0, args;
      inPct, size, spacing, rightspc, fillchar, altformat := false, IntSize, 0, false, ' ', false;
    }

    method Print(text: string)
      requires Valid()
      modifies `charcount, out, out.buf
      ensures Valid() && out.sent == old(out.sent) + text
    {
      out.Send(text);
      charcount := charcount + |text|;
    }

    method Fill(spc: nat)
      requires Valid()
      modifies `charcount, out, out.buf
      ensures Valid() && out.sent == old(out.sent) + Repeat(fillchar, spc)
    {
      var i := 0;
      while i < spc
        invariant 0 <= i <= spc && Valid() && out.sent == old(out.sent) + Repeat(fillchar, i)
      {
        Print([fillchar]);
        i := i + 1;
      }
    }

    method PrintStuff(prefix: string, prefix2: string, stuff: string)
      requires Valid()
      modifies `charcount, out, out.buf
      ensures Valid() && out.sent == old(out.sent) + Field(prefix + prefix2, stuff, spacing, rightspc, fillchar)
    {
      var len := |prefix| + |prefix2| + |stuff|;
      var spc := if spacing > len then spacing - len else 0;
      FillIf(!rightspc && fillchar != '0', spc);
      Print(prefix);
      Print(prefix2);
      FillIf(!rightspc && fillchar == '0', spc);
      Print(stuff);
      FillIf(rightspc, spc);
      FieldParts(old(out.sent), prefix, prefix2, stuff, spacing, rightspc, fillchar);
    }

    method FillIf(here: bool, spc: nat)
      requires Valid()
      modifies `charcount, out, out.buf
      ensures Valid() && out.sent == old(out.sent) + Padding(here, fillchar, spc)
    {
      if spc > 0 && here {
        Fill(spc);
      }
    }

    method PrintNum(v: int, ch: char)
      requires Valid() && IsInteger(ch) && Holds(v, size, ch)
      modifies `charcount, out, out.buf
      ensures Valid()
      ensures out.sent == old(out.sent) + Field(Prefix(ch, v, altformat), Digits(Magnitude(v), Base(ch)), spacing, rightspc, fillchar)
    {
      var num, sign := v, "";
      if v < 0 {
        num, sign := -v, "-";
      }
      var base := Base(ch);
      var buf, x := Convert(num, base);
      var bprefix := if !altformat && ch != 'p' then "" else if base == 16 then "0x" else if base == 8 then "0" else "";
      PrintStuff(sign, bprefix, buf[x..NUMBER_BUF_SIZE - 1]);
    }

    method Reset(rest: seq<Arg>)
      modifies `inPct, `size, `spacing, `rightspc, `fillchar, `altformat, `args
      ensures State() == EndField(rest)
    {
      inPct, size, spacing, rightspc, fillchar, altformat, args := false, IntSize, 0, false, ' ', false, rest;
    }

    method Modify(ch: char)
      requires IsModifier(ch)
      modifies `size, `spacing, `rightspc, `fillchar, `altformat
      ensures State() == Modified(old(State()), ch)
    {
      match ch
      case '#' => altformat := true;
      case '-' => rightspc := true;
      case 'l' => size := if size == LongSize then LongLongSize else LongSize;
      case 'z' => size := SizeTSize;
      case '0' =>
        if spacing > 0 {
          spacing := spacing * 10;
        } else {
          fillchar := '0';
        }
      case _ => spacing := spacing * 10 + (ch as int - '0' as int);
    }

    /** __pf_send. */
    method SendChar(ch: char)
      requires Valid() && Send(State(), ch).Some?
      modifies this, out, out.buf
      ensures Valid()
      ensures State() == Send(old(State()), ch).value.0 && out.sent == old(out.sent) + Send(old(State()), ch).value.1
    {
      if !inPct {
        if ch != '%' {
          Print([ch]);
        } else {
          inPct := true;
        }
      } else if IsModifier(ch) {
        Modify(ch);
      } else if IsInteger(ch) {
        PrintNum(args[0].v, ch);
        Reset(args[1..]);
      } else {
        PrintStuff("", "", PlainText(ch, args).value);
        Reset(if ch == 's' || ch == 'c' then args[1..] else args);
      }
    }

    /** __vprintf. */
    method VPrintf(fmt: string) returns (chars: nat)
      requires Valid() && out.sent == "" && Render(State(), fmt).Some?
      modifies this, out, out.buf
      ensures Valid() && out.sent == Render(old(State()), fmt).value && chars == |out.sent|
    {
      ghost var whole := Render(State(), fmt).value;
      var i := 0;
      while i < |fmt|
        invariant 0 <= i <= |fmt| && Valid()
        invariant Render(State(), fmt[i..]).Some? && whole == out.sent + Render(State(), fmt[i..]).value
      {
        assert fmt[i..][1..] == fmt[i + 1..];
        SendChar(fmt[i]);
        i := i + 1;
      }
      chars := charcount;
    }
  }

  /** vsnprintf (section 7.19.6.12 of ISO C99): the buffer as Stored says, and the length of the whole
      output. */
  method VSnprintf(buf: array<char>, len: nat, fmt: string, args: seq<Arg>) returns (chars: nat)
    requires len <= buf.Length && Render(EndField(args), fmt).Some?
    modifies buf
    ensures chars == |Render(EndField(args), fmt).value|
    ensures buf[..] == Stored(Render(EndField(args), fmt).value, len, old(buf[..]))
  {
    var snp := new Buffer(buf, if len == 0 then 0 else len - 1);
    var pf := new Printer(snp, args);
    chars := pf.VPrintf(fmt);
    snp.Terminate(len);
  }
}
