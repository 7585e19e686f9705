/** Interrupt priority levels (spl.c): one thread's view of them, and the two calls that change it. */
module Spl {

  /** What the current thread and its processor know: t_iplhigh_count, t_curspl, interrupts on. */
  datatype Ipl = Ipl(count: int, high: bool, irq: bool)

  function Bit(b: bool): (n: nat)
    ensures n <= 1
  {
    if b then 1 else 0
  }

  /** splraise: interrupts go off on the first raise. */
  function Raised(v: Ipl): Ipl {
    v.(irq := v.irq && v.count != 0, count := v.count + 1)
  }

  /** spllower: and on again on the last lower. */
  function Lowered(v: Ipl): Ipl {
    v.(irq := v.irq || v.count - 1 == 0, count := v.count - 1)
  }

  function AtLevel(v: Ipl, high: bool): Ipl {
    if v.high == high then v
    else if high then Raised(v).(high := true)
    else Lowered(v).(high := false)
  }

  /** The count is the number of spinlocks held plus one if the level is high, and interrupts are off
      exactly while it is positive. */
  ghost predicate Coherent(v: Ipl, spinlocks: int) {
    v.count == spinlocks + Bit(v.high) && (v.irq <==> v.count == 0)
  }

  /** spl calls and spinlocks each raise and lower on their own. */
  lemma CoherentKept(v: Ipl, spinlocks: nat, high: bool)
    requires Coherent(v, spinlocks)
    ensures Coherent(AtLevel(v, high), spinlocks) && AtLevel(v, high).high == high
    ensures Coherent(Raised(v), spinlocks + 1)
    ensures spinlocks > 0 ==> Coherent(Lowered(v), spinlocks - 1)
  {
  }

  datatype Op = SetLevel(high: bool) | Acquire | Release

  function Do(v: Ipl, op: Op): Ipl {
    match op
    case SetLevel(high) => AtLevel(v, high)
    case Acquire => Raised(v)
    case Release => Lowered(v)
  }

  /** A thread's calls, in any order. */
  function After(v: Ipl, ops: seq<Op>): Ipl {
    if ops == [] then v else Do(After(v, ops[..|ops| - 1]), ops[|ops| - 1])
  }

  function Delta(op: Op): int {
    match op
    case SetLevel(_) => 0
    case Acquire => 1
    case Release => -1
  }

  /** The spinlocks it then holds. */
  function Held(ops: seq<Op>): int {
    if ops == [] then 0 else Held(ops[..|ops| - 1]) + Delta(ops[|ops| - 1])
  }

  /** Only spinlocks that are held are released. */
  ghost predicate Balanced(ops: seq<Op>) {
    ops == [] || (Balanced(ops[..|ops| - 1]) && Held(ops) >= 0)
  }

  lemma DoKeeps(v: Ipl, n: nat, op: Op)
    requires Coherent(v, n) && n + Delta(op) >= 0
    ensures Coherent(Do(v, op), n + Delta(op))
  {
    match op
    case SetLevel(high) => CoherentKept(v, n, high);
    case Acquire => CoherentKept(v, n, true);
    case Release => CoherentKept(v, n, true);
  }

  /** Whatever the nesting of spl calls and spinlocks: after any such calls the count is spinlocks plus
      level, so interrupts are on exactly when nothing is held and the level is low. */
  lemma {:induction false} AnyNesting(v: Ipl, ops: seq<Op>)
    requires Coherent(v, 0) && Balanced(ops)
    ensures Held(ops) >= 0 && Coherent(After(v, ops), Held(ops))
    ensures After(v, ops).irq <==> Held(ops) == 0 && !After(v, ops).high
  {
    if ops != [] {
      var front, op := ops[..|ops| - 1], ops[|ops| - 1];
      AnyNesting(v, front);
      DoKeeps(After(v, front), Held(front), op);
    }
  }

  /** The current thread on a processor. */
  class Current {
    var iplhighCount: int
    var curspl: int       // IPL_NONE is 0, IPL_HIGH is 1
    var irqOn: bool

    ghost predicate Valid()
      reads this
    {
      0 <= curspl <= 1
    }

    ghost function View(): Ipl
      reads this
    {
      Ipl(iplhighCount, curspl == 1, irqOn)
    }

    constructor ()
      ensures Valid() && View() == Ipl(1, true, false) && Coherent(View(), 0)
    {
      iplhighCount, curspl, irqOn := 1, 1, false;
    }

    method SplRaise()
      modifies `iplhighCount, `irqOn
      ensures View() == Raised(old(View()))
    {
      if iplhighCount == 0 {
        irqOn := false;
      }
      iplhighCount := iplhighCount + 1;
    }

    method SplLower()
      modifies `iplhighCount, `irqOn
      ensures View() == Lowered(old(View()))
    {
      iplhighCount := iplhighCount - 1;
      if iplhighCount == 0 {
        irqOn := true;
      }
    }

    /** splx answers with the level to go back to. */
    method Splx(spl: int) returns (ret: int)
      requires Valid() && 0 <= spl <= 1
      modifies this
      ensures Valid() && View() == AtLevel(old(View()), spl == 1) && ret == old(curspl)
    {
      if curspl < spl {
        SplRaise();
        ret := curspl;
        curspl := spl;
      } else if curspl > spl {
        ret := curspl;
        curspl := spl;
        SplLower();
      } else {
        ret := spl;
      }
    }
  }
}
