/** fill_order of the paint shop (asst1/paintshop.c): staff take the tints of a can under a gate, mix, and
put them back.  Any number of staff; each order is any sequence of colours, 0 for none. */
module PaintTints {
  import opened Common

  datatype Pc =
    | Away
    | WantGate
    | Tinting(i: nat)      // inside the gate, about to take colour i
    | Tinted               // about to leave the gate
    | Mixing
    | Untinting(i: nat)    // about to give back colour i

  datatype Staff = Staff(pc: Pc, colours: seq<nat>)

  /** `tints` says who has taken a tint; a tint that nobody has is available. */
  datatype State = State(staff: map<nat, Staff>, gate: Option<nat>, tints: map<nat, nat>)

  datatype Step = Fill(colours: seq<nat>) | Next

  /** The colour a thread is about to take, if there is one. */
  function Wants(t: Staff): Option<nat> {
    if t.pc.Tinting? && t.pc.i < |t.colours| && t.colours[t.pc.i] != 0 then Some(t.colours[t.pc.i]) else None
  }

  predicate Enabled(s: State, w: nat, step: Step) {
    w in s.staff &&
    var t := s.staff[w];
    match step
    case Fill(_) => t.pc == Away
    case Next =>
      && t.pc != Away
      && (t.pc == WantGate ==> s.gate == None)
      && (Wants(t).Some? ==> Wants(t).value !in s.tints)
  }

  function Do(s: State, w: nat, step: Step): State
    requires Enabled(s, w, step)
  {
    var t := s.staff[w];
    match step
    case Fill(colours) => s.(staff := s.staff[w := Staff(WantGate, colours)])
    case Next =>
      match t.pc
      case Away => s
      case WantGate => s.(staff := s.staff[w := t.(pc := Tinting(0))], gate := Some(w))
      case Tinting(i) =>
        if i >= |t.colours| then s.(staff := s.staff[w := t.(pc := Tinted)])
        else s.(staff := s.staff[w := t.(pc := Tinting(i + 1))],
                tints := if t.colours[i] == 0 then s.tints else s.tints[t.colours[i] := w])
      case Tinted => s.(staff := s.staff[w := t.(pc := Mixing)], gate := None)
      case Mixing => s.(staff := s.staff[w := t.(pc := Untinting(0))])
      case Untinting(i) =>
        if i >= |t.colours| then s.(staff := s.staff[w := t.(pc := Away)])
        else s.(staff := s.staff[w := t.(pc := Untinting(i + 1))],
                tints := if t.colours[i] == 0 then s.tints else s.tints - {t.colours[i]})
  }

  // ---------------------------------------------------------------- what every step keeps

  /** Whether a thread has taken colour c and not given it back. */
  ghost predicate Has(t: Staff, c: nat) {
    c != 0 &&
    match t.pc
    case Away => false
    case WantGate => false
    case Tinting(i) => exists j :: 0 <= j < i && j < |t.colours| && t.colours[j] == c
    case Tinted => c in t.colours
    case Mixing => c in t.colours
    case Untinting(i) => exists j :: i <= j < |t.colours| && t.colours[j] == c
  }

  /** No colour but 0 twice among the first n. */
  ghost predicate Once(colours: seq<nat>, n: nat) {
    forall j, k :: 0 <= j < k < n && k < |colours| && colours[j] == colours[k] ==> colours[j] == 0
  }

  ghost predicate StaffOk(s: State, w: nat) {
    w in s.staff ==>
      var t := s.staff[w];
      && (forall c :: (c in s.tints && s.tints[c] == w) <==> Has(t, c))
      && (s.gate == Some(w) <==> t.pc.Tinting? || t.pc == Tinted)
      && (t.pc.Tinting? ==> t.pc.i <= |t.colours| && Once(t.colours, t.pc.i))
      && (t.pc == Tinted || t.pc == Mixing || t.pc.Untinting? ==> Once(t.colours, |t.colours|))
  }

  ghost predicate Inv(s: State) {
    && (forall w :: StaffOk(s, w))
    && (s.gate.Some? ==> s.gate.value in s.staff) && (forall c :: c in s.tints ==> s.tints[c] in s.staff)
  }

  /** A thread that could take its next tint has not got it yet, so it takes no colour twice. */
  lemma TakesNew(s: State, w: nat, i: nat)
    requires StaffOk(s, w) && Enabled(s, w, Next) && s.staff[w].pc == Tinting(i) && i < |s.staff[w].colours|
    ensures Once(s.staff[w].colours, i + 1)
  {
    var t := s.staff[w];
    forall j | 0 <= j < i && t.colours[j] == t.colours[i] ensures t.colours[j] == 0 {
      assert t.colours[j] != 0 ==> Has(t, t.colours[j]);
    }
  }

  lemma OwnKeeps(s: State, w: nat, step: Step)
    requires Inv(s) && Enabled(s, w, step)
    ensures StaffOk(Do(s, w, step), w)
  {
    var t, s' := s.staff[w], Do(s, w, step);
    var t' := s'.staff[w];
    assert StaffOk(s, w);
    if step == Next && t.pc.Tinting? && t.pc.i < |t.colours| {
      TakesNew(s, w, t.pc.i);
      forall c ensures Has(t', c) <==> Has(t, c) || (c == t.colours[t.pc.i] && c != 0) {
      }
    } else if step == Next && t.pc.Untinting? && t.pc.i < |t.colours| {
      forall c ensures Has(t', c) <==> Has(t, c) && c != t.colours[t.pc.i] {
      }
    }
  }

  lemma StepKeeps(s: State, w: nat, step: Step)
    requires Inv(s) && Enabled(s, w, step)
    ensures Inv(Do(s, w, step))
  {
    var s' := Do(s, w, step);
    forall v ensures StaffOk(s', v) {
      assert StaffOk(s, v) && StaffOk(s, w);
      if v == w {
        OwnKeeps(s, w, step);
      }
    }
  }

  // ---------------------------------------------------------------- whole runs

  datatype Act = Act(who: nat, step: Step)

  ghost predicate Run(states: seq<State>, acts: seq<Act>) {
    && |states| == |acts| + 1
    && forall i :: 0 <= i < |acts| ==> Leads(states[i], acts[i], states[i + 1])
  }

  /** A sealed fact: the act can be done in s and leads to s'. */
  ghost predicate Leads(s: State, a: Act, s': State) {
    forall u {:trigger Look(u)} :: Look(u) ==> Enabled(s, a.who, a.step) && s' == Do(s, a.who, a.step)
  }

  lemma LeadsKeeps(s: State, a: Act, s': State)
    requires Inv(s) && Leads(s, a, s')
    ensures Inv(s')
  {
    assert Look(true);
    StepKeeps(s, a.who, a.step);
  }

  ghost predicate Open(s: State) {
    s.gate == None && s.tints == map[] && forall w :: w in s.staff ==> s.staff[w].pc == Away
  }

  lemma {:induction false} RunKeeps(states: seq<State>, acts: seq<Act>, i: nat)
    requires Run(states, acts) && Open(states[0]) && i < |states|
    ensures Inv(states[i])
  {
    if i > 0 {
      RunKeeps(states, acts, i - 1);
      LeadsKeeps(states[i - 1], acts[i - 1], states[i]);
    }
  }

  /** In every run, two staff are never in mix with a tint in common, and a can that is being mixed has
      no tint twice. */
  lemma MixExclusive(states: seq<State>, acts: seq<Act>, i: nat, v: nat, w: nat, c: nat)
    requires Run(states, acts) && Open(states[0]) && i < |states| && v in states[i].staff && w in states[i].staff
    requires states[i].staff[v].pc == Mixing && states[i].staff[w].pc == Mixing && v != w
    ensures c != 0 ==> !(c in states[i].staff[v].colours && c in states[i].staff[w].colours)
    ensures Once(states[i].staff[v].colours, |states[i].staff[v].colours|)
  {
    RunKeeps(states, acts, i);
    var s := states[i];
    assert StaffOk(s, v) && StaffOk(s, w);
    assert Has(s.staff[v], c) ==> c in s.tints && s.tints[c] == v;
    assert Has(s.staff[w], c) ==> c in s.tints && s.tints[c] == w;
  }

  // ---------------------------------------------------------------- who waits for whom

  /** w cannot go on before v does: v is inside the gate, or has the tint w wants. */
  ghost predicate WaitsFor(s: State, w: nat, v: nat) {
    && w in s.staff && v in s.staff
    && ((s.staff[w].pc == WantGate && s.gate == Some(v))
        || (Wants(s.staff[w]).Some? && Wants(s.staff[w]).value in s.tints && s.tints[Wants(s.staff[w]).value] == v))
  }

  /** A blocked thread waits for someone. */
  lemma BlockedWaits(s: State, w: nat)
    requires Inv(s) && w in s.staff && s.staff[w].pc != Away
    ensures Enabled(s, w, Next) <==> forall v :: !WaitsFor(s, w, v)
  {
    assert StaffOk(s, w);
    var t := s.staff[w];
    if !Enabled(s, w, Next) {
      assert t.pc == WantGate ==> WaitsFor(s, w, s.gate.value);
      assert Wants(t).Some? ==> WaitsFor(s, w, s.tints[Wants(t).value]);
    }
  }

  /** It wants a tint it has already. */
  ghost predicate Repeats(t: Staff) {
    Wants(t).Some? && Has(t, Wants(t).value)
  }

  ghost function Rank(t: Staff): nat {
    if t.pc == WantGate then 2 else if t.pc.Tinting? || t.pc == Tinted then 1 else 0
  }

  /** Who waits for a tint waits for a thread that is past the gate and has only to give tints back,
      unless its own order repeats the colour. */
  lemma WaitDescends(s: State, w: nat, v: nat)
    requires Inv(s) && WaitsFor(s, w, v)
    ensures w == v <==> Repeats(s.staff[w])
    ensures w != v ==> Rank(s.staff[v]) < Rank(s.staff[w])
    ensures w != v && Wants(s.staff[w]).Some? ==> s.staff[v].pc == Mixing || s.staff[v].pc.Untinting?
  {
    assert StaffOk(s, w) && StaffOk(s, v);
    var c := Wants(s.staff[w]);
    if c.Some? {
      assert Has(s.staff[v], c.value);
      assert w != v ==> s.gate != Some(v);
    }
  }

  /** A chain of waits. */
  ghost predicate Chain(s: State, p: seq<nat>) {
    |p| > 0 && p[0] in s.staff && forall i :: 0 <= i < |p| - 1 ==> WaitsFor(s, p[i], p[i + 1])
  }

  /** A circular wait. */
  ghost predicate Circular(s: State) {
    exists p :: |p| > 1 && Chain(s, p) && p[0] == p[|p| - 1]
  }

  lemma {:induction false} ChainDescends(s: State, p: seq<nat>)
    requires Inv(s) && Chain(s, p) && forall w :: w in s.staff ==> !Repeats(s.staff[w])
    ensures p[|p| - 1] in s.staff && Rank(s.staff[p[|p| - 1]]) + |p| - 1 <= Rank(s.staff[p[0]])
    decreases |p|
  {
    if |p| > 1 {
      ChainDescends(s, p[..|p| - 1]);
      assert WaitsFor(s, p[|p| - 2], p[|p| - 1]);
      WaitDescends(s, p[|p| - 2], p[|p| - 1]);
    }
  }

  /** There is a circular wait exactly when some thread waits for a tint it has taken itself. */
  lemma CircularWaitIff(s: State)
    requires Inv(s)
    ensures Circular(s) <==> exists w :: w in s.staff && Repeats(s.staff[w])
  {
    if w :| w in s.staff && Repeats(s.staff[w]) {
      assert StaffOk(s, w);
      assert Chain(s, [w, w]);
    } else {
      forall p | |p| > 1 && Chain(s, p) ensures p[0] != p[|p| - 1] {
        ChainDescends(s, p);
      }
    }
  }

  /** If every order names its colours once, no run ever reaches a circular wait. */
  lemma NoCircularWait(states: seq<State>, acts: seq<Act>, i: nat, p: seq<nat>)
    requires Run(states, acts) && Open(states[0]) && i < |states| && |p| > 1 && Chain(states[i], p)
    requires forall w :: w in states[i].staff ==> Once(states[i].staff[w].colours, |states[i].staff[w].colours|)
    ensures p[0] != p[|p| - 1] && |p| <= 3
  {
    RunKeeps(states, acts, i);
    var s := states[i];
    forall w | w in s.staff ensures !Repeats(s.staff[w]) {
      assert StaffOk(s, w);
    }
    ChainDescends(s, p);
  }

  /** Once it is there, a circular wait stays: the thread holds the gate and never moves again. */
  lemma RepeatsForever(s: State, w: nat, v: nat, step: Step)
    requires Inv(s) && w in s.staff && Repeats(s.staff[w]) && Enabled(s, v, step)
    ensures v != w && Do(s, v, step).staff[w] == s.staff[w]
  {
    assert StaffOk(s, w);
  }

  // ---------------------------------------------------------------- which orders lead there

  /** All cans filled are for one of these orders. */
  ghost predicate Fills(acts: seq<Act>, orders: set<seq<nat>>) {
    forall i :: 0 <= i < |acts| && acts[i].step.Fill? ==> acts[i].step.colours in orders
  }

  lemma {:induction false} WorksOn(states: seq<State>, acts: seq<Act>, orders: set<seq<nat>>, i: nat, w: nat)
    requires Run(states, acts) && Open(states[0]) && Fills(acts, orders) && i < |states| && w in states[i].staff
    ensures states[i].staff[w].pc == Away || states[i].staff[w].colours in orders
  {
    if i > 0 {
      assert Leads(states[i - 1], acts[i - 1], states[i]) && Look(true);
      WorksOn(states, acts, orders, i - 1, w);
    }
  }

  /** The first colour that has been named before. */
  lemma {:induction false} FirstRepeat(colours: seq<nat>, n: nat) returns (k: nat)
    requires n <= |colours| && !Once(colours, n)
    ensures k < n && Once(colours, k) && colours[k] != 0 && exists j :: 0 <= j < k && colours[j] == colours[k]
  {
    if Once(colours, n - 1) {
      k := n - 1;
    } else {
      k := FirstRepeat(colours, n - 1);
    }
  }

  /** Alone in the shop, a thread gets as far as its colours are new. */
  lemma {:induction false} WalksTo(s: State, w: nat, colours: seq<nat>, n: nat) returns (states: seq<State>, acts: seq<Act>)
    requires Open(s) && w in s.staff && n <= |colours| && Once(colours, n)
    ensures Run(states, acts) && states[0] == s && Fills(acts, {colours})
    ensures w in states[|acts|].staff && states[|acts|].staff[w] == Staff(Tinting(n), colours)
    ensures forall c :: c in states[|acts|].tints ==> exists j :: 0 <= j < n && colours[j] == c
  {
    if n == 0 {
      var s1 := Do(s, w, Fill(colours));
      states, acts := [s, s1, Do(s1, w, Next)], [Act(w, Fill(colours)), Act(w, Next)];
    } else {
      var states', acts' := WalksTo(s, w, colours, n - 1);
      var last := states'[|acts'|];
      assert Enabled(last, w, Next);
      states, acts := states' + [Do(last, w, Next)], acts' + [Act(w, Next)];
      assert Run(states, acts);
    }
  }

  /** An order that names a colour twice brings a thread to where it waits for itself. */
  lemma RepeatedTint(s: State, w: nat, colours: seq<nat>) returns (states: seq<State>, acts: seq<Act>)
    requires Open(s) && w in s.staff && !Once(colours, |colours|)
    ensures Run(states, acts) && states[0] == s && Fills(acts, {colours})
    ensures w in states[|acts|].staff && Repeats(states[|acts|].staff[w]) && Circular(states[|acts|])
  {
    var k := FirstRepeat(colours, |colours|);
    states, acts := WalksTo(s, w, colours, k);
    var last := states[|acts|];
    assert Has(last.staff[w], colours[k]);
    RunKeeps(states, acts, |acts|);
    CircularWaitIff(last);
  }

  /** Some run that fills cans for these orders comes to a circular wait exactly if one of the orders
      names a colour twice. */
  lemma CircularWaitOrders(s: State, orders: set<seq<nat>>)
    requires Open(s) && s.staff != map[]
    ensures (exists states: seq<State>, acts: seq<Act> ::
               Run(states, acts) && states[0] == s && Fills(acts, orders) && Circular(states[|acts|]))
            <==> exists colours :: colours in orders && !Once(colours, |colours|)
  {
    if colours :| colours in orders && !Once(colours, |colours|) {
      var w :| w in s.staff;
      var states, acts := RepeatedTint(s, w, colours);
      assert Fills(acts, orders);
    } else {
      forall states: seq<State>, acts: seq<Act> | Run(states, acts) && states[0] == s && Fills(acts, orders)
        ensures !Circular(states[|acts|]) {
        OnceNeverCircular(states, acts, orders);
      }
    }
  }

  lemma OnceNeverCircular(states: seq<State>, acts: seq<Act>, orders: set<seq<nat>>)
    requires Run(states, acts) && Open(states[0]) && Fills(acts, orders)
    requires forall colours :: colours in orders ==> Once(colours, |colours|)
    ensures !Circular(states[|acts|])
  {
    var last := states[|acts|];
    RunKeeps(states, acts, |acts|);
    forall w | w in last.staff ensures !Repeats(last.staff[w]) {
      WorksOn(states, acts, orders, |acts|, w);
    }
    CircularWaitIff(last);
  }

  /** A thread that fills an order with a colour named twice never gets out of the gate, so that can is
      never mixed. */
  lemma {:induction false} NeverMixed(states: seq<State>, acts: seq<Act>, i: nat, j: nat, w: nat)
    requires Run(states, acts) && Open(states[0]) && i <= j < |states| && w in states[i].staff
    requires states[i].staff[w].pc != Away && !Once(states[i].staff[w].colours, |states[i].staff[w].colours|)
    ensures w in states[j].staff && states[j].staff[w].colours == states[i].staff[w].colours
    ensures states[j].staff[w].pc == WantGate || states[j].staff[w].pc.Tinting?
    decreases j - i
  {
    RunKeeps(states, acts, j);
    assert StaffOk(states[j], w);
    if i < j {
      NeverMixed(states, acts, i, j - 1, w);
      assert Leads(states[j - 1], acts[j - 1], states[j]) && Look(true);
    }
  }

  // ---------------------------------------------------------------- how long a call takes

  /** The steps of its own that a thread has to go before it is away again. */
  function StepsLeft(t: Staff): int {
    match t.pc
    case Away => 0
    case WantGate => 2 * |t.colours| + 5
    case Tinting(i) => 2 * |t.colours| - i + 4
    case Tinted => |t.colours| + 3
    case Mixing => |t.colours| + 2
    case Untinting(i) => |t.colours| - i + 1
  }

  /** Its index is inside its order. */
  predicate Indexed(t: Staff) {
    match t.pc
    case Tinting(i) => i <= |t.colours|
    case Untinting(i) => i <= |t.colours|
    case _ => true
  }

  /** Each step of a thread brings it one nearer, and no other thread's does. */
  lemma OneNearer(s: State, a: Act, s': State, w: nat)
    requires Leads(s, a, s') && w in s.staff && Indexed(s.staff[w]) && (a.who == w ==> a.step == Next)
    ensures w in s'.staff && s'.staff[w].colours == s.staff[w].colours && Indexed(s'.staff[w])
    ensures StepsLeft(s'.staff[w]) == StepsLeft(s.staff[w]) - if a.who == w then 1 else 0
  {
    assert Look(true);
  }

  lemma CallBegins(s: State, a: Act, s': State)
    requires Leads(s, a, s') && a.step.Fill?
    ensures a.who in s'.staff && s'.staff[a.who] == Staff(WantGate, a.step.colours)
  {
    assert Look(true);
  }

  /** How many of the acts i to j are steps of w. */
  ghost function Steps(acts: seq<Act>, i: nat, j: nat, w: nat): nat
    requires i <= j <= |acts|
    decreases j
  {
    if i == j then 0 else Steps(acts, i, j - 1, w) + if acts[j - 1] == Act(w, Next) then 1 else 0
  }

  /** A call of fill_order takes two steps for each colour and five more, however the steps of others come in
      between. */
  lemma {:induction false} CallLength(states: seq<State>, acts: seq<Act>, i: nat, j: nat, w: nat)
    requires Run(states, acts) && i < j < |states| && acts[i].who == w && acts[i].step.Fill?
    requires forall m :: i < m < j && acts[m].who == w ==> acts[m].step == Next
    ensures w in states[j].staff && states[j].staff[w].colours == acts[i].step.colours && Indexed(states[j].staff[w])
    ensures StepsLeft(states[j].staff[w]) == 2 * |acts[i].step.colours| + 5 - Steps(acts, i + 1, j, w)
    decreases j
  {
    if j == i + 1 {
      CallBegins(states[i], acts[i], states[j]);
    } else {
      CallLength(states, acts, i, j - 1, w);
      OneNearer(states[j - 1], acts[j - 1], states[j], w);
    }
  }
}
