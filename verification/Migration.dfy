/** Thread migration between run queues (thread_consider_migration in thread.c).

Run queues are the sequences that thread lists stand for.  The code takes one run queue lock at
a time, so other CPUs act between its critical sections: `Move` is what they can do, and the
code is run against any schedule of such moves.  Only a queue's own CPU takes threads off it. */
module Migration {
  import opened Common

  type Thread = nat

  /** What another CPU can do to the queues between two critical sections. */
  datatype Move = PopHead(cpu: nat) | PopTail(cpu: nat) | Append(cpu: nat, thread: Thread)

  predicate Queued(queues: seq<seq<Thread>>, t: Thread) {
    exists c :: 0 <= c < |queues| && t in queues[c]
  }

  /** Every queued thread is on the queue of its own cpu and nowhere else; the victims in hand
      belong to `me`, which also keeps its current thread. */
  ghost predicate Consistent(queues: seq<seq<Thread>>, tcpu: map<Thread, nat>, victims: seq<Thread>, me: nat, cur: Thread) {
    && me < |queues|
    && (forall c :: 0 <= c < |queues| ==> NoDup(queues[c]))
    && (forall c, t :: 0 <= c < |queues| && t in queues[c] ==> t in tcpu && tcpu[t] == c)
    && NoDup(victims)
    && (forall t :: t in victims ==> t in tcpu && tcpu[t] == me && t !in queues[me])
    && cur in tcpu && tcpu[cur] == me
  }

  /** Queued or in hand. */
  ghost predicate Present(queues: seq<seq<Thread>>, victims: seq<Thread>, t: Thread) {
    t in victims || Queued(queues, t)
  }

  // ---------------------------------------------------------------- the quiet case, as a function

  /** Hand the victims out in order: each queue but `me`'s is filled up to `share`. */
  function Placed(queues: seq<seq<Thread>>, me: nat, i: nat, victims: seq<Thread>, share: nat): (seq<seq<Thread>>, seq<Thread>)
    decreases |queues| - i
  {
    if i >= |queues| then (queues, victims)
    else if i == me then Placed(queues, me, i + 1, victims, share)
    else
      var k := Room(queues[i], share, |victims|);
      Placed(queues[i := queues[i] + victims[..k]], me, i + 1, victims[k..], share)
  }

  /** How many of n victims fit on a queue. */
  function Room(q: seq<Thread>, share: nat, n: nat): (k: nat)
    ensures k <= n
  {
    if |q| >= share then 0 else if share - |q| <= n then share - |q| else n
  }

  function Total(queues: seq<seq<Thread>>, i: nat): nat
    decreases |queues| - i
  {
    if i >= |queues| then 0 else |queues[i]| + Total(queues, i + 1)
  }

  /** Free places from queue i on, `me`'s own not counted. */
  function Capacity(queues: seq<seq<Thread>>, me: nat, i: nat, share: nat): int
    decreases |queues| - i
  {
    if i >= |queues| then 0
    else (if i == me || |queues[i]| >= share then 0 else share - |queues[i]|) + Capacity(queues, me, i + 1, share)
  }

  lemma {:induction false} CapacityBound(queues: seq<seq<Thread>>, me: nat, i: nat, share: nat)
    requires i <= |queues|
    ensures Capacity(queues, me, i, share)
         >= (|queues| - i) * share - Total(queues, i)
            - (if i <= me < |queues| then share - |queues[me]| else 0)
    decreases |queues| - i
  {
    if i < |queues| {
      CapacityBound(queues, me, i + 1, share);
      assert (|queues| - i) * share == (|queues| - (i + 1)) * share + share;
    }
  }

  lemma {:induction false} CapacitySame(q: seq<seq<Thread>>, q': seq<seq<Thread>>, me: nat, i: nat, share: nat)
    requires |q| == |q'| && forall c :: i <= c < |q| && c != me ==> q[c] == q'[c]
    ensures Capacity(q, me, i, share) == Capacity(q', me, i, share)
    decreases |q| - i
  {
    if i < |q| {
      CapacitySame(q, q', me, i + 1, share);
    }
  }

  /** With room for all, none is left over; queues only grow, and only up to the share. */
  lemma {:induction false} PlacedFits(queues: seq<seq<Thread>>, me: nat, i: nat, victims: seq<Thread>, share: nat)
    requires |victims| <= Capacity(queues, me, i, share)
    ensures Placed(queues, me, i, victims, share).1 == []
    decreases |queues| - i
  {
    if i < |queues| {
      if i == me {
        PlacedFits(queues, me, i + 1, victims, share);
      } else {
        var k := Room(queues[i], share, |victims|);
        var q' := queues[i := queues[i] + victims[..k]];
        CapacitySame(queues, q', me, i + 1, share);
        CapacityNonneg(queues, me, i + 1, share);
        PlacedFits(q', me, i + 1, victims[k..], share);
      }
    }
  }

  lemma {:induction false} CapacityNonneg(queues: seq<seq<Thread>>, me: nat, i: nat, share: nat)
    ensures Capacity(queues, me, i, share) >= 0
    decreases |queues| - i
  {
    if i < |queues| {
      CapacityNonneg(queues, me, i + 1, share);
    }
  }

  /** Queue c keeps what it had in front; if it grew, it was below the share and stays within it. */
  lemma {:induction false} PlacedGrows(queues: seq<seq<Thread>>, me: nat, i: nat, victims: seq<Thread>, share: nat, c: nat)
    requires c < |queues|
    ensures var q' := Placed(queues, me, i, victims, share).0;
            && |q'| == |queues| && queues[c] <= q'[c]
            && (c < i || c == me ==> q'[c] == queues[c])
            && (|q'[c]| > |queues[c]| ==> |q'[c]| <= share)
    decreases |queues| - i
  {
    if i < |queues| {
      if i == me {
        PlacedGrows(queues, me, i + 1, victims, share, c);
      } else {
        var k := Room(queues[i], share, |victims|);
        PlacedGrows(queues[i := queues[i] + victims[..k]], me, i + 1, victims[k..], share, c);
      }
    }
  }

  /** DIVROUNDUP */
  function DivRoundUp(a: nat, b: nat): nat
    requires b > 0
  {
    (a + b - 1) / b
  }

  lemma CeilingBounds(a: nat, b: nat)
    requires b > 0
    ensures var r := DivRoundUp(a, b); r * b >= a && (r == 0 || (r - 1) * b < a)
  {
    var r := DivRoundUp(a, b);
    assert a + b - 1 == r * b + (a + b - 1) % b;
    assert (r - 1) * b == r * b - b;
  }

  /** A CPU with at least its share can hand all the rest to the others. */
  lemma RoomForAll(queues: seq<seq<Thread>>, me: nat, share: nat)
    requires me < |queues| && share == DivRoundUp(Total(queues, 0), |queues|) && |queues[me]| >= share
    ensures |queues[me]| - share <= Capacity(queues, me, 0, share)
  {
    CapacityBound(queues, me, 0, share);
    CeilingBounds(Total(queues, 0), |queues|);
    assert |queues| * share >= Total(queues, 0);
  }

  // ---------------------------------------------------------------- other CPUs

  /** One move of another CPU, if it is one it can make: it takes threads off its own queue only,
      adds only threads that are nowhere, and makes `cur` runnable only on its own cpu. */
  function Legal(queues: seq<seq<Thread>>, victims: seq<Thread>, me: nat, cur: Thread, m: Move): bool {
    m.cpu < |queues| &&
    match m
      case PopHead(c) => c != me && queues[c] != []
      case PopTail(c) => c != me && queues[c] != []
      case Append(c, t) => !Queued(queues, t) && t !in victims && (t == cur ==> c == me)
  }

  function Act(queues: seq<seq<Thread>>, m: Move): seq<seq<Thread>>
    requires m.cpu < |queues| && (m.Append? || queues[m.cpu] != [])
  {
    var q := queues[m.cpu];
    match m
      case PopHead(c) => queues[c := q[1..]]
      case PopTail(c) => queues[c := q[..|q| - 1]]
      case Append(c, t) => queues[c := q + [t]]
  }

  function ActCpu(tcpu: map<Thread, nat>, m: Move): map<Thread, nat> {
    if m.Append? then tcpu[m.thread := m.cpu] else tcpu
  }

  lemma ActKeeps(queues: seq<seq<Thread>>, tcpu: map<Thread, nat>, victims: seq<Thread>, me: nat, cur: Thread, m: Move)
    requires Consistent(queues, tcpu, victims, me, cur) && Legal(queues, victims, me, cur, m)
    ensures Consistent(Act(queues, m), ActCpu(tcpu, m), victims, me, cur)
    ensures queues[me] <= Act(queues, m)[me]
  {
    var q, q' := queues, Act(queues, m);
    var c := m.cpu;
    assert forall t :: t in q'[c] ==> t in q[c] || (m.Append? && t == m.thread);
    if m.Append? {
      assert m.thread !in q[c];
    }
  }

  /** Threads a move adds and takes away. */
  ghost function Added(m: Move): set<Thread> {
    if m.Append? then {m.thread} else {}
  }

  ghost function Taken(queues: seq<seq<Thread>>, m: Move): set<Thread>
    requires m.cpu < |queues| && (m.Append? || queues[m.cpu] != [])
  {
    var q := queues[m.cpu];
    match m
      case PopHead(_) => {q[0]}
      case PopTail(_) => {q[|q| - 1]}
      case Append(_, _) => {}
  }

  lemma ActPresence(queues: seq<seq<Thread>>, victims: seq<Thread>, me: nat, cur: Thread, m: Move, t: Thread)
    requires Legal(queues, victims, me, cur, m)
    ensures Present(Act(queues, m), victims, t) ==> Present(queues, victims, t) || t in Added(m)
    ensures Present(queues, victims, t) ==> Present(Act(queues, m), victims, t) || t in Taken(queues, m)
  {
    var q, q', c := queues, Act(queues, m), m.cpu;
    if Queued(q', t) {
      var d :| 0 <= d < |q'| && t in q'[d];
      assert t in q[d] || t in Added(m);
    }
    if Queued(q, t) {
      var d :| 0 <= d < |q| && t in q[d];
      assert t in q'[d] || t in Taken(q, m);
    }
  }

  // ---------------------------------------------------------------- what a run is made of

  /** The queues, who belongs where, and the victims in hand. */
  datatype Snap = Snap(queues: seq<seq<Thread>>, tcpu: map<Thread, nat>, victims: seq<Thread>)

  /** What this CPU does, one thread at a time, and what others do. */
  datatype Event =
    | Read(from: nat)   // the length of a queue is added up
    | TakeTail          // our last thread becomes the first victim
    | Send(to: nat)     // the first victim goes to another queue
    | Shuffle           // the first victim is the current thread, and goes behind the others
    | Back              // the first victim goes back on our queue
    | Other(move: Move)

  /** An event that cannot happen changes nothing. */
  function Apply(s: Snap, me: nat, cur: Thread, e: Event): Snap
    requires me < |s.queues|
  {
    var q := s.queues[me];
    match e
      case Read(_) => s
      case TakeTail =>
        if q == [] then s else s.(queues := s.queues[me := q[..|q| - 1]], victims := [q[|q| - 1]] + s.victims)
      case Send(c) =>
        if s.victims == [] || s.victims[0] == cur || c >= |s.queues| || c == me then s
        else Snap(s.queues[c := s.queues[c] + [s.victims[0]]], s.tcpu[s.victims[0] := c], s.victims[1..])
      case Shuffle => if s.victims == [] || s.victims[0] != cur then s else s.(victims := s.victims[1..] + [cur])
      case Back => if s.victims == [] then s else s.(queues := s.queues[me := q + [s.victims[0]]], victims := s.victims[1..])
      case Other(m) =>
        if Legal(s.queues, s.victims, me, cur, m) then Snap(Act(s.queues, m), ActCpu(s.tcpu, m), s.victims) else s
  }

  ghost function Replay(s: Snap, me: nat, cur: Thread, log: seq<Event>): (r: Snap)
    requires me < |s.queues|
    ensures |r.queues| == |s.queues|
  {
    if log == [] then s else Apply(Replay(s, me, cur, log[..|log| - 1]), me, cur, log[|log| - 1])
  }

  ghost function MoveOf(e: Event): seq<Move> {
    match e
      case Other(m) => [m]
      case _ => []
  }

  /** The moves of others in it. */
  ghost function Moves(log: seq<Event>): seq<Move> {
    if log == [] then []
    else Moves(log[..|log| - 1]) + MoveOf(log[|log| - 1])
  }

  /** What a run comes to: how often the current thread was met among the victims, the length of the longest
      queue right after a thread was sent to it, the lengths read added up, and which they were. */
  datatype Tally = Tally(met: nat, peak: nat, counted: nat, order: seq<nat>)

  const NOTHING := Tally(0, 0, 0, [])

  function Tick(t: Tally, s: Snap, e: Event): Tally {
    match e
      case Read(c) => if c < |s.queues| then t.(counted := t.counted + |s.queues[c]|, order := t.order + [c]) else t
      case Send(c) => if c < |s.queues| && |s.queues[c]| >= t.peak then t.(peak := |s.queues[c]| + 1) else t
      case Shuffle => t.(met := t.met + 1)
      case _ => t
  }

  ghost function Tallied(s: Snap, me: nat, cur: Thread, log: seq<Event>): Tally
    requires me < |s.queues|
  {
    if log == [] then NOTHING
    else Tick(Tallied(s, me, cur, log[..|log| - 1]), Replay(s, me, cur, log[..|log| - 1]), log[|log| - 1])
  }

  /** A thread is sent only to a queue that is below the peak at that moment. */
  lemma {:induction false} SentBelow(s: Snap, me: nat, cur: Thread, log: seq<Event>, i: nat, c: nat)
    requires me < |s.queues| && i < |log| && log[i] == Send(c) && c < |s.queues|
    ensures |Replay(s, me, cur, log[..i]).queues[c]| < Tallied(s, me, cur, log).peak
    decreases |log|
  {
    var front := log[..|log| - 1];
    if i < |front| {
      SentBelow(s, me, cur, front, i, c);
      assert front[..i] == log[..i];
    }
  }

  /** Threads that others made runnable. */
  ghost function Arrived(moves: seq<Move>): set<Thread> {
    set i | 0 <= i < |moves| && moves[i].Append? :: moves[i].thread
  }

  /** Threads that other CPUs took off their own queues. */
  ghost function Departed(s: Snap, me: nat, cur: Thread, log: seq<Event>): set<Thread>
    requires me < |s.queues|
  {
    if log == [] then {}
    else
      var before, e := Replay(s, me, cur, log[..|log| - 1]), log[|log| - 1];
      Departed(s, me, cur, log[..|log| - 1])
      + if e.Other? && Legal(before.queues, before.victims, me, cur, e.move) then Taken(before.queues, e.move) else {}
  }

  lemma Extend(s: Snap, me: nat, cur: Thread, log: seq<Event>, e: Event)
    requires me < |s.queues|
    ensures Replay(s, me, cur, log + [e]) == Apply(Replay(s, me, cur, log), me, cur, e)
    ensures Moves(log + [e]) == Moves(log) + MoveOf(e)
    ensures Tallied(s, me, cur, log + [e]) == Tick(Tallied(s, me, cur, log), Replay(s, me, cur, log), e)
  {
    assert (log + [e])[..|log|] == log;
  }

  /** From `start`, with every thread in one place and none in hand, the log leads to s; `moves` are the
      moves of others in it, and `tally` is what it comes to. */
  ghost predicate Ran(start: Snap, me: nat, cur: Thread, log: seq<Event>, moves: seq<Move>, tally: Tally, s: Snap) {
    forall u {:trigger Look(u)} :: Look(u) ==>
      && me < |start.queues| && start.victims == [] && Sane(start, me, cur)
      && s == Replay(start, me, cur, log) && moves == Moves(log) && tally == Tallied(start, me, cur, log)
  }

  lemma RanOn(start: Snap, me: nat, cur: Thread, log: seq<Event>, moves: seq<Move>, tally: Tally, s: Snap, e: Event)
    requires Ran(start, me, cur, log, moves, tally, s) && me < |s.queues|
    ensures Ran(start, me, cur, log + [e], moves + MoveOf(e), Tick(tally, s, e), Apply(s, me, cur, e))
  {
    assert Look(true);
    Extend(start, me, cur, log, e);
  }

  lemma RanSane(start: Snap, me: nat, cur: Thread, log: seq<Event>, moves: seq<Move>, tally: Tally, s: Snap)
    requires Ran(start, me, cur, log, moves, tally, s)
    ensures Sane(s, me, cur) && |s.queues| == |start.queues|
  {
    assert Look(true);
    ReplayKeeps(start, me, cur, log);
  }

  ghost predicate Sane(s: Snap, me: nat, cur: Thread) {
    Consistent(s.queues, s.tcpu, s.victims, me, cur)
  }

  ghost predicate Here(s: Snap, t: Thread) {
    Present(s.queues, s.victims, t)
  }

  /** Every event keeps each thread in one place, and the current thread on its cpu. */
  lemma ApplyKeeps(s: Snap, me: nat, cur: Thread, e: Event)
    requires Sane(s, me, cur)
    ensures Sane(Apply(s, me, cur, e), me, cur)
  {
    match e
    case Read(_) =>
    case TakeTail => if s.queues[me] != [] { TakeOneKeeps(s.queues, s.tcpu, s.victims, me, cur); }
    case Send(c) =>
      if s.victims != [] && s.victims[0] != cur && c < |s.queues| && c != me {
        SendKeeps(s.queues, s.tcpu, s.victims, me, cur, c);
      }
    case Shuffle => if s.victims != [] && s.victims[0] == cur { ShuffleKeeps(s.victims, cur); }
    case Back => if s.victims != [] { BackOneKeeps(s.queues, s.tcpu, s.victims, me, cur); }
    case Other(m) =>
      if Legal(s.queues, s.victims, me, cur, m) { ActKeeps(s.queues, s.tcpu, s.victims, me, cur, m); }
  }

  /** Only moves of other CPUs make a thread appear or disappear. */
  lemma ApplyPresence(s: Snap, me: nat, cur: Thread, e: Event, t: Thread)
    requires Sane(s, me, cur)
    ensures Here(Apply(s, me, cur, e), t) && !Here(s, t) ==> e.Other? && e.move.Append? && e.move.thread == t
    ensures Here(s, t) && !Here(Apply(s, me, cur, e), t) ==>
              e.Other? && Legal(s.queues, s.victims, me, cur, e.move) && t in Taken(s.queues, e.move)
  {
    match e
    case Read(_) =>
    case TakeTail => if s.queues[me] != [] { TakeOneKeeps(s.queues, s.tcpu, s.victims, me, cur); }
    case Send(c) =>
      if s.victims != [] && s.victims[0] != cur && c < |s.queues| && c != me {
        SendKeeps(s.queues, s.tcpu, s.victims, me, cur, c);
      }
    case Shuffle => if s.victims != [] && s.victims[0] == cur { ShuffleKeeps(s.victims, cur); }
    case Back => if s.victims != [] { BackOneKeeps(s.queues, s.tcpu, s.victims, me, cur); }
    case Other(m) =>
      if Legal(s.queues, s.victims, me, cur, m) { ActPresence(s.queues, s.victims, me, cur, m, t); }
  }

  lemma {:induction false} ReplayKeeps(s: Snap, me: nat, cur: Thread, log: seq<Event>)
    requires Sane(s, me, cur)
    ensures Sane(Replay(s, me, cur, log), me, cur)
  {
    if log != [] {
      ReplayKeeps(s, me, cur, log[..|log| - 1]);
      ApplyKeeps(Replay(s, me, cur, log[..|log| - 1]), me, cur, log[|log| - 1]);
    }
  }

  /** Over any run, a thread that is gone was taken off its own queue by another CPU, and a thread that
      is new was made runnable by another CPU. */
  lemma {:induction false} ReplayPresence(s: Snap, me: nat, cur: Thread, log: seq<Event>, t: Thread)
    requires Sane(s, me, cur)
    ensures Here(s, t) && !Here(Replay(s, me, cur, log), t) ==> t in Departed(s, me, cur, log)
    ensures !Here(s, t) && Here(Replay(s, me, cur, log), t) ==> t in Arrived(Moves(log))
  {
    if log != [] {
      var front, e := log[..|log| - 1], log[|log| - 1];
      ReplayPresence(s, me, cur, front, t);
      ReplayKeeps(s, me, cur, front);
      ApplyPresence(Replay(s, me, cur, front), me, cur, e, t);
      ArrivedGrows(Moves(front), Moves(log));
      if e.Other? {
        assert Moves(log)[|Moves(front)|] == e.move;
      }
    }
  }

  lemma ArrivedGrows(a: seq<Move>, b: seq<Move>)
    requires a <= b
    ensures Arrived(a) <= Arrived(b)
  {
    forall t | t in Arrived(a) ensures t in Arrived(b) {
      var i :| 0 <= i < |a| && a[i].Append? && a[i].thread == t;
      assert b[i] == a[i];
    }
  }

  /** A thread counted as departed was at the end of the queue of some other CPU when that CPU popped it,
      at a point of the run. */
  lemma {:induction false} DepartedHow(s: Snap, me: nat, cur: Thread, log: seq<Event>, t: Thread) returns (i: nat)
    requires me < |s.queues| && t in Departed(s, me, cur, log)
    ensures i < |log| && log[i].Other? && !log[i].move.Append? && log[i].move.cpu != me
    ensures var q := Replay(s, me, cur, log[..i]).queues;
            log[i].move.cpu < |q| && q[log[i].move.cpu] != [] && t in Taken(q, log[i].move)
  {
    var front, e := log[..|log| - 1], log[|log| - 1];
    if t in Departed(s, me, cur, front) {
      i := DepartedHow(s, me, cur, front, t);
      assert front[..i] == log[..i];
    } else {
      i := |log| - 1;
    }
  }

  ghost predicate NoPops(moves: seq<Move>) {
    forall i :: 0 <= i < |moves| ==> moves[i].Append?
  }

  /** Without pops among the moves, nothing departs. */
  lemma {:induction false} NoPopsNoDeparture(s: Snap, me: nat, cur: Thread, log: seq<Event>)
    requires me < |s.queues| && NoPops(Moves(log))
    ensures Departed(s, me, cur, log) == {}
  {
    if log != [] {
      var front := log[..|log| - 1];
      assert forall i :: 0 <= i < |Moves(front)| ==> Moves(log)[i] == Moves(front)[i];
      NoPopsNoDeparture(s, me, cur, front);
      if log[|log| - 1].Other? {
        assert Moves(log)[|Moves(front)|] == log[|log| - 1].move;
      }
    }
  }

  /** A run from `start` to s in which every thread stays in one place, the current thread on its cpu and
      met at most once, no thread is lost but by a pop of another CPU, and none is new but by an append. */
  ghost predicate Migrated(start: Snap, me: nat, cur: Thread, log: seq<Event>, s: Snap) {
    && me < |start.queues| && s == Replay(start, me, cur, log) && Sane(s, me, cur) && Tallied(start, me, cur, log).met <= 1
    && (forall t :: Queued(s.queues, t) ==> Queued(start.queues, t) || t in Arrived(Moves(log)))
    && (forall t :: Queued(start.queues, t) ==> Queued(s.queues, t) || t in Departed(start, me, cur, log))
    && (NoPops(Moves(log)) ==> forall t :: Queued(start.queues, t) ==> Queued(s.queues, t))
  }

  lemma RunConserves(start: Snap, me: nat, cur: Thread, log: seq<Event>)
    requires me < |start.queues| && start.victims == [] && Sane(start, me, cur) && Tallied(start, me, cur, log).met <= 1
    requires Replay(start, me, cur, log).victims == []
    ensures Migrated(start, me, cur, log, Replay(start, me, cur, log))
  {
    var s := Replay(start, me, cur, log);
    ReplayKeeps(start, me, cur, log);
    if NoPops(Moves(log)) {
      NoPopsNoDeparture(start, me, cur, log);
    }
    forall t ensures Queued(s.queues, t) ==> Queued(start.queues, t) || t in Arrived(Moves(log))
             ensures Queued(start.queues, t) ==> Queued(s.queues, t) || t in Departed(start, me, cur, log) {
      ReplayPresence(start, me, cur, log, t);
      assert (Here(start, t) <==> Queued(start.queues, t)) && (Here(s, t) <==> Queued(s.queues, t));
    }
  }

  /** What the schedule holds from its i-th entry up to its j-th. */
  function Scheduled(env: seq<seq<Move>>, i: nat, j: nat): seq<Move>
    requires i <= j
  {
    if i == j then [] else Scheduled(env, i, j - 1) + if j - 1 < |env| then env[j - 1] else []
  }

  ghost predicate Follows(env: seq<seq<Move>>, i: nat, j: nat, moves: seq<Move>) {
    forall u {:trigger Look(u)} :: Look(u) ==> i <= j && moves == Scheduled(env, i, j)
  }

  lemma FollowsOn(env: seq<seq<Move>>, i: nat, j: nat, moves: seq<Move>)
    requires Follows(env, i, j, moves)
    ensures Follows(env, i, j + 1, moves + if j < |env| then env[j] else [])
  {
    assert Look(true);
  }

  lemma TakeOneMore(q: seq<Thread>, vs: seq<Thread>, k: nat)
    requires k < |vs|
    ensures q + vs[..k] + [vs[k..][0]] == q + vs[..k + 1]
  {
  }

  ghost function UpTo(n: nat): seq<nat> {
    if n == 0 then [] else UpTo(n - 1) + [n - 1]
  }

  /** Threads were sent only to queues below the share. */
  ghost predicate KeepsShare(t: Tally, t': Tally, share: nat) {
    t'.counted == t.counted && t'.order == t.order && t'.peak <= if t.peak < share then share else t.peak
  }

  /** Every queue was read once, in order, and no thread was sent to a queue that had its share of what was read. */
  ghost predicate WithinShare(t: Tally, n: nat) {
    forall u {:trigger Look(u)} :: Look(u) ==> n > 0 && t.order == UpTo(n) && t.peak <= DivRoundUp(t.counted, n)
  }

  lemma ShareKept(total: nat, n: nat, share: nat, t: Tally)
    requires n > 0 && share == DivRoundUp(total, n) && KeepsShare(Tally(0, 0, total, UpTo(n)), t, share)
    ensures WithinShare(t, n)
  {
  }

  /** The run queues, under a schedule: `env[k]` is what other CPUs do before the k-th time this
      CPU gets a run queue lock.  `log` is the run since `start`, which began at lock number `begun`. */
  class RunQueues {
    var queues: seq<seq<Thread>>
    var tcpu: map<Thread, nat>
    const me: nat
    const cur: Thread
    const env: seq<seq<Move>>
    var locks: nat
    ghost var start: Snap
    ghost var begun: nat
    ghost var log: seq<Event>
    ghost var moves: seq<Move>
    ghost var tally: Tally

    constructor (queues: seq<seq<Thread>>, tcpu: map<Thread, nat>, me: nat, cur: Thread, env: seq<seq<Move>>)
      requires Consistent(queues, tcpu, [], me, cur)
      ensures this.queues == queues && this.tcpu == tcpu && this.me == me && this.cur == cur && this.env == env
      ensures locks == 0
    {
      this.queues, this.tcpu, this.me, this.cur, this.env := queues, tcpu, me, cur, env;
      locks, begun, log, moves, tally, start := 0, 0, [], [], NOTHING, Snap(queues, tcpu, []);
    }

    /** The state is what the log makes of the start. */
    ghost predicate Logged(victims: seq<Thread>)
      reads this
    {
      me < |queues| && true == Ran(start, me, cur, log, moves, tally, Snap(queues, tcpu, victims))
    }

    /** And the moves of others in it are those of the schedule, all of them and in order. */
    ghost predicate Inv(victims: seq<Thread>)
      reads this
    {
      Logged(victims) && true == Follows(env, begun, locks, moves)
    }

    ghost predicate Quiet() {
      forall k :: 0 <= k < |env| ==> env[k] == []
    }

    lemma StillSane(victims: seq<Thread>)
      requires Logged(victims)
      ensures Consistent(queues, tcpu, victims, me, cur)
    {
      RanSane(start, me, cur, log, moves, tally, Snap(queues, tcpu, victims));
    }

    /** One more event on the log. */
    ghost method Log(e: Event, was: Snap)
      requires me < |was.queues| && Ran(start, me, cur, log, moves, tally, was)
      modifies `log, `moves, `tally
      ensures Ran(start, me, cur, log, moves, tally, Apply(was, me, cur, e))
      ensures moves == old(moves) + MoveOf(e) && tally == Tick(old(tally), was, e)
    {
      RanOn(start, me, cur, log, moves, tally, was, e);
      log, moves, tally := log + [e], moves + MoveOf(e), Tick(tally, was, e);
    }

    /** Taking a run queue lock: first whatever the others did. */
    method Lock(victims: seq<Thread>)
      requires Inv(victims)
      modifies `queues, `tcpu, `locks, `log, `moves, `tally
      ensures Inv(victims) && |queues| == old(|queues|) && old(queues[me]) <= queues[me] && tally == old(tally)
      ensures Quiet() ==> queues == old(queues) && tcpu == old(tcpu)
    {
      var others := if locks < |env| then env[locks] else [];
      var i := 0;
      while i < |others|
        invariant 0 <= i <= |others| && locks == old(locks)
        invariant Logged(victims) && |queues| == old(|queues|) && old(queues[me]) <= queues[me]
        invariant moves == old(moves) + others[..i] && tally == old(tally)
        invariant others == [] ==> queues == old(queues) && tcpu == old(tcpu)
      {
        OtherMove(others[i], victims);
        assert others[..i] + [others[i]] == others[..i + 1];
        i := i + 1;
      }
      assert others[..|others|] == others;
      FollowsOn(env, begun, locks, old(moves));
      locks := locks + 1;
    }

    method OtherMove(m: Move, victims: seq<Thread>)
      requires Logged(victims)
      modifies `queues, `tcpu, `log, `moves, `tally
      ensures Logged(victims) && |queues| == old(|queues|) && old(queues[me]) <= queues[me]
      ensures moves == old(moves) + [m] && tally == old(tally)
    {
      StillSane(victims);
      Log(Event.Other(m), Snap(queues, tcpu, victims));
      if Legal(queues, victims, me, cur, m) {
        ActKeeps(queues, tcpu, victims, me, cur, m);
        tcpu := ActCpu(tcpu, m);
        queues := Act(queues, m);
      }
    }

    /** The first loop: lengths read one lock at a time. */
    method Count() returns (mine: nat, total: nat)
      requires Inv([]) && tally == NOTHING
      modifies `queues, `tcpu, `locks, `log, `moves, `tally
      ensures Inv([]) && |queues| == old(|queues|) && mine <= |queues[me]|
      ensures tally == Tally(0, 0, total, UpTo(|queues|))
      ensures Quiet() ==> queues == old(queues) && tcpu == old(tcpu)
      ensures Quiet() ==> mine == |queues[me]| && total == Total(queues, 0)
    {
      mine, total := 0, 0;
      var i := 0;
      while i < |queues|
        invariant 0 <= i <= |queues| == old(|queues|) && Inv([]) && mine <= |queues[me]|
        invariant tally == Tally(0, 0, total, UpTo(i))
        invariant Quiet() ==> queues == old(queues) && tcpu == old(tcpu)
        invariant Quiet() ==> (me < i ==> mine == |queues[me]|) && total + Total(queues, i) == Total(queues, 0)
        decreases old(|queues|) - i
      {
        Lock([]);
        Log(Read(i), Snap(queues, tcpu, []));
        total := total + |queues[i]|;
        if i == me {
          mine := |queues[i]|;
        }
        i := i + 1;
      }
    }

    /** The second loop: take the surplus off the tail of our own queue, in order. */
    method TakeVictims(toSend: nat) returns (victims: seq<Thread>)
      requires Inv([]) && toSend <= |queues[me]|
      modifies `queues, `tcpu, `locks, `log, `moves, `tally
      ensures Inv(victims) && |queues| == old(|queues|) && |victims| == toSend && tally == old(tally)
      ensures Quiet() ==> tcpu == old(tcpu)
      ensures Quiet() ==> var keep := |old(queues)[me]| - toSend;
                queues == old(queues)[me := old(queues)[me][..keep]] && victims == old(queues)[me][keep..]
    {
      victims := [];
      Lock(victims);
      ghost var q0 := queues;
      assert q0[me][..|q0[me]|] == q0[me];
      var i := 0;
      while i < toSend
        invariant 0 <= i <= toSend && |victims| == i && Inv(victims) && tally == old(tally)
        invariant me < |q0| && toSend <= |q0[me]|
        invariant queues == q0[me := q0[me][..|q0[me]| - i]] && victims == q0[me][|q0[me]| - i..]
        invariant Quiet() ==> q0 == old(queues) && tcpu == old(tcpu)
      {
        assert q0[me][..|q0[me]| - i][..|q0[me]| - (i + 1)] == q0[me][..|q0[me]| - (i + 1)];
        victims := TakeOne(victims);
        i := i + 1;
      }
    }

    method TakeOne(victims: seq<Thread>) returns (more: seq<Thread>)
      requires Inv(victims) && queues[me] != []
      modifies `queues, `log, `moves, `tally
      ensures Inv(more) && tally == old(tally)
      ensures var q := old(queues)[me];
              queues == old(queues)[me := q[..|q| - 1]] && more == [q[|q| - 1]] + victims
    {
      Log(TakeTail, Snap(queues, tcpu, victims));
      var q := queues[me];
      queues := queues[me := q[..|q| - 1]];
      more := [q[|q| - 1]] + victims;
    }

    /** The third loop on one queue, its lock held: fill it up to the share. */
    method Fill(c: nat, share: nat, victims0: seq<Thread>, toSend0: nat, shuffled0: bool)
      returns (victims: seq<Thread>, toSend: nat, shuffled: bool)
      requires Inv(victims0) && c < |queues| && c != me && toSend0 > 0
      requires InHand(victims0, toSend0, shuffled0)
      modifies `queues, `tcpu, `locks, `log, `moves, `tally
      ensures Inv(victims) && |queues| == old(|queues|) && InHand(victims, toSend, shuffled) && KeepsShare(old(tally), tally, share)
      ensures Quiet() && cur !in victims0 && !shuffled0 ==>
                && !shuffled
                && var k := Room(old(queues)[c], share, |victims0|);
                queues == old(queues)[c := old(queues)[c] + victims0[..k]] && victims == victims0[k..]
    {
      victims, toSend, shuffled := victims0, toSend0, shuffled0;
      Lock(victims);
      ghost var q0, k := queues, 0;
      assert q0[c] + victims0[..0] == q0[c];
      while |queues[c]| < share && toSend > 0
        invariant Inv(victims) && InHand(victims, toSend, shuffled)
        invariant c < |queues| == |q0| == old(|queues|) && KeepsShare(old(tally), tally, share)
        invariant Quiet() && cur !in victims0 && !shuffled0 ==>
                    && q0 == old(queues) && !shuffled
                    && 0 <= k <= |victims0| && victims == victims0[k..] && (k == 0 || |q0[c]| + k <= share)
                    && queues == q0[c := q0[c] + victims0[..k]]
        decreases toSend
      {
        if k < |victims0| && victims == victims0[k..] {
          TakeOneMore(q0[c], victims0, k);
        }
        victims, shuffled := FillTurn(c, share, victims, toSend, shuffled);
        toSend := toSend - 1;
        k := k + 1;
      }
    }

    /** One turn of that loop: the current thread goes behind the others, any other thread is sent. */
    method FillTurn(c: nat, ghost share: nat, victims: seq<Thread>, ghost toSend: nat, shuffled: bool)
      returns (rest: seq<Thread>, shuffled': bool)
      requires Inv(victims) && c < |queues| && c != me && |queues[c]| < share
      requires toSend > 0 && InHand(victims, toSend, shuffled)
      modifies `queues, `tcpu, `log, `moves, `tally
      ensures Inv(rest) && InHand(rest, toSend - 1, shuffled') && KeepsShare(old(tally), tally, share)
      ensures if victims[0] == cur then queues == old(queues) && shuffled'
              else queues == old(queues)[c := old(queues)[c] + [victims[0]]] && rest == victims[1..] && shuffled' == shuffled
    {
      if victims[0] == cur {
        NotTwice(victims, toSend, shuffled);
        rest := ShuffleOne(victims);
        shuffled' := true;
      } else {
        rest := SendOne(c, victims);
        shuffled' := shuffled;
      }
    }

    method SendOne(c: nat, victims: seq<Thread>) returns (rest: seq<Thread>)
      requires Inv(victims) && victims != [] && victims[0] != cur && c < |queues| && c != me
      modifies `queues, `tcpu, `log, `moves, `tally
      ensures Inv(rest) && rest == victims[1..] && tally == Tick(old(tally), Snap(old(queues), old(tcpu), victims), Send(c))
      ensures queues == old(queues)[c := old(queues)[c] + [victims[0]]]
    {
      Log(Send(c), Snap(queues, tcpu, victims));
      var t := victims[0];
      rest := victims[1..];
      tcpu := tcpu[t := c];
      queues := queues[c := queues[c] + [t]];
    }

    method ShuffleOne(victims: seq<Thread>) returns (rest: seq<Thread>)
      requires Inv(victims) && victims != [] && victims[0] == cur
      modifies `log, `moves, `tally
      ensures Inv(rest) && rest == victims[1..] + [cur] && tally == old(tally).(met := old(tally).met + 1)
    {
      Log(Shuffle, Snap(queues, tcpu, victims));
      rest := victims[1..] + [victims[0]];
    }

    method BackOne(victims: seq<Thread>) returns (rest: seq<Thread>)
      requires Inv(victims) && victims != []
      modifies `queues, `log, `moves, `tally
      ensures Inv(rest) && rest == victims[1..] && tally == old(tally)
      ensures queues == old(queues)[me := old(queues)[me] + [victims[0]]]
    {
      Log(Back, Snap(queues, tcpu, victims));
      queues := queues[me := queues[me] + [victims[0]]];
      rest := victims[1..];
    }

    /** Behind the threads still to send there is at most one, so the current thread is not met again. */
    lemma NotTwice(victims: seq<Thread>, toSend: nat, shuffled: bool)
      requires Logged(victims) && InHand(victims, toSend, shuffled) && toSend > 0 && victims[0] == cur
      ensures !shuffled
    {
      StillSane(victims);
    }

    /** The leftovers go back on our own queue. */
    method GiveBack(victims: seq<Thread>) returns (ghost q0: seq<seq<Thread>>)
      requires Inv(victims)
      modifies `queues, `tcpu, `locks, `log, `moves, `tally
      ensures Inv([]) && |queues| == old(|queues|) && tally == old(tally)
      ensures |q0| == |queues| && old(queues)[me] <= q0[me] && queues == q0[me := q0[me] + victims]
    {
      Lock(victims);
      q0 := queues;
      var rest := victims;
      ghost var k := 0;
      assert q0[me] + victims[..0] == q0[me];
      while rest != []
        invariant Inv(rest) && me < |q0| && tally == old(tally)
        invariant 0 <= k <= |victims| && rest == victims[k..] && queues == q0[me := q0[me] + victims[..k]]
        decreases |rest|
      {
        TakeOneMore(q0[me], victims, k);
        k := k + 1;
        rest := BackOne(rest);
      }
      assert victims[..k] == victims;
    }

    /** The third loop, over all queues but our own. */
    method Distribute(victims0: seq<Thread>, toSend0: nat, share: nat) returns (victims: seq<Thread>)
      requires Inv(victims0) && |victims0| == toSend0 && tally.met == 0
      modifies `queues, `tcpu, `locks, `log, `moves, `tally
      ensures Inv(victims) && |queues| == old(|queues|) && tally.met <= 1 && KeepsShare(old(tally), tally, share)
      ensures Quiet() && cur !in victims0 ==> (queues, victims) == Placed(old(queues), me, 0, victims0, share)
    {
      var toSend, shuffled := toSend0, false;
      victims := victims0;
      var i := 0;
      while i < |queues| && toSend > 0
        invariant 0 <= i <= |queues| == old(|queues|) && Inv(victims) && InHand(victims, toSend, shuffled)
        invariant KeepsShare(old(tally), tally, share)
        invariant Quiet() && cur !in victims0 ==>
                    && cur !in victims && !shuffled
                    && Placed(queues, me, i, victims, share) == Placed(old(queues), me, 0, victims0, share)
        decreases old(|queues|) - i
      {
        if i != me {
          victims, toSend, shuffled := Fill(i, share, victims, toSend, shuffled);
        }
        i := i + 1;
      }
      if Quiet() && cur !in victims0 {
        NothingToPlace(queues, me, i, victims, share);
      }
    }

    /** thread_consider_migration.  Under any schedule the run is the schedule's moves, all of them and
        in order, with events that only move threads about: so no list is popped when empty, a thread
        is gone only if another CPU popped it and new only if another CPU made it runnable, and the
        current thread is met at most once and stays on its cpu.  If nothing else happens meanwhile and
        the current thread is not queued, the result is `Balanced` exactly and the leftover branch is
        not taken.  The share is that of the lengths read, and no thread is sent to a queue that has it. */
    method ConsiderMigration() returns (leftover: bool)
      requires Consistent(queues, tcpu, [], me, cur)
      modifies this
      ensures start == Snap(old(queues), old(tcpu), []) && Migrated(start, me, cur, log, Snap(queues, tcpu, []))
      ensures old(locks) <= locks && Moves(log) == Scheduled(env, old(locks), locks)
      ensures |queues| == old(|queues|) && WithinShare(Tallied(start, me, cur, log), |queues|)
      ensures Quiet() && !Queued(old(queues), cur) ==> !leftover && queues == Balanced(old(queues), me)
    {
      Begin();
      leftover := Migrate();
      Finish();
    }

    ghost method Begin()
      requires Consistent(queues, tcpu, [], me, cur)
      modifies `start, `begun, `log, `moves, `tally
      ensures Inv([]) && start == Snap(queues, tcpu, []) && begun == locks && tally == NOTHING
    {
      start, begun, log, moves, tally := Snap(queues, tcpu, []), locks, [], [], NOTHING;
    }

    lemma Finish()
      requires Inv([]) && tally.met <= 1
      ensures Migrated(start, me, cur, log, Snap(queues, tcpu, []))
      ensures begun <= locks && Moves(log) == Scheduled(env, begun, locks) && tally == Tallied(start, me, cur, log)
    {
      assert Look(true);
      RunConserves(start, me, cur, log);
    }

    method Migrate() returns (leftover: bool)
      requires Inv([]) && tally == NOTHING
      modifies `queues, `tcpu, `locks, `log, `moves, `tally
      ensures Inv([]) && tally.met <= 1 && |queues| == old(|queues|) && WithinShare(tally, |queues|)
      ensures Quiet() && !Queued(old(queues), cur) ==> !leftover && queues == Balanced(old(queues), me)
    {
      leftover := false;
      var mine, total := Count();
      var share := DivRoundUp(total, |queues|);
      if mine < share {
        ShareKept(total, |queues|, share, tally);
        return;
      }
      var toSend := mine - share;
      var victims := TakeVictims(toSend);
      if Quiet() && !Queued(old(queues), cur) {
        BalancedPlaced(old(queues), me);
      }
      victims := Distribute(victims, toSend, share);
      ShareKept(total, |queues|, share, tally);
      if victims != [] {
        leftover := true;
        var _ := GiveBack(victims);
      }
    }

    /** What is in hand: the threads still to send, and behind them the current thread if it was met. */
    ghost predicate InHand(victims: seq<Thread>, toSend: nat, shuffled: bool)
      reads this
    {
      && |victims| == toSend + (if shuffled then 1 else 0) && tally.met == (if shuffled then 1 else 0)
      && (shuffled ==> victims[|victims| - 1] == cur)
    }
  }

  /** Placing nothing changes nothing, and past the last queue nothing is placed. */
  lemma {:induction false} NothingToPlace(queues: seq<seq<Thread>>, me: nat, i: nat, victims: seq<Thread>, share: nat)
    requires victims == [] || i >= |queues|
    ensures Placed(queues, me, i, victims, share) == (queues, victims)
    decreases |queues| - i
  {
    if i < |queues| {
      if i == me {
        NothingToPlace(queues, me, i + 1, victims, share);
      } else {
        assert queues[i] + victims[..0] == queues[i];
        assert queues[i := queues[i]] == queues && victims[0..] == victims;
        NothingToPlace(queues, me, i + 1, victims, share);
      }
    }
  }

  /** The quiet result: a CPU with its share or more keeps exactly its share and hands out the rest. */
  function Balanced(queues: seq<seq<Thread>>, me: nat): seq<seq<Thread>>
    requires me < |queues|
  {
    var share := DivRoundUp(Total(queues, 0), |queues|);
    if |queues[me]| < share then queues
    else Placed(queues[me := queues[me][..share]], me, 0, queues[me][share..], share).0
  }

  /** Nothing is left over by it. */
  lemma BalancedPlaced(queues: seq<seq<Thread>>, me: nat)
    requires me < |queues| && |queues[me]| >= DivRoundUp(Total(queues, 0), |queues|)
    ensures var share := DivRoundUp(Total(queues, 0), |queues|);
            Placed(queues[me := queues[me][..share]], me, 0, queues[me][share..], share) == (Balanced(queues, me), [])
  {
    var share := DivRoundUp(Total(queues, 0), |queues|);
    var q1, v1 := queues[me := queues[me][..share]], queues[me][share..];
    RoomForAll(queues, me, share);
    CapacitySame(queues, q1, me, 0, share);
    PlacedFits(q1, me, 0, v1, share);
  }

  /** What balancing achieves: the caller keeps its first `share` threads in order, every other
      queue keeps its own in front, only queues below the share grow and none grows past it, and
      the number of threads is the same. */
  lemma BalancedShares(queues: seq<seq<Thread>>, me: nat)
    requires me < |queues|
    ensures var share, q' := DivRoundUp(Total(queues, 0), |queues|), Balanced(queues, me);
            && |q'| == |queues|
            && (if |queues[me]| >= share then q'[me] == queues[me][..share] else q' == queues)
            && (forall c :: 0 <= c < |queues| && c != me ==>
                  queues[c] <= q'[c] && (q'[c] != queues[c] ==> |queues[c]| < |q'[c]| <= share))
            && Total(q', 0) == Total(queues, 0)
  {
    var share := DivRoundUp(Total(queues, 0), |queues|);
    if |queues[me]| >= share {
      var q1, v1 := queues[me := queues[me][..share]], queues[me][share..];
      forall c | 0 <= c < |queues|
        ensures var q' := Placed(q1, me, 0, v1, share).0;
                |q'| == |q1| && q1[c] <= q'[c] && (c == me ==> q'[c] == q1[c]) && (|q'[c]| > |q1[c]| ==> |q'[c]| <= share)
      {
        PlacedGrows(q1, me, 0, v1, share, c);
      }
      BalancedPlaced(queues, me);
      PlacedTotal(q1, me, 0, v1, share);
      TotalUpdate(queues, 0, me, queues[me][..share]);
    }
  }

  lemma {:induction false} TotalUpdate(queues: seq<seq<Thread>>, i: nat, c: nat, q: seq<Thread>)
    requires c < |queues|
    ensures Total(queues[c := q], i) == Total(queues, i) + (if i <= c then |q| - |queues[c]| else 0)
    decreases |queues| - i
  {
    if i < |queues| {
      TotalUpdate(queues, i + 1, c, q);
    }
  }

  lemma {:induction false} PlacedTotal(queues: seq<seq<Thread>>, me: nat, i: nat, victims: seq<Thread>, share: nat)
    ensures var (q', rest) := Placed(queues, me, i, victims, share);
            Total(q', 0) + |rest| == Total(queues, 0) + |victims|
    decreases |queues| - i
  {
    if i < |queues| {
      if i == me {
        PlacedTotal(queues, me, i + 1, victims, share);
      } else {
        var k := Room(queues[i], share, |victims|);
        TotalUpdate(queues, 0, i, queues[i] + victims[..k]);
        PlacedTotal(queues[i := queues[i] + victims[..k]], me, i + 1, victims[k..], share);
      }
    }
  }

  lemma BackOneKeeps(queues: seq<seq<Thread>>, tcpu: map<Thread, nat>, victims: seq<Thread>, me: nat, cur: Thread)
    requires Consistent(queues, tcpu, victims, me, cur) && victims != []
    ensures var q', v' := queues[me := queues[me] + [victims[0]]], victims[1..];
            && Consistent(q', tcpu, v', me, cur)
            && forall t :: Present(q', v', t) <==> Present(queues, victims, t)
  {
    var t0 := victims[0];
    var q', v' := queues[me := queues[me] + [t0]], victims[1..];
    assert victims == [t0] + v' && t0 in victims;
    forall u ensures Present(q', v', u) <==> Present(queues, victims, u) {
      if Queued(queues, u) {
        var d :| 0 <= d < |queues| && u in queues[d];
        assert u in q'[d];
      }
      if Queued(q', u) {
        var d :| 0 <= d < |q'| && u in q'[d];
        assert u in queues[d] || u == t0;
      }
      if u == t0 {
        assert u in q'[me];
      }
    }
  }

  lemma TakeOneKeeps(queues: seq<seq<Thread>>, tcpu: map<Thread, nat>, victims: seq<Thread>, me: nat, cur: Thread)
    requires Consistent(queues, tcpu, victims, me, cur) && queues[me] != []
    ensures var q := queues[me];
            var q', v' := queues[me := q[..|q| - 1]], [q[|q| - 1]] + victims;
            && Consistent(q', tcpu, v', me, cur)
            && forall t :: Present(q', v', t) <==> Present(queues, victims, t)
  {
    var q := queues[me];
    var q', v' := queues[me := q[..|q| - 1]], [q[|q| - 1]] + victims;
    assert q == q[..|q| - 1] + [q[|q| - 1]];
    assert q[|q| - 1] in queues[me];
    forall t ensures Present(q', v', t) <==> Present(queues, victims, t) {
      if Queued(queues, t) {
        var d :| 0 <= d < |queues| && t in queues[d];
        assert t in q'[d] || t in v';
      }
      if Queued(q', t) {
        var d :| 0 <= d < |q'| && t in q'[d];
        assert t in queues[d];
      }
      if t in v' && t !in victims {
        assert t in queues[me];
      }
    }
  }

  lemma ShuffleKeeps(victims: seq<Thread>, cur: Thread)
    requires victims != [] && victims[0] == cur && NoDup(victims)
    ensures NoDup(victims[1..] + [cur])
    ensures forall t :: t in victims[1..] + [cur] <==> t in victims
  {
    assert victims == [cur] + victims[1..];
  }

  lemma SendKeeps(queues: seq<seq<Thread>>, tcpu: map<Thread, nat>, victims: seq<Thread>, me: nat, cur: Thread, c: nat)
    requires Consistent(queues, tcpu, victims, me, cur) && victims != [] && victims[0] != cur
    requires c < |queues| && c != me
    ensures var t := victims[0];
            var q', v' := queues[c := queues[c] + [t]], victims[1..];
            && Consistent(q', tcpu[t := c], v', me, cur)
            && forall u :: Present(q', v', u) <==> Present(queues, victims, u)
  {
    var t := victims[0];
    var q', v' := queues[c := queues[c] + [t]], victims[1..];
    assert victims == [t] + v';
    assert t in victims && t !in queues[c];
    forall u ensures Present(q', v', u) <==> Present(queues, victims, u) {
      if Queued(queues, u) {
        var d :| 0 <= d < |queues| && u in queues[d];
        assert u in q'[d];
      }
      if Queued(q', u) {
        var d :| 0 <= d < |q'| && u in q'[d];
        assert u in queues[d] || u == t;
      }
      if u == t {
        assert u in q'[c];
      }
    }
  }
}
