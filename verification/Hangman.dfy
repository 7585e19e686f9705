/** The deadlock detector (hangman.c).

An actor waits for at most one lockable and a lockable is held by at most one actor, so the
waits-for graph has at most one edge out of each actor.  `Graph` is that graph as a value;
the classes hold it in the fields the source updates. */
module Hangman {
  import opened Common

  // ---------------------------------------------------------------- the waits-for graph

  /** waits: who waits for what.  holds: what is held by whom. */
  datatype Graph<A, L> = Graph(waits: map<A, L>, holds: map<L, A>)

  /** The actor that a waits for, through the lockable between them. */
  ghost function Next<A, L>(g: Graph<A, L>, a: A): Option<A> {
    if a in g.waits && g.waits[a] in g.holds then Some(g.holds[g.waits[a]]) else None
  }

  /** The actor k steps along the wait chain from a. */
  ghost function Chain<A, L>(g: Graph<A, L>, a: A, k: nat): Option<A> {
    if k == 0 then Some(a)
    else match Chain(g, a, k - 1)
      case None => None
      case Some(b) => Next(g, b)
  }

  ghost predicate Acyclic<A, L>(g: Graph<A, L>) {
    forall a, k: nat :: a in g.waits && k > 0 ==> Chain(g, a, k) != Some(a)
  }

  /** The wait chain that starts with l's holder meets a. */
  ghost predicate Reaches<A, L>(g: Graph<A, L>, l: L, a: A) {
    l in g.holds && exists k: nat :: Chain(g, g.holds[l], k) == Some(a)
  }

  lemma {:induction false} ChainAdd<A, L>(g: Graph<A, L>, a: A, j: nat, b: A, k: nat)
    requires Chain(g, a, j) == Some(b)
    ensures Chain(g, a, j + k) == Chain(g, b, k)
  {
    if k != 0 {
      ChainAdd(g, a, j, b, k - 1);
      assert j + k - 1 == j + (k - 1);
    }
  }

  lemma {:induction false} ChainStops<A, L>(g: Graph<A, L>, a: A, j: nat, k: nat)
    requires j <= k && Chain(g, a, j) == None
    ensures Chain(g, a, k) == None
  {
    if j < k {
      ChainStops(g, a, j, k - 1);
    }
  }

  /** Two places on one chain of an acyclic graph hold different actors. */
  lemma ChainDistinct<A, L>(g: Graph<A, L>, a: A, i: nat, j: nat)
    requires Acyclic(g) && i < j && Chain(g, a, j).Some?
    ensures Chain(g, a, i).Some? && Chain(g, a, i) != Chain(g, a, j)
  {
    if Chain(g, a, i) == None {
      ChainStops(g, a, i, j);
    }
    var b := Chain(g, a, i).value;
    ChainAdd(g, a, i, b, j - i);
    ChainAdd(g, a, i, b, 1);
    if Chain(g, a, i + 1) == None {
      ChainStops(g, a, i + 1, j);
    }
    assert Next(g, b).Some?;
  }

  /** Chains of two graphs agree while the actors on them have the same next one. */
  lemma {:induction false} ChainSame<A, L>(g: Graph<A, L>, g': Graph<A, L>, a: A, k: nat)
    requires forall i: nat :: i < k ==>
               match Chain(g, a, i) case None => true case Some(b) => Next(g', b) == Next(g, b)
    ensures Chain(g', a, k) == Chain(g, a, k)
  {
    if k != 0 {
      ChainSame(g, g', a, k - 1);
      assert match Chain(g, a, k - 1) case None => true case Some(b) => Next(g', b) == Next(g, b);
    }
  }

  /** If a chain meets b, there is a first place where it does. */
  lemma {:induction false} FirstMeeting<A, L>(g: Graph<A, L>, a: A, k: nat, b: A) returns (m: nat)
    requires Chain(g, a, k) == Some(b)
    ensures m <= k && Chain(g, a, m) == Some(b)
    ensures forall i: nat :: i < m ==> Chain(g, a, i) != Some(b)
  {
    m := 0;
    while Chain(g, a, m) != Some(b)
      invariant m <= k && forall i: nat :: i < m ==> Chain(g, a, i) != Some(b)
      decreases k - m
    {
      m := m + 1;
    }
  }

  // ---------------------------------------------------------------- what the steps do to the graph

  ghost function AddWait<A, L>(g: Graph<A, L>, a: A, l: L): Graph<A, L> {
    g.(waits := g.waits[a := l])
  }

  /** The new wait closes a cycle exactly if the walk from l's holder meets a. */
  lemma WaitCloses<A, L>(g: Graph<A, L>, a: A, l: L)
    requires Acyclic(g) && a !in g.waits
    ensures Acyclic(AddWait(g, a, l)) <==> !Reaches(g, l, a)
  {
    var g' := AddWait(g, a, l);
    if Reaches(g, l, a) {
      var k: nat :| Chain(g, g.holds[l], k) == Some(a);
      WaitMakesCycle(g, a, l, k);
    } else {
      forall b, k: nat | b in g'.waits && k > 0 ensures Chain(g', b, k) != Some(b) {
        if Chain(g', b, k) == Some(b) {
          CycleHasWait(g, a, l, b, k);
        }
      }
    }
  }

  lemma WaitMakesCycle<A, L>(g: Graph<A, L>, a: A, l: L, k: nat)
    requires a !in g.waits && l in g.holds && Chain(g, g.holds[l], k) == Some(a)
    ensures !Acyclic(AddWait(g, a, l))
  {
    var g', h := AddWait(g, a, l), g.holds[l];
    forall i: nat | i < k
      ensures match Chain(g, h, i) case None => true case Some(b) => Next(g', b) == Next(g, b)
    {
      if Chain(g, h, i) == Some(a) {
        assert Chain(g, h, i + 1) == None;
        ChainStops(g, h, i + 1, k);
      }
    }
    ChainSame(g, g', h, k);
    assert Chain(g', a, 1) == Some(h) by { assert Chain(g', a, 0) == Some(a); }
    ChainAdd(g', a, 1, h, k);
    assert Chain(g', a, 1 + k) == Some(a);
  }

  lemma CycleHasWait<A, L>(g: Graph<A, L>, a: A, l: L, b: A, k: nat)
    requires Acyclic(g) && a !in g.waits && k > 0 && Chain(AddWait(g, a, l), b, k) == Some(b)
    ensures Reaches(g, l, a)
  {
    var g' := AddWait(g, a, l);
    if i: nat :| i < k && Chain(g', b, i) == Some(a) {
      ChainAdd(g', b, k, b, i);
      ChainAdd(g', b, i, a, k);
      assert Chain(g', a, k) == Some(a);
      assert Chain(g', a, 1) == Next(g', a) by { assert Chain(g', a, 0) == Some(a); }
      if Next(g', a) == None {
        ChainStops(g', a, 1, k);
      }
      var h := g.holds[l];
      ChainAdd(g', a, 1, h, k - 1);
      var m := FirstMeeting(g', h, k - 1, a);
      ChainSame(g', g, h, m);
    } else {
      ChainSame(g', g, b, k);
      ChainDefined(g', b, 1, k);
    }
  }

  ghost function Acquired<A, L>(g: Graph<A, L>, a: A, l: L): Graph<A, L> {
    Graph(g.waits - {a}, g.holds[l := a])
  }

  /** The new holder is not waiting, so no chain goes on through the lockable it got. */
  lemma AcquireKeeps<A, L>(g: Graph<A, L>, a: A, l: L)
    requires Acyclic(g) && l !in g.holds
    ensures Acyclic(Acquired(g, a, l))
  {
    var g' := Acquired(g, a, l);
    forall b, k: nat | b in g'.waits && k > 0 ensures Chain(g', b, k) != Some(b) {
      if Chain(g', b, k) == Some(b) {
        forall i: nat | i < k
          ensures match Chain(g', b, i) case None => true case Some(c) => Next(g, c) == Next(g', c)
        {
          ChainDefined(g', b, i, k);
          ChainDefined(g', b, i + 1, k);
          if Chain(g', b, i + 1) == Some(a) {
            assert Next(g', a) == None;
            if i + 1 < k {
              ChainDefined(g', b, i + 2, k);
            }
          }
        }
        ChainSame(g', g, b, k);
      }
    }
  }

  lemma ChainDefined<A, L>(g: Graph<A, L>, a: A, i: nat, k: nat)
    requires i <= k && Chain(g, a, k).Some?
    ensures Chain(g, a, i).Some?
  {
    if Chain(g, a, i) == None {
      ChainStops(g, a, i, k);
    }
  }

  ghost function Released<A, L>(g: Graph<A, L>, l: L): Graph<A, L> {
    g.(holds := g.holds - {l})
  }

  lemma ReleaseKeeps<A, L>(g: Graph<A, L>, l: L)
    requires Acyclic(g)
    ensures Acyclic(Released(g, l))
  {
    var g' := Released(g, l);
    forall b, k: nat | b in g'.waits && k > 0 ensures Chain(g', b, k) != Some(b) {
      if Chain(g', b, k) == Some(b) {
        forall i: nat | i < k
          ensures match Chain(g', b, i) case None => true case Some(c) => Next(g, c) == Next(g', c)
        {
          ChainDefined(g', b, i + 1, k);
        }
        ChainSame(g', g, b, k);
      }
    }
  }

  ghost predicate OnChain<A, L>(g: Graph<A, L>, a: A, n: nat, b: A) {
    exists i: nat :: i < n && Chain(g, a, i) == Some(b)
  }

  /** A chain in an acyclic graph cannot be longer than there are actors waiting. */
  lemma {:induction false} ChainBound<A, L>(g: Graph<A, L>, a: A, n: nat) returns (seen: set<A>)
    requires Acyclic(g) && Chain(g, a, n).Some?
    ensures |seen| == n && seen <= g.waits.Keys
    ensures forall b :: b in seen ==> OnChain(g, a, n, b)
    ensures forall i: nat :: i < n ==> Chain(g, a, i).Some? && Chain(g, a, i).value in seen
  {
    if n == 0 {
      seen := {};
    } else {
      ChainDefined(g, a, n - 1, n);
      var s := ChainBound(g, a, n - 1);
      var b := Chain(g, a, n - 1).value;
      if b in s {
        assert OnChain(g, a, n - 1, b);
        var i: nat :| i < n - 1 && Chain(g, a, i) == Some(b);
        ChainDistinct(g, a, i, n - 1);
      }
      seen := s + {b};
      forall c | c in seen ensures OnChain(g, a, n, c) {
        if c == b {
          assert Chain(g, a, n - 1) == Some(c);
        } else {
          assert OnChain(g, a, n - 1, c);
        }
      }
    }
  }

  /** Every wait chain ends: at an actor that is not waiting, or that waits for a free lockable. */
  lemma ChainEnds<A, L>(g: Graph<A, L>, a: A) returns (n: nat, last: A)
    requires Acyclic(g)
    ensures n <= |g.waits.Keys| && Chain(g, a, n) == Some(last)
    ensures last !in g.waits || g.waits[last] !in g.holds
  {
    n, last := 0, a;
    while Next(g, last).Some?
      invariant Chain(g, a, n) == Some(last) && n <= |g.waits.Keys|
      decreases |g.waits.Keys| - n
    {
      var next := Next(g, last).value;
      assert Chain(g, a, n + 1) == Some(next);
      var seen := ChainBound(g, a, n + 1);
      SubsetSize(seen, g.waits.Keys);
      n, last := n + 1, next;
    }
  }

  lemma {:induction false} SubsetSize<T>(s: set<T>, t: set<T>)
    requires s <= t
    ensures |s| <= |t|
  {
    if s != {} {
      var x :| x in s;
      SubsetSize(s - {x}, t - {x});
    }
  }

  // ---------------------------------------------------------------- runs

  datatype Event<A, L> = Wait(actor: A, lock: L) | Acquire(actor: A, lock: L) | Release(actor: A, lock: L)

  datatype Panic = AlreadyWaiting | Deadlock | NotWaitingFor | StillHeld | WaitingForSomething | NotTheHolder

  /** The outcome of one call: the new graph, or the reason for the panic. */
  datatype Outcome<A, L> = Ok(graph: Graph<A, L>) | Panicked(why: Panic)

  /** One call, on the graph.  `own` is the lockable of the detector's own spinlock. */
  ghost function Step<A, L>(g: Graph<A, L>, own: L, e: Event<A, L>): Outcome<A, L> {
    if e.lock == own then Ok(g)
    else match e
      case Wait(a, l) =>
        if a in g.waits then Panicked(AlreadyWaiting)
        else if Reaches(g, l, a) then Panicked(Deadlock)
        else Ok(AddWait(g, a, l))
      case Acquire(a, l) =>
        if a !in g.waits || g.waits[a] != l then Panicked(NotWaitingFor)
        else if l in g.holds then Panicked(StillHeld)
        else Ok(Acquired(g, a, l))
      case Release(a, l) =>
        if a in g.waits then Panicked(WaitingForSomething)
        else if l !in g.holds || g.holds[l] != a then Panicked(NotTheHolder)
        else Ok(Released(g, l))
  }

  ghost function Run<A, L>(own: L, es: seq<Event<A, L>>): Outcome<A, L> {
    if es == [] then Ok(Graph(map[], map[]))
    else match Run(own, es[..|es| - 1])
      case Ok(g) => Step(g, own, es[|es| - 1])
      case Panicked(why) => Panicked(why)
  }

  /** Every panic-free run ends in an acyclic graph. */
  lemma {:induction false} RunsStayAcyclic<A, L>(own: L, es: seq<Event<A, L>>)
    ensures Run(own, es).Ok? ==> Acyclic(Run(own, es).graph)
  {
    var start: Graph<A, L> := Graph(map[], map[]);
    assert Acyclic(start);
    if es != [] {
      RunsStayAcyclic(own, es[..|es| - 1]);
      match Run(own, es[..|es| - 1])
      case Ok(g) => StepKeeps(g, own, es[|es| - 1]);
      case Panicked(_) =>
    }
  }

  lemma StepKeeps<A, L>(g: Graph<A, L>, own: L, e: Event<A, L>)
    requires Acyclic(g)
    ensures Step(g, own, e).Ok? ==> Acyclic(Step(g, own, e).graph)
    ensures Step(g, own, e) == Panicked(Deadlock) <==>
            e.Wait? && e.lock != own && e.actor !in g.waits && !Acyclic(AddWait(g, e.actor, e.lock))
  {
    match e
    case Wait(a, l) =>
      if a !in g.waits {
        WaitCloses(g, a, l);
      }
    case Acquire(a, l) =>
      if l !in g.holds {
        AcquireKeeps(g, a, l);
      }
    case Release(a, l) => ReleaseKeeps(g, l);
  }

  // ---------------------------------------------------------------- the graph, read off the calls made

  /** Nobody has acquired or released l behind place i. */
  ghost predicate LetBe<A, L>(es: seq<Event<A, L>>, i: nat, l: L) {
    forall j :: i < j < |es| && es[j].lock == l ==> es[j].Wait?
  }

  /** The last to acquire or release l was a, acquiring it. */
  ghost predicate Holding<A, L>(own: L, es: seq<Event<A, L>>, a: A, l: L) {
    l != own && exists i: nat :: i < |es| && es[i] == Acquire(a, l) && LetBe(es, i, l)
  }

  /** Actor a has not waited for or acquired anything behind place i. */
  ghost predicate Sat<A, L>(own: L, es: seq<Event<A, L>>, i: nat, a: A) {
    forall j :: i < j < |es| && es[j].actor == a && es[j].lock != own ==> es[j].Release?
  }

  /** The last that a waited for or acquired was l, waiting for it. */
  ghost predicate Waiting<A, L>(own: L, es: seq<Event<A, L>>, a: A, l: L) {
    l != own && exists i: nat :: i < |es| && es[i] == Wait(a, l) && Sat(own, es, i, a)
  }

  lemma HoldingMore<A, L>(own: L, es: seq<Event<A, L>>, e: Event<A, L>, a: A, l: L)
    ensures Holding(own, es + [e], a, l) <==>
            if l != own && e.lock == l && !e.Wait? then e == Acquire(a, l) else Holding(own, es, a, l)
  {
    var es' := es + [e];
    if l != own {
      if e == Acquire(a, l) {
        assert es'[|es|] == e && LetBe(es', |es|, l);
      }
      if i: nat :| i < |es| && es[i] == Acquire(a, l) && LetBe(es, i, l) && (e.lock != l || e.Wait?) {
        assert es'[i] == Acquire(a, l) && LetBe(es', i, l);
      }
      if i: nat :| i < |es'| && es'[i] == Acquire(a, l) && LetBe(es', i, l) {
        assert i < |es| ==> es'[|es|] == e && forall j :: i < j < |es| ==> es'[j] == es[j];
        assert i < |es| ==> es[i] == Acquire(a, l) && LetBe(es, i, l);
      }
    }
  }

  lemma WaitingMore<A, L>(own: L, es: seq<Event<A, L>>, e: Event<A, L>, a: A, l: L)
    ensures Waiting(own, es + [e], a, l) <==>
            if l != own && e.actor == a && e.lock != own && !e.Release? then e == Wait(a, l) else Waiting(own, es, a, l)
  {
    var es' := es + [e];
    if l != own {
      if e == Wait(a, l) {
        assert es'[|es|] == e && Sat(own, es', |es|, a);
      }
      if i: nat :| i < |es| && es[i] == Wait(a, l) && Sat(own, es, i, a) && (e.actor != a || e.lock == own || e.Release?) {
        assert es'[i] == Wait(a, l) && Sat(own, es', i, a);
      }
      if i: nat :| i < |es'| && es'[i] == Wait(a, l) && Sat(own, es', i, a) {
        assert i < |es| ==> es'[|es|] == e && forall j :: i < j < |es| ==> es'[j] == es[j];
        assert i < |es| ==> es[i] == Wait(a, l) && Sat(own, es, i, a);
      }
    }
  }

  /** After every panic-free run the graph is what the calls say: who holds what and who waits for what. */
  lemma {:induction false} HistoryTells<A, L>(own: L, es: seq<Event<A, L>>, a: A, l: L)
    requires Run(own, es).Ok?
    ensures var g := Run(own, es).graph;
            && (l in g.holds && g.holds[l] == a <==> Holding(own, es, a, l))
            && (a in g.waits && g.waits[a] == l <==> Waiting(own, es, a, l))
    decreases |es|
  {
    if es != [] {
      var front, e := es[..|es| - 1], es[|es| - 1];
      assert es == front + [e];
      HistoryTells(own, front, a, l);
      HoldingMore(own, front, e, a, l);
      WaitingMore(own, front, e, a, l);
    }
  }

  /** A chain of actors from the holder of l to a, each waiting for a lockable the next one holds. */
  ghost predicate WaitPath<A, L>(own: L, es: seq<Event<A, L>>, l: L, a: A, actors: seq<A>, locks: seq<L>) {
    && |actors| == |locks| + 1 && Holding(own, es, actors[0], l) && actors[|locks|] == a
    && forall i :: 0 <= i < |locks| ==> Waiting(own, es, actors[i], locks[i]) && Holding(own, es, actors[i + 1], locks[i])
  }

  lemma {:induction false} ChainIsPath<A, L>(own: L, es: seq<Event<A, L>>, l: L, a: A, k: nat)
    returns (actors: seq<A>, locks: seq<L>)
    requires Run(own, es).Ok? && l in Run(own, es).graph.holds
    requires Chain(Run(own, es).graph, Run(own, es).graph.holds[l], k) == Some(a)
    ensures WaitPath(own, es, l, a, actors, locks)
    decreases k
  {
    var g := Run(own, es).graph;
    if k == 0 {
      actors, locks := [a], [];
      HistoryTells(own, es, a, l);
    } else {
      var b := Chain(g, g.holds[l], k - 1).value;
      actors, locks := ChainIsPath(own, es, l, b, k - 1);
      HistoryTells(own, es, b, g.waits[b]);
      HistoryTells(own, es, a, g.waits[b]);
      actors, locks := actors + [a], locks + [g.waits[b]];
    }
  }

  lemma {:induction false} PathIsChain<A, L>(own: L, es: seq<Event<A, L>>, l: L, a: A, actors: seq<A>, locks: seq<L>)
    requires Run(own, es).Ok? && WaitPath(own, es, l, a, actors, locks)
    ensures var g := Run(own, es).graph; l in g.holds && Chain(g, g.holds[l], |locks|) == Some(a)
    decreases |locks|
  {
    if locks == [] {
      HistoryTells(own, es, a, l);
    } else {
      var k := |locks| - 1;
      PathIsChain(own, es, l, actors[k], actors[..k + 1], locks[..k]);
      HistoryTells(own, es, actors[k], locks[k]);
      HistoryTells(own, es, a, locks[k]);
    }
  }

  /** What a call does after a panic-free run, told by the calls before it.  Calls for the detector's own
      lockable do nothing.  A wait panics if its actor is waiting already, or if a chain of waits leads
      from the holder of the lockable to the actor; an acquire if its actor is not waiting for the
      lockable, or someone holds it; a release if its actor is waiting, or does not hold it. */
  lemma PanicsExactly<A, L>(own: L, es: seq<Event<A, L>>, e: Event<A, L>)
    requires Run(own, es).Ok?
    ensures var r, a, l := Run(own, es + [e]), e.actor, e.lock;
            if l == own then r == Run(own, es)
            else match e
              case Wait(_, _) =>
                && (r == Panicked(AlreadyWaiting) <==> exists m :: Waiting(own, es, a, m))
                && (r == Panicked(Deadlock) <==>
                      (forall m :: !Waiting(own, es, a, m)) && exists actors, locks :: WaitPath(own, es, l, a, actors, locks))
                && (r.Panicked? ==> r.why == AlreadyWaiting || r.why == Deadlock)
              case Acquire(_, _) =>
                && (r == Panicked(NotWaitingFor) <==> !Waiting(own, es, a, l))
                && (r == Panicked(StillHeld) <==> Waiting(own, es, a, l) && exists b :: Holding(own, es, b, l))
                && (r.Panicked? ==> r.why == NotWaitingFor || r.why == StillHeld)
              case Release(_, _) =>
                && (r == Panicked(WaitingForSomething) <==> exists m :: Waiting(own, es, a, m))
                && (r == Panicked(NotTheHolder) <==> (forall m :: !Waiting(own, es, a, m)) && !Holding(own, es, a, l))
                && (r.Panicked? ==> r.why == WaitingForSomething || r.why == NotTheHolder)
  {
    var g, a, l := Run(own, es).graph, e.actor, e.lock;
    assert (es + [e])[..|es|] == es;
    forall m ensures a in g.waits && g.waits[a] == m <==> Waiting(own, es, a, m) {
      HistoryTells(own, es, a, m);
    }
    assert a in g.waits ==> Waiting(own, es, a, g.waits[a]);
    forall b ensures l in g.holds && g.holds[l] == b <==> Holding(own, es, b, l) {
      HistoryTells(own, es, b, l);
    }
    assert l in g.holds ==> Holding(own, es, g.holds[l], l);
    if e.Wait? {
      DeadlockIsPath(own, es, a, l);
    }
  }

  lemma DeadlockIsPath<A, L>(own: L, es: seq<Event<A, L>>, a: A, l: L)
    requires Run(own, es).Ok?
    ensures Reaches(Run(own, es).graph, l, a) <==> exists actors, locks :: WaitPath(own, es, l, a, actors, locks)
  {
    var g := Run(own, es).graph;
    if Reaches(g, l, a) {
      var k: nat :| Chain(g, g.holds[l], k) == Some(a);
      var actors, locks := ChainIsPath(own, es, l, a, k);
    }
    if actors, locks :| WaitPath(own, es, l, a, actors, locks) {
      PathIsChain(own, es, l, a, actors, locks);
    }
  }

  // ---------------------------------------------------------------- the detector itself

  class Actor {
    var waiting: Lockable?

    constructor ()
      ensures waiting == null
    {
      waiting := null;
    }
  }

  class Lockable {
    var holding: Actor?

    constructor ()
      ensures holding == null
    {
      holding := null;
    }
  }

  /** The actors and lockables of the system, and the detector's own lockable. */
  class Detector {
    const own: Lockable
    ghost const actors: set<Actor>
    ghost const lockables: set<Lockable>

    constructor (own: Lockable, ghost actors: set<Actor>, ghost lockables: set<Lockable>)
      requires forall a :: a in actors ==> a.waiting == null
      requires forall l :: l in lockables ==> l.holding == null
      ensures this.own == own && this.actors == actors && this.lockables == lockables
      ensures Valid() && Abs() == Graph(map[], map[]) && Acyclic(Abs())
    {
      this.own, this.actors, this.lockables := own, actors, lockables;
    }

    ghost predicate Valid()
      reads actors, lockables
    {
      && (forall a :: a in actors && a.waiting != null ==> a.waiting in lockables)
      && (forall l :: l in lockables && l.holding != null ==> l.holding in actors)
    }

    /** The fields, as a graph. */
    ghost function Abs(): Graph<Actor, Lockable>
      reads actors, lockables
    {
      Graph(map a | a in actors && a.waiting != null :: (a.waiting as Lockable),
            map l | l in lockables && l.holding != null :: (l.holding as Actor))
    }

    /** hangman_check: the walk ends because the graph is acyclic, and it finds the target exactly
        if the wait chain from the lockable's holder meets it. */
    method Check(start: Lockable, target: Actor) returns (found: bool)
      requires Valid() && Acyclic(Abs()) && start in lockables && target in actors
      ensures found <==> Reaches(Abs(), start, target)
    {
      ghost var g := Abs();
      var cur := start.holding;
      if cur == null {
        return false;
      }
      ghost var h, n: nat := cur as Actor, 0;
      while cur != null
        invariant cur != null ==> cur in actors && Chain(g, h, n) == Some(cur as Actor)
        invariant n <= |g.waits.Keys| + 1
        invariant cur == null ==> Chain(g, h, n) == None
        invariant forall i: nat :: i < n ==> Chain(g, h, i) != Some(target)
        decreases |g.waits.Keys| + 1 - n, cur != null
      {
        if cur == target {
          return true;
        }
        if cur.waiting == null {
          assert Chain(g, h, n + 1) == None;
          NotMet(g, h, n + 1, target);
          return false;
        }
        ghost var seen := ChainBound(g, h, n);
        SubsetSize(seen, g.waits.Keys);
        cur := cur.waiting.holding;
        n := n + 1;
      }
      NotMet(g, h, n, target);
      return false;
    }

    /** Held by the first, each waiting for what the next one holds, up to the target. */
    ghost predicate IsCycle(names: seq<Actor>, start: Lockable, target: Actor)
      reads start, names, set a | a in names && a.waiting != null :: a.waiting
    {
      && names != [] && names[0] == start.holding && names[|names| - 1] == target
      && forall i :: 0 <= i < |names| - 1 ==>
           names[i].waiting != null && names[i].waiting.holding == names[i + 1]
    }

    /** The report of a cycle: the actors from the lockable's holder to the target, in order. */
    method Report(start: Lockable, target: Actor) returns (names: seq<Actor>)
      requires Valid() && Acyclic(Abs()) && start in lockables && Reaches(Abs(), start, target)
      ensures IsCycle(names, start, target)
    {
      ghost var g := Abs();
      var cur := start.holding as Actor;
      ghost var k: nat :| Chain(g, cur, k) == Some(target);
      names := [];
      while cur != target
        invariant cur in actors && Chain(g, cur, k) == Some(target)
        invariant if names == [] then cur == start.holding else
                    && names[0] == start.holding
                    && names[|names| - 1].waiting != null && names[|names| - 1].waiting.holding == cur
        invariant forall i :: 0 <= i < |names| - 1 ==>
                    names[i].waiting != null && names[i].waiting.holding == names[i + 1]
        decreases k
      {
        assert k > 0;
        ChainDefined(g, cur, 1, k);
        assert Chain(g, cur, 0) == Some(cur);
        names := names + [cur];
        ghost var next := Next(g, cur).value;
        ChainAdd(g, cur, 1, next, k - 1);
        cur := cur.waiting.holding as Actor;
        k := k - 1;
      }
      names := names + [cur];
    }

    /** hangman_wait: records the wait, or panics with the graph as it was. */
    method HangmanWait(a: Actor, l: Lockable)
      returns (ghost r: Outcome<Actor, Lockable>, panicked: bool, report: seq<Actor>)
      requires Valid() && Acyclic(Abs()) && a in actors && l in lockables
      modifies a
      ensures Valid() && r == Step(old(Abs()), own, Wait(a, l))
      ensures panicked <==> r.Panicked?
      ensures Abs() == if r.Ok? then r.graph else old(Abs())
      ensures Acyclic(Abs())
      ensures r == Panicked(Deadlock) ==> IsCycle(report, l, a)
    {
      report := [];
      StepKeeps(Abs(), own, Wait(a, l));
      r := Step(Abs(), own, Wait(a, l));
      if l == own {
        return r, false, [];
      }
      if a.waiting != null {
        return r, true, [];
      }
      var found := Check(l, a);
      if found {
        report := Report(l, a);
        return r, true, report;
      }
      a.waiting := l;
      panicked := false;
    }

    /** hangman_acquire: the actor stops waiting and holds the lockable. */
    method HangmanAcquire(a: Actor, l: Lockable) returns (ghost r: Outcome<Actor, Lockable>, panicked: bool)
      requires Valid() && Acyclic(Abs()) && a in actors && l in lockables
      modifies a, l
      ensures Valid() && r == Step(old(Abs()), own, Acquire(a, l))
      ensures panicked <==> r.Panicked?
      ensures Abs() == if r.Ok? then r.graph else old(Abs())
      ensures Acyclic(Abs())
    {
      StepKeeps(Abs(), own, Acquire(a, l));
      r := Step(Abs(), own, Acquire(a, l));
      if l == own {
        return r, false;
      }
      if a.waiting != l {
        return r, true;
      }
      if l.holding != null {
        return r, true;
      }
      l.holding := a;
      a.waiting := null;
      panicked := false;
    }

    /** hangman_release: the lockable is free again. */
    method HangmanRelease(a: Actor, l: Lockable) returns (ghost r: Outcome<Actor, Lockable>, panicked: bool)
      requires Valid() && Acyclic(Abs()) && a in actors && l in lockables
      modifies l
      ensures Valid() && r == Step(old(Abs()), own, Release(a, l))
      ensures panicked <==> r.Panicked?
      ensures Abs() == if r.Ok? then r.graph else old(Abs())
      ensures Acyclic(Abs())
    {
      StepKeeps(Abs(), own, Release(a, l));
      r := Step(Abs(), own, Release(a, l));
      if l == own {
        return r, false;
      }
      if a.waiting != null {
        return r, true;
      }
      if l.holding != a {
        return r, true;
      }
      l.holding := null;
      panicked := false;
    }
  }

  lemma NotMet<A, L>(g: Graph<A, L>, h: A, n: nat, target: A)
    requires Chain(g, h, n) == None && forall i: nat :: i < n ==> Chain(g, h, i) != Some(target)
    ensures forall k: nat :: Chain(g, h, k) != Some(target)
  {
    forall k: nat ensures Chain(g, h, k) != Some(target) {
      if k >= n {
        ChainStops(g, h, n, k);
      }
    }
  }
}
