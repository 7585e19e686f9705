/** Semaphores (synch.c) over a wait channel (thread.c), for any threads and any interleaving of their
steps.  The semaphore's spinlock is explicit: it is given up while asleep and taken again after. */
module Semaphore {
  import opened Common

  /** sem_count is an unsigned word. */
  const UNSIGNED: nat := 0x1_0000_0000

  datatype Pc =
    | Outside
    | PWant                  // P, spinning on the lock
    | PTest(woken: bool)     // P, about to test the count; woken if it comes from a sleep
    | Asleep
    | Woken                  // taken off the channel, spinning on the lock
    | PDone                  // P, count taken
    | VWant
    | VIn                    // V, about to count up
    | VPosted                // V, about to wake one sleeper
    | VDone

  /** `ps` and `vs` count the calls that have come back. */
  datatype State = State(count: nat, holder: Option<nat>, channel: seq<nat>, pc: map<nat, Pc>, init: nat, ps: nat, vs: nat)

  datatype Step = CallP | CallV | Lock | Sleep | Take | Post | WakeOne | Unlock

  predicate Inside(p: Pc) {
    p.PTest? || p == PDone || p == VIn || p == VPosted || p == VDone
  }

  predicate Enabled(s: State, t: nat, step: Step) {
    t in s.pc &&
    match step
    case CallP => s.pc[t] == Outside
    case CallV => s.pc[t] == Outside
    case Lock => (s.pc[t] == PWant || s.pc[t] == VWant || s.pc[t] == Woken) && s.holder == None
    case Sleep => s.pc[t].PTest? && s.count == 0
    case Take => s.pc[t].PTest? && s.count > 0
    case Post => s.pc[t] == VIn && (s.count + 1) % UNSIGNED > 0   // else the assertion in V fails
    case WakeOne => s.pc[t] == VPosted
    case Unlock => s.pc[t] == PDone || s.pc[t] == VDone
  }

  function Do(s: State, t: nat, step: Step): State
    requires Enabled(s, t, step)
  {
    match step
    case CallP => s.(pc := s.pc[t := PWant])
    case CallV => s.(pc := s.pc[t := VWant])
    case Lock =>
      s.(holder := Some(t), pc := s.pc[t := if s.pc[t] == VWant then VIn else PTest(s.pc[t] == Woken)])
    case Sleep => s.(holder := None, channel := s.channel + [t], pc := s.pc[t := Asleep])
    case Take => s.(count := s.count - 1, pc := s.pc[t := PDone])
    case Post => s.(count := (s.count + 1) % UNSIGNED, pc := s.pc[t := VPosted])
    case WakeOne =>
      if s.channel == [] then s.(pc := s.pc[t := VDone])
      else s.(channel := s.channel[1..], pc := s.pc[s.channel[0] := Woken][t := VDone])
    case Unlock =>
      s.(holder := None, pc := s.pc[t := Outside],
         ps := s.ps + if s.pc[t] == PDone then 1 else 0, vs := s.vs + if s.pc[t] == VDone then 1 else 0)
  }

  // ---------------------------------------------------------------- what every step keeps

  /** Woken threads that have not tested the count again. */
  ghost function Rechecking(s: State): set<nat> {
    set t | t in s.pc && (s.pc[t] == Woken || s.pc[t] == PTest(true))
  }

  /** The thread that holds the lock, and nobody else, is inside. */
  ghost predicate Exclusive(s: State) {
    && (s.holder.Some? ==> s.holder.value in s.pc)
    && forall t :: t in s.pc ==> (Inside(s.pc[t]) <==> s.holder == Some(t))
  }

  /** The channel holds the sleepers, each once. */
  ghost predicate Sleepers(s: State) {
    NoDup(s.channel) && forall t :: t in s.channel <==> t in s.pc && s.pc[t] == Asleep
  }

  /** What the call in progress has done to the count. */
  ghost function Pending(s: State): int {
    if s.holder == None || s.holder.value !in s.pc then 0
    else match s.pc[s.holder.value] case PDone => -1 case VPosted => 1 case VDone => 1 case _ => 0
  }

  ghost predicate Posted(s: State) {
    s.holder.Some? && s.holder.value in s.pc && s.pc[s.holder.value] == VPosted
  }

  ghost predicate Inv(s: State) {
    && s.count < UNSIGNED && s.count == s.init + s.vs - s.ps + Pending(s)
    && Exclusive(s) && Sleepers(s)
    && (s.channel != [] ==> s.count <= |Rechecking(s)| + (if Posted(s) then 1 else 0))
  }

  lemma CountsKeep(s: State, t: nat, step: Step)
    requires Inv(s) && Enabled(s, t, step)
    ensures var s' := Do(s, t, step);
            s'.count < UNSIGNED && s'.count == s'.init + s'.vs - s'.ps + Pending(s') && Exclusive(s')
  {
    assert Inside(s.pc[t]) <==> s.holder == Some(t);
  }

  lemma SleepersKeep(s: State, t: nat, step: Step)
    requires Inv(s) && Enabled(s, t, step)
    ensures Sleepers(Do(s, t, step))
  {
    if step == WakeOne && s.channel != [] {
      assert s.channel == [s.channel[0]] + s.channel[1..];
      assert s.channel[0] in s.channel;
    }
  }

  /** Testing a positive count uses up a wakeup, if the thread was woken for one. */
  lemma TakeKeeps(s: State, t: nat)
    requires Inv(s) && Enabled(s, t, Take) && s.channel != []
    ensures Do(s, t, Take).count <= |Rechecking(Do(s, t, Take))|
  {
    assert Rechecking(Do(s, t, Take)) == Rechecking(s) - {t};
    assert s.pc[t] == PTest(true) <==> t in Rechecking(s);
    assert s.holder == Some(t);
  }

  /** Waking a sleeper makes good the count that was posted. */
  lemma WakeKeeps(s: State, t: nat)
    requires Inv(s) && Enabled(s, t, WakeOne) && s.channel != []
    ensures s.count <= |Rechecking(Do(s, t, WakeOne))|
  {
    assert s.channel[0] in s.channel;
    assert s.channel[0] !in Rechecking(s);
    assert Rechecking(Do(s, t, WakeOne)) == Rechecking(s) + {s.channel[0]};
  }

  lemma OthersKeep(s: State, t: nat, step: Step)
    requires Inv(s) && Enabled(s, t, step) && step != Take && step != WakeOne && step != Sleep
    ensures Rechecking(Do(s, t, step)) == Rechecking(s)
  {
  }

  /** No wakeup is lost. */
  lemma WakeupsKeep(s: State, t: nat, step: Step)
    requires Inv(s) && Enabled(s, t, step)
    ensures var s' := Do(s, t, step);
            s'.channel != [] ==> s'.count <= |Rechecking(s')| + (if Posted(s') then 1 else 0)
  {
    assert Inside(s.pc[t]) <==> s.holder == Some(t);
    if step == Take {
      if s.channel != [] { TakeKeeps(s, t); }
    } else if step == WakeOne {
      if s.channel != [] { WakeKeeps(s, t); }
    } else if step != Sleep {
      OthersKeep(s, t, step);
    }
  }

  lemma StepKeeps(s: State, t: nat, step: Step)
    requires Inv(s) && Enabled(s, t, step)
    ensures Inv(Do(s, t, step))
  {
    CountsKeep(s, t, step);
    SleepersKeep(s, t, step);
    WakeupsKeep(s, t, step);
  }

  // ---------------------------------------------------------------- whole runs

  datatype Act = Act(thread: nat, step: Step)

  ghost predicate Run(states: seq<State>, acts: seq<Act>) {
    && |states| == |acts| + 1
    && forall i :: 0 <= i < |acts| ==> Leads(states[i], acts[i], states[i + 1])
  }

  /** A sealed fact: the act can be done in s and leads to s'. */
  ghost predicate Leads(s: State, a: Act, s': State) {
    forall u {:trigger Look(u)} :: Look(u) ==> Enabled(s, a.thread, a.step) && s' == Do(s, a.thread, a.step)
  }

  lemma LeadsKeeps(s: State, a: Act, s': State)
    requires Inv(s) && Leads(s, a, s')
    ensures Inv(s') && s'.init == s.init
  {
    assert Look(true);
    StepKeeps(s, a.thread, a.step);
  }

  /** sem_create, and any threads, all outside. */
  ghost predicate Created(s: State) {
    && s.count == s.init < UNSIGNED && s.holder == None && s.channel == [] && s.ps == s.vs == 0
    && forall t :: t in s.pc ==> s.pc[t] == Outside
  }

  lemma {:induction false} RunKeeps(states: seq<State>, acts: seq<Act>, i: nat)
    requires Run(states, acts) && Created(states[0]) && i < |states|
    ensures Inv(states[i]) && states[i].init == states[0].init
  {
    if i > 0 {
      RunKeeps(states, acts, i - 1);
      LeadsKeeps(states[i - 1], acts[i - 1], states[i]);
    }
  }

  /** Whenever the lock is free: the count is the initial count plus the completed Vs less the completed
      Ps; and with someone asleep it is at most the number of woken threads still to test it again, so
      a thread sleeps on a positive count only while a woken one is on its way. */
  lemma RunsCount(states: seq<State>, acts: seq<Act>, i: nat)
    requires Run(states, acts) && Created(states[0]) && i < |states| && states[i].holder == None
    ensures var s := states[i];
            && s.count == states[0].init + s.vs - s.ps >= 0
            && ((exists t :: t in s.pc && s.pc[t] == Asleep) ==> s.count <= |Rechecking(s)|)
            && ((exists t :: t in s.pc && s.pc[t] == Asleep) && s.count > 0 ==> exists t :: t in s.pc && s.pc[t] == Woken)
  {
    RunKeeps(states, acts, i);
    var s := states[i];
    if t :| t in s.pc && s.pc[t] == Asleep {
      assert t in s.channel;
      if s.count > 0 {
        assert Rechecking(s) != {};
        var w :| w in Rechecking(s);
        assert !Inside(s.pc[w]);
      }
    }
  }

  /** The assertion in V fails exactly when the completed calls leave the largest unsigned count. */
  lemma Overflow(s: State, t: nat)
    requires Inv(s) && t in s.pc && s.pc[t] == VIn
    ensures !Enabled(s, t, Post) <==> s.init + s.vs - s.ps == UNSIGNED - 1
  {
    assert s.holder == Some(t);
  }

  // ---------------------------------------------------------------- calls, read off the acts

  /** The call thread t is in after n acts, by what it last did: called P, called V, or came back. */
  ghost function LastCall(acts: seq<Act>, n: nat, t: nat): Option<Step>
    requires n <= |acts|
  {
    if n == 0 then None
    else if acts[n - 1].thread == t && acts[n - 1].step in {CallP, CallV, Unlock} then Some(acts[n - 1].step)
    else LastCall(acts, n - 1, t)
  }

  /** How many calls of one kind have come back. */
  ghost function Completed(acts: seq<Act>, n: nat, kind: Step): nat
    requires n <= |acts|
  {
    if n == 0 then 0
    else
      Completed(acts, n - 1, kind)
      + if acts[n - 1].step == Unlock && LastCall(acts, n - 1, acts[n - 1].thread) == Some(kind) then 1 else 0
  }

  predicate InP(p: Pc) {
    p == PWant || p.PTest? || p == Asleep || p == Woken || p == PDone
  }

  predicate InV(p: Pc) {
    p == VWant || p == VIn || p == VPosted || p == VDone
  }

  /** A thread is in the call that it made last and has not come back from. */
  ghost predicate Tells(s: State, t: nat, last: Option<Step>) {
    t in s.pc ==>
      && (InP(s.pc[t]) <==> last == Some(CallP)) && (InV(s.pc[t]) <==> last == Some(CallV))
      && (s.pc[t] == Outside <==> last == None || last == Some(Unlock))
  }

  lemma TellsStep(s: State, a: Act, s': State, t: nat, last: Option<Step>)
    requires Inv(s) && Leads(s, a, s') && t in s.pc && Tells(s, t, last)
    ensures t in s'.pc && Tells(s', t, if a.thread == t && a.step in {CallP, CallV, Unlock} then Some(a.step) else last)
  {
    assert Look(true);
    if a.step == WakeOne && s.channel != [] {
      assert s.channel[0] in s.channel;
    }
  }

  lemma SameThreads(s: State, a: Act, s': State)
    requires Inv(s) && Leads(s, a, s')
    ensures s'.pc.Keys == s.pc.Keys && a.thread in s.pc
  {
    assert Look(true);
    if a.step == WakeOne && s.channel != [] {
      assert s.channel[0] in s.channel;
    }
  }

  lemma {:induction false} CallTells(states: seq<State>, acts: seq<Act>, i: nat, t: nat)
    requires Run(states, acts) && Created(states[0]) && i < |states| && t in states[i].pc
    ensures Tells(states[i], t, LastCall(acts, i, t))
  {
    if i > 0 {
      RunKeeps(states, acts, i - 1);
      SameThreads(states[i - 1], acts[i - 1], states[i]);
      CallTells(states, acts, i - 1, t);
      TellsStep(states[i - 1], acts[i - 1], states[i], t, LastCall(acts, i - 1, t));
    }
  }

  lemma CountsStep(s: State, a: Act, s': State)
    requires Leads(s, a, s')
    ensures a.thread in s.pc
    ensures s'.ps == s.ps + if a.step == Unlock && InP(s.pc[a.thread]) then 1 else 0
    ensures s'.vs == s.vs + if a.step == Unlock && InV(s.pc[a.thread]) then 1 else 0
  {
    assert Look(true);
  }

  /** The counters of the state count the calls that have come back, whatever the order of the acts. */
  lemma {:induction false} CompletedCalls(states: seq<State>, acts: seq<Act>, i: nat)
    requires Run(states, acts) && Created(states[0]) && i < |states|
    ensures states[i].ps == Completed(acts, i, CallP) && states[i].vs == Completed(acts, i, CallV)
  {
    if i > 0 {
      CompletedCalls(states, acts, i - 1);
      CountsStep(states[i - 1], acts[i - 1], states[i]);
      CallTells(states, acts, i - 1, acts[i - 1].thread);
    }
  }

  /** How far a thread is from the next point where it may have to wait: for the lock, asleep, or outside. */
  function StepsLeft(p: Pc): nat {
    match p
    case PTest(_) => 2
    case PDone => 1
    case VIn => 3
    case VPosted => 2
    case VDone => 1
    case _ => 0
  }

  /** No act leaves its thread where it was, and who has the lock comes nearer to giving it up with every act. */
  lemma GoesOn(s: State, t: nat, step: Step)
    requires Inv(s) && Enabled(s, t, step)
    ensures t in Do(s, t, step).pc && Do(s, t, step).pc[t] != s.pc[t]
    ensures Inside(s.pc[t]) ==> StepsLeft(Do(s, t, step).pc[t]) < StepsLeft(s.pc[t])
    ensures Inside(s.pc[t]) ==> (Do(s, t, step).holder == None <==> StepsLeft(Do(s, t, step).pc[t]) == 0)
  {
    assert Inside(s.pc[t]) <==> s.holder == Some(t);
  }

  /** A thread can go on exactly unless it is asleep, spins on the lock while that is held, or fails the
      assertion in V. */
  lemma MovesExactly(s: State, t: nat)
    requires Inv(s) && t in s.pc
    ensures (exists step :: Enabled(s, t, step)) <==>
            !(s.pc[t] == Asleep
              || ((s.pc[t] == PWant || s.pc[t] == VWant || s.pc[t] == Woken) && s.holder != None)
              || (s.pc[t] == VIn && s.count == UNSIGNED - 1))
  {
    match s.pc[t]
    case Outside => assert Enabled(s, t, CallP);
    case PWant => assert Enabled(s, t, Lock) <==> s.holder == None;
    case VWant => assert Enabled(s, t, Lock) <==> s.holder == None;
    case Woken => assert Enabled(s, t, Lock) <==> s.holder == None;
    case PTest(_) => assert Enabled(s, t, if s.count == 0 then Sleep else Take);
    case Asleep =>
    case PDone => assert Enabled(s, t, Unlock);
    case VIn => assert Enabled(s, t, Post) <==> s.count != UNSIGNED - 1;
    case VPosted => assert Enabled(s, t, WakeOne);
    case VDone => assert Enabled(s, t, Unlock);
  }

  // ---------------------------------------------------------------- first to sleep, first to wake

  /** t stands before u on the channel. */
  ghost predicate Before(s: State, t: nat, u: nat) {
    exists a, b :: 0 <= a < b < |s.channel| && s.channel[a] == t && s.channel[b] == u
  }

  lemma SleepsBehind(s: State, s': State, t: nat, u: nat)
    requires Inv(s) && Leads(s, Act(u, Sleep), s') && t in s.pc && s.pc[t] == Asleep
    ensures Before(s', t, u)
  {
    assert Look(true);
    var a :| 0 <= a < |s.channel| && s.channel[a] == t;
    assert s'.channel[a] == t && s'.channel[|s.channel|] == u;
  }

  lemma BeforeKept(s: State, act: Act, s': State, t: nat, u: nat)
    requires Inv(s) && Leads(s, act, s') && Before(s, t, u) && t in s'.pc && s'.pc[t] == Asleep
    ensures Before(s', t, u)
  {
    assert Look(true);
    var a, b :| 0 <= a < b < |s.channel| && s.channel[a] == t && s.channel[b] == u;
    if act.step == Sleep {
      assert s'.channel[a] == t && s'.channel[b] == u;
    } else if act.step == WakeOne {
      assert a != 0;
      assert s'.channel[a - 1] == t && s'.channel[b - 1] == u;
    }
  }

  /** Thread t went to sleep at act i and is asleep up to state k. */
  ghost predicate AsleepSince(states: seq<State>, acts: seq<Act>, i: nat, k: nat, t: nat) {
    && i < k < |states| && |states| == |acts| + 1 && acts[i] == Act(t, Sleep)
    && forall m :: i < m <= k ==> t in states[m].pc && states[m].pc[t] == Asleep
  }

  lemma {:induction false} StaysBefore(states: seq<State>, acts: seq<Act>, i: nat, j: nat, k: nat, t: nat, u: nat)
    requires Run(states, acts) && Created(states[0]) && i < j
    requires AsleepSince(states, acts, i, k, t) && AsleepSince(states, acts, j, k, u)
    ensures Before(states[k], t, u)
    decreases k
  {
    RunKeeps(states, acts, k - 1);
    if k == j + 1 {
      SleepsBehind(states[j], states[j + 1], t, u);
    } else {
      StaysBefore(states, acts, i, j, k - 1, t, u);
      BeforeKept(states[k - 1], acts[k - 1], states[k], t, u);
    }
  }

  /** Who went to sleep first is woken first: no act wakes a thread while another has slept for longer. */
  lemma WakesInOrder(states: seq<State>, acts: seq<Act>, i: nat, j: nat, k: nat, t: nat, u: nat)
    requires Run(states, acts) && Created(states[0]) && i < j && k < |acts|
    requires AsleepSince(states, acts, i, k, t) && AsleepSince(states, acts, j, k, u)
    ensures u in states[k + 1].pc && states[k + 1].pc[u] == Asleep
  {
    RunKeeps(states, acts, k);
    StaysBefore(states, acts, i, j, k, t, u);
    NotWoken(states[k], acts[k], states[k + 1], t, u);
  }

  lemma NotWoken(s: State, act: Act, s': State, t: nat, u: nat)
    requires Inv(s) && Leads(s, act, s') && Before(s, t, u)
    ensures u in s'.pc && s'.pc[u] == Asleep
  {
    assert Look(true);
    var a, b :| 0 <= a < b < |s.channel| && s.channel[a] == t && s.channel[b] == u;
    assert u in s.channel && s.channel[0] != u;
  }
}
