/** Context switch (thread.c) over any number of processors and threads, with spinlocks (spinlock.c)
and interrupt levels (spl.c), as a machine of atomic steps.

Each step is taken by one processor.  A run queue or wait channel is the set of threads whose place
says so; which of them comes first is left open, so every queue order is covered. */
module Switching {
  import opened Common
  import opened Spl

  datatype Lock = RunQueue(cpu: nat) | Other(id: nat)

  /** newstate of thread_switch; a sleeper names its wait channel and the lock it holds. */
  datatype Reason = Ready | Sleep(wc: nat, lk: nat) | Zombie

  /** Where a thread is in thread_switch or thread_startup. */
  datatype Pc =
    | Running
    | Entered(why: Reason)   // interrupts off, spinning on the run-queue lock
    | Locked(why: Reason)    // has the run-queue lock
    | Picking                // on its list; looking for the next thread
    | Idling                 // in cpu_idle, or in an interrupt handler called from there
    | Waking                 // spinning on the run-queue lock again
    | Switched               // in switchframe_switch: away, or just back
    | Fresh                  // not run yet
    | Leaving                // run-queue lock released, splx still to come
    | Starting               // the same in thread_startup, spl0 still to come

  /** The list a thread is on; Hand means it is between lists, in the hands of some processor. */
  datatype Place = NoList | OnRunQueue | OnChannel(wc: nat) | Hand | Dead

  datatype Thread = Thread(cpu: nat, high: bool, count: int, saved: bool, pc: Pc, at: Place)

  /** `want` is the lock a processor is spinning on. */
  datatype Cpu = Cpu(cur: nat, irq: bool, spinlocks: int, want: Option<Lock>)

  datatype State = State(threads: map<nat, Thread>, cpus: map<nat, Cpu>, holder: map<Lock, nat>)

  // ---------------------------------------------------------------- steps

  datatype Step =
    | SetSpl(high: bool)            // splx, splhigh, spl0
    | Begin(l: Lock)                // spinlock_acquire up to the spin
    | Get                           // the test-and-set that succeeds
    | Drop(l: Lock)                 // spinlock_release
    | Enter(why: Reason)            // thread_switch up to the spin on the run-queue lock
    | TurnBack                      // yield with nothing to run
    | Put                           // the switch statement
    | Idle                          // empty queue: release and cpu_idle
    | Unidle
    | SwitchTo(next: nat)
    | Return                        // release the run-queue lock after the switch
    | Restore                       // splx(spl), or spl0 in thread_startup
    | Create(t: nat)                // thread_fork
    | TakeFromChannel(t: nat)       // wchan_wakeone/wakeall
    | TakeFromQueue(t: nat)         // thread_consider_migration
    | Retarget(t: nat, to: nat)
    | MakeRunnable(t: nat)

  function Cur(s: State, c: nat): Thread
    requires c in s.cpus && s.cpus[c].cur in s.threads
  {
    s.threads[s.cpus[c].cur]
  }

  ghost function Held(holder: map<Lock, nat>, c: nat): set<Lock> {
    set l | l in holder && holder[l] == c
  }

  ghost predicate IsCurrent(s: State, t: nat)
    requires t in s.threads
  {
    s.threads[t].cpu in s.cpus && s.cpus[s.threads[t].cpu].cur == t
  }

  /** Where other kernel code runs: ordinary code, interrupt handlers, the end of a switch. */
  predicate InKernel(pc: Pc) {
    pc == Running || pc == Idling || pc == Leaving || pc == Starting
  }

  ghost predicate Empty(s: State, c: nat) {
    forall u :: u in s.threads ==> !(s.threads[u].cpu == c && s.threads[u].at == OnRunQueue)
  }

  ghost predicate Holds(s: State, c: nat, l: Lock) {
    l in s.holder && s.holder[l] == c
  }

  /** What the code demands at each step; a failed assertion or panic is a step that is not enabled.  That
      thread_yield and thread_exit are called with no spinlock held is not asserted by the code but
      left to their callers; `LeftWithTwo` says what depends on it. */
  ghost predicate Enabled(s: State, c: nat, step: Step) {
    c in s.cpus && s.cpus[c].cur in s.threads &&
    var k, t := s.cpus[c], Cur(s, c);
    var free := k.want.None?;
    match step
    case SetSpl(_) => t.pc == Running && free
    case Begin(l) => InKernel(t.pc) && free && !Holds(s, c, l)
    case Get => k.want.Some? && k.want.value !in s.holder
    case Drop(l) => InKernel(t.pc) && free && Holds(s, c, l)
    case Enter(why) => t.pc == Running && free && Held(s.holder, c) == SleepLock(why)
    case TurnBack => t.pc == Locked(Ready) && Empty(s, c)
    case Put => t.pc.Locked?
    case Idle => t.pc == Picking && Empty(s, c)
    case Unidle => t.pc == Idling && free && Held(s.holder, c) == {}
    case SwitchTo(next) =>
      t.pc == Picking && next in s.threads && s.threads[next].cpu == c && s.threads[next].at == OnRunQueue
    case Return => t.pc == Switched || t.pc == Fresh
    case Restore => (t.pc == Leaving || t.pc == Starting) && free && Held(s.holder, c) == {}
    case Create(u) => t.pc == Running && free && u !in s.threads
    case TakeFromChannel(u) => InKernel(t.pc) && free && u in s.threads && s.threads[u].at.OnChannel?
    case TakeFromQueue(u) =>
      InKernel(t.pc) && free && u in s.threads && s.threads[u].cpu == c && s.threads[u].at == OnRunQueue && Holds(s, c, RunQueue(c))
    case Retarget(u, to) =>
      InKernel(t.pc) && free && u in s.threads && s.threads[u].at == Hand && !IsCurrent(s, u) && to in s.cpus
    case MakeRunnable(u) =>
      InKernel(t.pc) && free && u in s.threads && s.threads[u].at == Hand && Holds(s, c, RunQueue(s.threads[u].cpu))
  }

  function View(k: Cpu, t: Thread): Ipl {
    Ipl(t.count, t.high, k.irq)
  }

  /** Processor c and its current thread change. */
  function Local(s: State, c: nat, k: Cpu, t: Thread, v: Ipl, holder: map<Lock, nat>): State
    requires c in s.cpus
  {
    State(s.threads[s.cpus[c].cur := t.(count := v.count, high := v.high)], s.cpus[c := k.(irq := v.irq)], holder)
  }

  /** The thread that starts in thread_fork: created at high level, plus one for the run-queue lock it
      comes out holding. */
  function NewThread(c: nat): Thread {
    Thread(c, true, 1 + 1, false, Fresh, Hand)
  }

  ghost function Do(s: State, c: nat, step: Step): State
    requires Enabled(s, c, step)
  {
    var k, t := s.cpus[c], Cur(s, c);
    var v := View(k, t);
    match step
    case SetSpl(high) => Local(s, c, k, t, AtLevel(v, high), s.holder)
    case Begin(l) => Local(s, c, k.(want := Some(l), spinlocks := k.spinlocks + 1), t, Raised(v), s.holder)
    case Get =>
      var pc := match t.pc case Entered(why) => Locked(why) case Waking => Picking case _ => t.pc;
      Local(s, c, k.(want := None), t.(pc := pc), v, s.holder[k.want.value := c])
    case Drop(l) => Local(s, c, k.(spinlocks := k.spinlocks - 1), t, Lowered(v), s.holder - {l})
    case Enter(why) =>
      Local(s, c, k.(want := Some(RunQueue(c)), spinlocks := k.spinlocks + 1),
            t.(saved := t.high, pc := Entered(why)), Raised(AtLevel(v, true)), s.holder)
    case TurnBack => Local(s, c, k.(spinlocks := k.spinlocks - 1), t.(pc := Leaving), Lowered(v), s.holder - {RunQueue(c)})
    case Put =>
      (match t.pc.why
       case Ready => Local(s, c, k, t.(pc := Picking, at := OnRunQueue), v, s.holder)
       case Sleep(wc, lk) =>
         Local(s, c, k.(spinlocks := k.spinlocks - 1), t.(pc := Picking, at := OnChannel(wc)), Lowered(v), s.holder - {Other(lk)})
       case Zombie => Local(s, c, k, t.(pc := Picking, at := Dead), v, s.holder))
    case Idle => Local(s, c, k.(spinlocks := k.spinlocks - 1), t.(pc := Idling), Lowered(v), s.holder - {RunQueue(c)})
    case Unidle =>
      Local(s, c, k.(want := Some(RunQueue(c)), spinlocks := k.spinlocks + 1), t.(pc := Waking), Raised(v), s.holder)
    case SwitchTo(next) =>
      var away := s.threads[k.cur := t.(pc := Switched)];
      s.(threads := away[next := away[next].(at := NoList)], cpus := s.cpus[c := k.(cur := next)])
    case Return =>
      Local(s, c, k.(spinlocks := k.spinlocks - 1), t.(pc := if t.pc == Fresh then Starting else Leaving),
            Lowered(v), s.holder - {RunQueue(c)})
    case Restore => Local(s, c, k, t.(pc := Running), AtLevel(v, t.pc == Leaving && t.saved), s.holder)
    case Create(u) => s.(threads := s.threads[u := NewThread(c)])
    case TakeFromChannel(u) => s.(threads := s.threads[u := s.threads[u].(at := Hand)])
    case TakeFromQueue(u) => s.(threads := s.threads[u := s.threads[u].(at := Hand)])
    case Retarget(u, to) => s.(threads := s.threads[u := s.threads[u].(cpu := to)])
    case MakeRunnable(u) => s.(threads := s.threads[u := s.threads[u].(at := OnRunQueue)])
  }

  // ---------------------------------------------------------------- what every step keeps

  /** A thread that is not running: level high, count exactly 2, and on a list or in someone's hands. */
  ghost predicate Off(t: Thread) {
    t.high && t.count == 2 && (t.pc == Switched || t.pc == Fresh) && t.at != NoList
  }

  /** The spinlocks a processor holds at each point of a switch; other kernel code may hold any. */
  ghost predicate HoldsWhat(c: nat, t: Thread, want: Option<Lock>, held: set<Lock>) {
    match t.pc
    case Running => t.at == NoList
    case Entered(why) => t.at == NoList && want == Some(RunQueue(c)) && held == SleepLock(why)
    case Locked(why) => t.at == NoList && want == None && held == SleepLock(why) + {RunQueue(c)}
    case Picking => t.at != NoList && want == None && held == {RunQueue(c)}
    case Idling => t.at != NoList
    case Waking => t.at != NoList && want == Some(RunQueue(c)) && held == {}
    case Switched => t.at == NoList && want == None && held == {RunQueue(c)}
    case Fresh => t.at == NoList && want == None && held == {RunQueue(c)}
    case Leaving => t.at == NoList
    case Starting => t.at == NoList
  }

  ghost function SleepLock(why: Reason): set<Lock> {
    if why.Sleep? then {Other(why.lk)} else {}
  }

  /** A processor and the thread it runs. */
  ghost predicate On(c: nat, k: Cpu, t: Thread, held: set<Lock>) {
    && t.cpu == c
    && k.spinlocks == |held| + (if k.want.Some? then 1 else 0)
    && Coherent(View(k, t), k.spinlocks)
    && (t.pc != Running ==> t.high)
    && HoldsWhat(c, t, k.want, held)
  }

  ghost predicate CpuOk(s: State, c: nat) {
    c in s.cpus ==> s.cpus[c].cur in s.threads && On(c, s.cpus[c], Cur(s, c), Held(s.holder, c))
  }

  ghost predicate ThreadOk(s: State, t: nat) {
    t in s.threads ==> s.threads[t].cpu in s.cpus && (IsCurrent(s, t) || Off(s.threads[t]))
  }

  ghost predicate Inv(s: State) {
    (forall c :: CpuOk(s, c)) && (forall t :: ThreadOk(s, t))
  }

  /** A step of one processor on itself. */
  lemma LocalKeeps(s: State, c: nat, k: Cpu, t: Thread, v: Ipl, holder: map<Lock, nat>)
    requires Inv(s) && c in s.cpus && k.cur == s.cpus[c].cur
    requires forall d :: d in s.cpus && d != c ==> Held(holder, d) == Held(s.holder, d)
    requires On(c, k.(irq := v.irq), t.(count := v.count, high := v.high), Held(holder, c))
    ensures Inv(Local(s, c, k, t, v, holder))
  {
    var s' := Local(s, c, k, t, v, holder);
    forall d ensures CpuOk(s', d) {
      assert CpuOk(s, d) && CpuOk(s, c);
    }
    forall u ensures ThreadOk(s', u) {
      assert ThreadOk(s, u);
    }
  }

  lemma LockTaken(holder: map<Lock, nat>, l: Lock, c: nat)
    requires l !in holder
    ensures l !in Held(holder, c) && Held(holder[l := c], c) == Held(holder, c) + {l}
    ensures forall d :: d != c ==> Held(holder[l := c], d) == Held(holder, d)
  {
  }

  lemma LockDropped(holder: map<Lock, nat>, l: Lock, c: nat)
    requires l in holder && holder[l] == c
    ensures l in Held(holder, c) && Held(holder - {l}, c) == Held(holder, c) - {l}
    ensures forall d :: d != c ==> Held(holder - {l}, d) == Held(holder, d)
  {
  }

  /** Releasing a lock the processor holds. */
  lemma DropKeeps(s: State, c: nat, l: Lock, t: Thread)
    requires Inv(s) && c in s.cpus && s.cpus[c].cur in s.threads && l in Held(s.holder, c) && s.cpus[c].want == None
    requires t.cpu == c && View(s.cpus[c], t) == View(s.cpus[c], Cur(s, c)) && (t.pc != Running ==> t.high)
    requires HoldsWhat(c, t.(count := t.count - 1), None, Held(s.holder, c) - {l})
    ensures var k := s.cpus[c];
            Inv(Local(s, c, k.(spinlocks := k.spinlocks - 1), t, Lowered(View(k, t)), s.holder - {l}))
  {
    var k := s.cpus[c];
    assert CpuOk(s, c);
    LockDropped(s.holder, l, c);
    CoherentKept(View(k, t), k.spinlocks, true);
    LocalKeeps(s, c, k.(spinlocks := k.spinlocks - 1), t, Lowered(View(k, t)), s.holder - {l});
  }

  /** Starting to spin on one. */
  lemma BeginKeeps(s: State, c: nat, l: Lock, t: Thread, v: Ipl)
    requires Inv(s) && c in s.cpus && s.cpus[c].want == None
    requires t.cpu == c && Coherent(v, s.cpus[c].spinlocks) && (t.pc != Running ==> v.high)
    requires HoldsWhat(c, t.(count := v.count + 1, high := v.high), Some(l), Held(s.holder, c))
    ensures var k := s.cpus[c];
            Inv(Local(s, c, k.(want := Some(l), spinlocks := k.spinlocks + 1), t, Raised(v), s.holder))
  {
    var k := s.cpus[c];
    assert CpuOk(s, c);
    CoherentKept(v, k.spinlocks, true);
    LocalKeeps(s, c, k.(want := Some(l), spinlocks := k.spinlocks + 1), t, Raised(v), s.holder);
  }

  lemma LevelKeeps(s: State, c: nat, t: Thread, high: bool)
    requires Inv(s) && c in s.cpus && s.cpus[c].cur in s.threads && t == Cur(s, c).(pc := Running)
    requires s.cpus[c].want == None && t.at == NoList
    ensures var k := s.cpus[c]; Inv(Local(s, c, k, t, AtLevel(View(k, t), high), s.holder))
  {
    var k := s.cpus[c];
    assert CpuOk(s, c);
    CoherentKept(View(k, t), k.spinlocks, high);
    LocalKeeps(s, c, k, t, AtLevel(View(k, t), high), s.holder);
  }

  lemma GetKeeps(s: State, c: nat)
    requires Inv(s) && Enabled(s, c, Get)
    ensures Inv(Do(s, c, Get))
  {
    var k, t := s.cpus[c], Cur(s, c);
    var l := k.want.value;
    assert CpuOk(s, c);
    LockTaken(s.holder, l, c);
    var pc := match t.pc case Entered(why) => Locked(why) case Waking => Picking case _ => t.pc;
    LocalKeeps(s, c, k.(want := None), t.(pc := pc), View(k, t), s.holder[l := c]);
  }

  lemma PutKeeps(s: State, c: nat)
    requires Inv(s) && Enabled(s, c, Put)
    ensures Inv(Do(s, c, Put))
  {
    var k, t := s.cpus[c], Cur(s, c);
    assert CpuOk(s, c);
    match t.pc.why
    case Ready => LocalKeeps(s, c, k, t.(pc := Picking, at := OnRunQueue), View(k, t), s.holder);
    case Zombie => LocalKeeps(s, c, k, t.(pc := Picking, at := Dead), View(k, t), s.holder);
    case Sleep(wc, lk) =>
      assert Held(s.holder, c) - {Other(lk)} == {RunQueue(c)};
      DropKeeps(s, c, Other(lk), t.(pc := Picking, at := OnChannel(wc)));
  }

  /** The run-queue lock is handed over: the thread left behind has count 2 for its level and for a lock
      that is not its own any more, and the thread picked up has the 2 it was left with. */
  lemma SwitchKeeps(s: State, c: nat, next: nat)
    requires Inv(s) && Enabled(s, c, SwitchTo(next))
    ensures Inv(Do(s, c, SwitchTo(next)))
  {
    var s' := Do(s, c, SwitchTo(next));
    var cur := s.cpus[c].cur;
    assert CpuOk(s, c);
    assert Cur(s, c).count == 2;
    forall d ensures CpuOk(s', d) {
      assert CpuOk(s, d) && ThreadOk(s, next);
    }
    forall u ensures ThreadOk(s', u) {
      assert ThreadOk(s, u);
    }
  }

  /** A thread that is on a list is moved to another. */
  lemma MoveKeeps(s: State, u: nat, at: Place)
    requires Inv(s) && u in s.threads && s.threads[u].at != NoList && at != NoList
    ensures Inv(s.(threads := s.threads[u := s.threads[u].(at := at)]))
  {
    var s' := s.(threads := s.threads[u := s.threads[u].(at := at)]);
    forall d ensures CpuOk(s', d) {
      assert CpuOk(s, d);
    }
    forall v ensures ThreadOk(s', v) {
      assert ThreadOk(s, v);
    }
  }

  lemma RetargetKeeps(s: State, u: nat, to: nat)
    requires Inv(s) && u in s.threads && !IsCurrent(s, u) && to in s.cpus
    ensures Inv(s.(threads := s.threads[u := s.threads[u].(cpu := to)]))
  {
    var s' := s.(threads := s.threads[u := s.threads[u].(cpu := to)]);
    forall d ensures CpuOk(s', d) {
      assert CpuOk(s, d);
    }
    forall v ensures ThreadOk(s', v) {
      assert ThreadOk(s, v);
    }
  }

  lemma CreateKeeps(s: State, c: nat, u: nat)
    requires Inv(s) && Enabled(s, c, Create(u))
    ensures Inv(Do(s, c, Create(u)))
  {
    var s' := Do(s, c, Create(u));
    forall d ensures CpuOk(s', d) {
      assert CpuOk(s, d);
    }
    forall v ensures ThreadOk(s', v) {
      assert ThreadOk(s, v);
    }
  }

  /** A thread that goes into thread_switch with at least the lock it sleeps with is put on its list with
      a count of one for its level, one for the run-queue lock and one for every other lock; so it is
      left with the 2 that its successor counts on exactly if it held nothing else. */
  lemma LeftWithTwo(s: State, c: nat, why: Reason)
    requires Inv(s) && c in s.cpus && s.cpus[c].cur in s.threads && Cur(s, c).pc == Running && s.cpus[c].want == None
    requires SleepLock(why) <= Held(s.holder, c)
    ensures var entered := Raised(AtLevel(View(s.cpus[c], Cur(s, c)), true));
            var left := if why.Sleep? then Lowered(entered) else entered;
            && left.count == 2 + |Held(s.holder, c)| - |SleepLock(why)|
            && (left.count == 2 <==> Held(s.holder, c) == SleepLock(why))
  {
    var k, t, held := s.cpus[c], Cur(s, c), Held(s.holder, c);
    assert CpuOk(s, c);
    CoherentKept(View(k, t), k.spinlocks, true);
    assert held == SleepLock(why) + (held - SleepLock(why));
    assert |held| == |SleepLock(why)| + |held - SleepLock(why)|;
  }

  lemma EnterKeeps(s: State, c: nat, why: Reason)
    requires Inv(s) && Enabled(s, c, Enter(why))
    ensures Inv(Do(s, c, Enter(why)))
  {
    var k, t := s.cpus[c], Cur(s, c);
    assert CpuOk(s, c);
    CoherentKept(View(k, t), k.spinlocks, true);
    BeginKeeps(s, c, RunQueue(c), t.(saved := t.high, pc := Entered(why)), AtLevel(View(k, t), true));
  }

  /** The run-queue lock is released: nothing to run, idling, or back from a switch. */
  lemma UnlockKeeps(s: State, c: nat, step: Step)
    requires Inv(s) && Enabled(s, c, step) && (step == TurnBack || step == Idle || step == Return)
    ensures Inv(Do(s, c, step))
  {
    var t := Cur(s, c);
    assert CpuOk(s, c);
    assert Held(s.holder, c) - {RunQueue(c)} == {};
    var pc := if step == TurnBack then Leaving else if step == Idle then Idling else if t.pc == Fresh then Starting else Leaving;
    DropKeeps(s, c, RunQueue(c), t.(pc := pc));
  }

  lemma OwnStepKeeps(s: State, c: nat, step: Step)
    requires Inv(s) && Enabled(s, c, step)
    requires step.SetSpl? || step.Begin? || step.Drop? || step == Unidle || step == Restore
    ensures Inv(Do(s, c, step))
  {
    var k, t := s.cpus[c], Cur(s, c);
    assert CpuOk(s, c);
    match step
    case SetSpl(high) => LevelKeeps(s, c, t, high);
    case Begin(l) => BeginKeeps(s, c, l, t, View(k, t));
    case Drop(l) => DropKeeps(s, c, l, t);
    case Unidle => BeginKeeps(s, c, RunQueue(c), t.(pc := Waking), View(k, t));
    case Restore => LevelKeeps(s, c, t.(pc := Running), t.pc == Leaving && t.saved);
  }

  lemma StepKeeps(s: State, c: nat, step: Step)
    requires Inv(s) && Enabled(s, c, step)
    ensures Inv(Do(s, c, step))
  {
    match step
    case Get => GetKeeps(s, c);
    case Enter(why) => EnterKeeps(s, c, why);
    case TurnBack => UnlockKeeps(s, c, step);
    case Idle => UnlockKeeps(s, c, step);
    case Return => UnlockKeeps(s, c, step);
    case Put => PutKeeps(s, c);
    case SwitchTo(next) => SwitchKeeps(s, c, next);
    case Create(u) => CreateKeeps(s, c, u);
    case TakeFromChannel(u) => MoveKeeps(s, u, Hand);
    case TakeFromQueue(u) => MoveKeeps(s, u, Hand);
    case Retarget(u, to) => RetargetKeeps(s, u, to);
    case MakeRunnable(u) => MoveKeeps(s, u, OnRunQueue);
    case _ => OwnStepKeeps(s, c, step);
  }

  // ---------------------------------------------------------------- whole runs

  datatype Act = Act(cpu: nat, step: Step)

  /** In act a, thread t is the one its processor runs. */
  ghost predicate By(s: State, a: Act, t: nat) {
    a.cpu in s.cpus && s.cpus[a.cpu].cur == t
  }

  ghost predicate Run(states: seq<State>, acts: seq<Act>) {
    && |states| == |acts| + 1
    && forall i :: 0 <= i < |acts| ==> Leads(states[i], acts[i], states[i + 1])
  }

  /** A sealed fact: the act can be done in s and leads to s'. */
  ghost predicate Leads(s: State, a: Act, s': State) {
    forall u {:trigger Look(u)} :: Look(u) ==> Enabled(s, a.cpu, a.step) && s' == Do(s, a.cpu, a.step)
  }

  lemma LeadsKeeps(s: State, a: Act, s': State)
    requires Inv(s) && Leads(s, a, s')
    ensures Inv(s')
  {
    assert Look(true);
    StepKeeps(s, a.cpu, a.step);
  }

  /** Every processor starts in a thread of its own, level high, holding nothing. */
  ghost predicate Boot(s: State) {
    && s.holder == map[]
    && (forall c :: c in s.cpus ==>
          s.cpus[c].cur in s.threads && s.cpus[c] == Cpu(s.cpus[c].cur, false, 0, None) && Cur(s, c).cpu == c)
    && (forall t :: t in s.threads ==>
          IsCurrent(s, t) && s.threads[t] == Thread(s.threads[t].cpu, true, 1, s.threads[t].saved, Running, NoList))
  }

  lemma {:induction false} RunKeeps(states: seq<State>, acts: seq<Act>, i: nat)
    requires Run(states, acts) && Boot(states[0]) && i < |states|
    ensures Inv(states[i])
  {
    if i == 0 {
      forall c ensures CpuOk(states[0], c) {
        assert Held(states[0].holder, c) == {};
      }
    } else {
      RunKeeps(states, acts, i - 1);
      LeadsKeeps(states[i - 1], acts[i - 1], states[i]);
    }
  }

  /** One act of a run. */
  lemma RunStep(states: seq<State>, acts: seq<Act>, i: nat)
    requires Run(states, acts) && Boot(states[0]) && i < |acts|
    ensures Inv(states[i]) && Enabled(states[i], acts[i].cpu, acts[i].step)
    ensures states[i + 1] == Do(states[i], acts[i].cpu, acts[i].step)
  {
    RunKeeps(states, acts, i);
    assert Leads(states[i], acts[i], states[i + 1]) && Look(true);
  }

  /** In every state of every run: a thread that is not running has level high and count exactly 2; the
      thread on a processor counts the processor's spinlocks and its level; interrupts are off exactly
      while that is positive; and no thread is on two processors. */
  lemma RunsSafe(states: seq<State>, acts: seq<Act>, i: nat)
    requires Run(states, acts) && Boot(states[0]) && i < |states|
    ensures var s := states[i];
            && (forall t :: t in s.threads && !IsCurrent(s, t) ==> s.threads[t].high && s.threads[t].count == 2)
            && (forall c :: c in s.cpus ==>
                  && s.cpus[c].cur in s.threads && Cur(s, c).cpu == c
                  && s.cpus[c].spinlocks == |Held(s.holder, c)| + (if s.cpus[c].want.Some? then 1 else 0)
                  && Cur(s, c).count == s.cpus[c].spinlocks + Bit(Cur(s, c).high)
                  && (s.cpus[c].irq <==> Cur(s, c).count == 0))
            && (forall c, d :: c in s.cpus && d in s.cpus && s.cpus[c].cur == s.cpus[d].cur ==> c == d)
  {
    RunKeeps(states, acts, i);
    var s := states[i];
    assert forall c :: c in s.cpus ==> CpuOk(s, c);
    assert forall t :: t in s.threads ==> ThreadOk(s, t);
  }

  /** A thread between the entry of thread_switch and its final splx. */
  ghost predicate InSwitch(t: Thread) {
    || t.pc.Entered? || t.pc.Locked? || t.pc == Picking || t.pc == Idling || t.pc == Waking || t.pc == Switched || t.pc == Leaving
  }

  lemma SavedStays(s: State, c: nat, step: Step, t: nat)
    requires Inv(s) && Enabled(s, c, step) && t in s.threads && InSwitch(s.threads[t])
    requires !(step == Restore && s.cpus[c].cur == t)
    ensures var s' := Do(s, c, step);
            t in s'.threads && InSwitch(s'.threads[t]) && s'.threads[t].saved == s.threads[t].saved
  {
    if s.cpus[c].cur == t {
      OwnSavedStays(s, c, step);
    } else {
      OtherSavedStays(s, c, step, t);
    }
  }

  lemma OwnSavedStays(s: State, c: nat, step: Step)
    requires Inv(s) && Enabled(s, c, step) && InSwitch(Cur(s, c)) && step != Restore
    ensures var t, s' := s.cpus[c].cur, Do(s, c, step);
            t in s'.threads && InSwitch(s'.threads[t]) && s'.threads[t].saved == s.threads[t].saved
  {
  }

  lemma OtherSavedStays(s: State, c: nat, step: Step, t: nat)
    requires Inv(s) && Enabled(s, c, step) && t in s.threads && t != s.cpus[c].cur
    ensures var s' := Do(s, c, step);
            t in s'.threads && s'.threads[t].pc == s.threads[t].pc && s'.threads[t].saved == s.threads[t].saved
  {
  }

  ghost predicate Inside(s: State, t: nat, saved: bool) {
    t in s.threads && InSwitch(s.threads[t]) && s.threads[t].saved == saved
  }

  lemma SavedStep(states: seq<State>, acts: seq<Act>, i: nat, t: nat, saved: bool)
    requires Run(states, acts) && Boot(states[0]) && i < |acts| && Inside(states[i], t, saved)
    requires !(acts[i].step == Restore && By(states[i], acts[i], t))
    ensures Inside(states[i + 1], t, saved)
  {
    RunStep(states, acts, i);
    SavedStays(states[i], acts[i].cpu, acts[i].step, t);
  }

  /** From act i to act j, thread t stays inside one call of thread_switch. */
  lemma {:induction false} SavedThrough(states: seq<State>, acts: seq<Act>, i: nat, j: nat, t: nat, saved: bool)
    requires Run(states, acts) && Boot(states[0]) && i <= j < |states| && Inside(states[i], t, saved)
    requires forall m :: i <= m < j ==> !(acts[m].step == Restore && By(states[m], acts[m], t))
    ensures Inside(states[j], t, saved)
    decreases j
  {
    if i < j {
      SavedThrough(states, acts, i, j - 1, t, saved);
      SavedStep(states, acts, j - 1, t, saved);
    }
  }

  lemma EnterSaves(s: State, c: nat, why: Reason)
    requires Enabled(s, c, Enter(why))
    ensures var t, s' := s.cpus[c].cur, Do(s, c, Enter(why));
            Inside(s', t, s.threads[t].high)
  {
  }

  lemma RestoreUses(s: State, c: nat)
    requires Inv(s) && Enabled(s, c, Restore)
    ensures var t, s' := s.cpus[c].cur, Do(s, c, Restore);
            var high := s.threads[t].pc == Leaving && s.threads[t].saved;
            Rested(s', c, t, high)
  {
    assert CpuOk(s, c);
    CoherentKept(View(s.cpus[c], Cur(s, c)), 0, Cur(s, c).pc == Leaving && Cur(s, c).saved);
  }

  /** Thread t runs on processor c at this level, holding no spinlock. */
  ghost predicate Rested(s: State, c: nat, t: nat, high: bool) {
    && t in s.threads && c in s.cpus && s.cpus[c].cur == t && Held(s.holder, c) == {}
    && s.threads[t].pc == Running && s.threads[t].high == high && s.threads[t].count == Bit(high)
    && (s.cpus[c].irq <==> !high)
  }

  /** A thread that enters thread_switch at act i, however long it is away and on whatever processors
      it was, comes out at act j with the level it went in with, holding no spinlock. */
  lemma RestoresLevel(states: seq<State>, acts: seq<Act>, i: nat, j: nat, t: nat)
    requires Run(states, acts) && Boot(states[0]) && i < j < |acts|
    requires acts[i].step.Enter? && By(states[i], acts[i], t) && t in states[i].threads
    requires acts[j].step == Restore && By(states[j], acts[j], t)
    requires forall m :: i < m < j ==> !(acts[m].step == Restore && By(states[m], acts[m], t))
    ensures Rested(states[j + 1], acts[j].cpu, t, states[i].threads[t].high)
  {
    RunStep(states, acts, i);
    EnterSaves(states[i], acts[i].cpu, acts[i].step.why);
    SavedThrough(states, acts, i + 1, j, t, states[i].threads[t].high);
    RunStep(states, acts, j);
    RestoreUses(states[j], acts[j].cpu);
  }

  /** A new thread starts at low level with interrupts on. */
  lemma StartsLow(s: State, c: nat)
    requires Inv(s) && Enabled(s, c, Restore) && Cur(s, c).pc == Starting
    ensures Rested(Do(s, c, Restore), c, s.cpus[c].cur, false)
  {
    RestoreUses(s, c);
  }

  // ---------------------------------------------------------------- where threads go

  /** The steps that move thread t from one list to another. */
  ghost predicate Moves(s: State, c: nat, step: Step, t: nat) {
    || step == SwitchTo(t) || step == TakeFromChannel(t) || step == TakeFromQueue(t) || step == MakeRunnable(t)
    || (step == Put && By(s, Act(c, step), t))
  }

  lemma PlaceStays(s: State, c: nat, step: Step, t: nat)
    requires Inv(s) && Enabled(s, c, step) && t in s.threads && !Moves(s, c, step, t)
    ensures t in Do(s, c, step).threads && Do(s, c, step).threads[t].at == s.threads[t].at
    ensures s.threads[t].at != Hand ==> Do(s, c, step).threads[t].cpu == s.threads[t].cpu
  {
  }

  /** A thread that is put on a list was on none. */
  lemma PutFromNone(s: State, c: nat)
    requires Inv(s) && Enabled(s, c, Put)
    ensures Cur(s, c).at == NoList && Cur(s, c).cpu == c
  {
    assert CpuOk(s, c);
  }

  /** From the entry of thread_switch at act e, thread t keeps its reason until it is put on a list or turns
      back. */
  lemma {:induction false} ReasonKept(states: seq<State>, acts: seq<Act>, e: nat, i: nat, t: nat)
    requires Run(states, acts) && Boot(states[0]) && e < i < |states| && acts[e].step.Enter? && By(states[e], acts[e], t)
    requires forall m :: e < m < i && By(states[m], acts[m], t) ==> acts[m].step != Put && acts[m].step != TurnBack
    ensures Going(states[i], acts[e].cpu, t, acts[e].step.why)
    decreases i
  {
    RunStep(states, acts, i - 1);
    if i > e + 1 {
      ReasonKept(states, acts, e, i - 1, t);
      ReasonStep(states[i - 1], acts[i - 1], acts[e].cpu, t, acts[e].step.why);
    }
  }

  ghost predicate Going(s: State, c: nat, t: nat, why: Reason) {
    && t in s.threads && c in s.cpus && s.cpus[c].cur == t
    && (s.threads[t].pc == Entered(why) || s.threads[t].pc == Locked(why))
  }

  lemma ReasonStep(s: State, a: Act, c: nat, t: nat, why: Reason)
    requires Inv(s) && Enabled(s, a.cpu, a.step) && Going(s, c, t, why)
    requires By(s, a, t) ==> a.step != Put && a.step != TurnBack
    ensures Going(Do(s, a.cpu, a.step), c, t, why)
  {
    assert CpuOk(s, c) && CpuOk(s, a.cpu) && ThreadOk(s, t);
    if s.cpus[a.cpu].cur == t {
      OwnReason(s, c, a.step, why);
    } else {
      OtherSavedStays(s, a.cpu, a.step, t);
      OtherCpu(s, a.cpu, a.step, c);
    }
  }

  lemma OwnReason(s: State, c: nat, step: Step, why: Reason)
    requires CpuOk(s, c) && Enabled(s, c, step) && Going(s, c, s.cpus[c].cur, why) && step != Put && step != TurnBack
    ensures Going(Do(s, c, step), c, s.cpus[c].cur, why)
  {
  }

  lemma OtherCpu(s: State, c: nat, step: Step, d: nat)
    requires Enabled(s, c, step) && d in s.cpus && d != c
    ensures d in Do(s, c, step).cpus && Do(s, c, step).cpus[d] == s.cpus[d]
  {
  }

  /** A thread that waits to run: on its run queue, or in the hands of a migration. */
  ghost predicate Runnable(s: State, t: nat) {
    t in s.threads && (s.threads[t].at == OnRunQueue || s.threads[t].at == Hand)
  }

  lemma RunnableStep(s: State, c: nat, step: Step, t: nat)
    requires Inv(s) && Enabled(s, c, step) && Runnable(s, t) && step != SwitchTo(t)
    ensures Runnable(Do(s, c, step), t)
    ensures s.threads[t].at == OnRunQueue && step != TakeFromQueue(t) ==>
              var t' := Do(s, c, step).threads[t]; t'.at == OnRunQueue && t'.cpu == s.threads[t].cpu
  {
    if step == Put {
      PutFromNone(s, c);
    }
    if !Moves(s, c, step, t) {
      PlaceStays(s, c, step, t);
    }
  }

  /** A thread that yields goes on the run queue of its processor, and is there or in the hands of a migration
      until it is switched to. */
  lemma {:induction false} ReadyWaits(states: seq<State>, acts: seq<Act>, p: nat, j: nat, t: nat)
    requires Run(states, acts) && Boot(states[0]) && p < j < |states|
    requires acts[p].step == Put && By(states[p], acts[p], t) && t in states[p].threads && states[p].threads[t].pc == Locked(Ready)
    requires forall m :: p < m < j ==> acts[m].step != SwitchTo(t)
    ensures Runnable(states[j], t)
    ensures (forall m :: p < m < j ==> acts[m].step != TakeFromQueue(t)) ==>
              states[j].threads[t].at == OnRunQueue && states[j].threads[t].cpu == acts[p].cpu
    decreases j
  {
    RunStep(states, acts, j - 1);
    if j == p + 1 {
      PutFromNone(states[p], acts[p].cpu);
    } else {
      ReadyWaits(states, acts, p, j - 1, t);
      RunnableStep(states[j - 1], acts[j - 1].cpu, acts[j - 1].step, t);
    }
  }

  lemma AsleepStep(s: State, c: nat, step: Step, t: nat)
    requires Inv(s) && Enabled(s, c, step) && t in s.threads && (s.threads[t].at.OnChannel? || s.threads[t].at == Dead)
    requires step != TakeFromChannel(t)
    ensures t in Do(s, c, step).threads && Do(s, c, step).threads[t].at == s.threads[t].at
  {
    if step == Put {
      PutFromNone(s, c);
    }
    if !Moves(s, c, step, t) {
      PlaceStays(s, c, step, t);
    }
  }

  /** A thread that sleeps is on its channel until it is taken off there; one that exits is a zombie for
      good. */
  lemma {:induction false} SleepsOrDies(states: seq<State>, acts: seq<Act>, p: nat, j: nat, t: nat)
    requires Run(states, acts) && Boot(states[0]) && p < j < |states|
    requires acts[p].step == Put && By(states[p], acts[p], t) && t in states[p].threads && states[p].threads[t].pc.Locked?
    requires states[p].threads[t].pc.why.Sleep? ==> forall m :: p < m < j ==> acts[m].step != TakeFromChannel(t)
    ensures t in states[j].threads
    ensures match states[p].threads[t].pc.why
            case Ready => true
            case Sleep(wc, _) => states[j].threads[t].at == OnChannel(wc)
            case Zombie => states[j].threads[t].at == Dead
    decreases j
  {
    RunStep(states, acts, j - 1);
    if j > p + 1 {
      SleepsOrDies(states, acts, p, j - 1, t);
      if states[p].threads[t].pc.why != Ready {
        AsleepStep(states[j - 1], acts[j - 1].cpu, acts[j - 1].step, t);
      } else {
        StaysKnown(states[j - 1], acts[j - 1].cpu, acts[j - 1].step, t);
      }
    }
  }

  lemma StaysKnown(s: State, c: nat, step: Step, t: nat)
    requires Enabled(s, c, step) && t in s.threads
    ensures t in Do(s, c, step).threads
  {
  }

  /** Where a call of thread_switch takes its thread.  It goes in at act e and is put on a list at act p; until act
      j the thread is where its reason says. */
  lemma GoesAndStays(states: seq<State>, acts: seq<Act>, e: nat, p: nat, j: nat, t: nat)
    requires Run(states, acts) && Boot(states[0]) && e < p < j < |states|
    requires acts[e].step.Enter? && By(states[e], acts[e], t) && acts[p].step == Put && By(states[p], acts[p], t)
    requires forall m :: e < m < p && By(states[m], acts[m], t) ==> acts[m].step != Put && acts[m].step != TurnBack
    requires forall m :: p < m < j ==> acts[m].step != SwitchTo(t) && acts[m].step != TakeFromChannel(t)
    ensures t in states[j].threads
    ensures match acts[e].step.why
            case Ready => Runnable(states[j], t)
            case Sleep(wc, _) => states[j].threads[t].at == OnChannel(wc)
            case Zombie => states[j].threads[t].at == Dead
  {
    ReasonKept(states, acts, e, p, t);
    RunStep(states, acts, p);
    if acts[e].step.why == Ready {
      ReadyWaits(states, acts, p, j, t);
    } else {
      SleepsOrDies(states, acts, p, j, t);
    }
  }

  /** Thread t was put on a list at act p for this reason. */
  ghost predicate PutFor(states: seq<State>, acts: seq<Act>, p: nat, t: nat, why: Reason) {
    && p < |acts| && |states| == |acts| + 1 && acts[p].step == Put && By(states[p], acts[p], t)
    && t in states[p].threads && states[p].threads[t].pc == Locked(why)
  }

  lemma {:induction false} DeadHow(states: seq<State>, acts: seq<Act>, i: nat, t: nat) returns (p: nat)
    requires Run(states, acts) && Boot(states[0]) && i < |states| && t in states[i].threads && states[i].threads[t].at == Dead
    ensures p < i && PutFor(states, acts, p, t, Zombie)
  {
    if i == 0 {
      assert false;
    } else {
      RunStep(states, acts, i - 1);
      DiesHow(states[i - 1], acts[i - 1].cpu, acts[i - 1].step, t);
      if states[i - 1].threads[t].at == Dead {
        p := DeadHow(states, acts, i - 1, t);
      } else {
        p := i - 1;
      }
    }
  }

  /** A thread is a zombie exactly if it exited. */
  lemma DeadExactly(states: seq<State>, acts: seq<Act>, i: nat, t: nat)
    requires Run(states, acts) && Boot(states[0]) && i < |states| && t in states[i].threads
    ensures states[i].threads[t].at == Dead <==> exists p: nat :: p < i && PutFor(states, acts, p, t, Zombie)
  {
    if states[i].threads[t].at == Dead {
      var p := DeadHow(states, acts, i, t);
    }
    if p: nat :| p < i && PutFor(states, acts, p, t, Zombie) {
      SleepsOrDies(states, acts, p, i, t);
    }
  }

  lemma DiesHow(s: State, c: nat, step: Step, t: nat)
    requires Inv(s) && Enabled(s, c, step) && t in Do(s, c, step).threads && Do(s, c, step).threads[t].at == Dead
    ensures t in s.threads
    ensures s.threads[t].at == Dead || (step == Put && s.cpus[c].cur == t && s.threads[t].pc == Locked(Zombie))
  {
  }

  /** Once a zombie has been switched away from, it never runs again. */
  lemma {:induction false} NeverAgain(states: seq<State>, acts: seq<Act>, i: nat, j: nat, t: nat)
    requires Run(states, acts) && Boot(states[0]) && i <= j < |states|
    requires t in states[i].threads && states[i].threads[t].at == Dead && !IsCurrent(states[i], t)
    ensures t in states[j].threads && states[j].threads[t].at == Dead && !IsCurrent(states[j], t)
    decreases j
  {
    if i < j {
      NeverAgain(states, acts, i, j - 1, t);
      RunStep(states, acts, j - 1);
      AsleepStep(states[j - 1], acts[j - 1].cpu, acts[j - 1].step, t);
      StaysAway(states[j - 1], acts[j - 1].cpu, acts[j - 1].step, t);
    }
  }

  lemma StaysAway(s: State, c: nat, step: Step, t: nat)
    requires Inv(s) && Enabled(s, c, step) && t in s.threads && s.threads[t].at == Dead && !IsCurrent(s, t)
    ensures t in Do(s, c, step).threads && !IsCurrent(Do(s, c, step), t)
  {
    assert ThreadOk(s, t);
    if step == Put {
      PutFromNone(s, c);
    }
    PlaceStays(s, c, step, t);
    if s.threads[t].cpu != c {
      OtherCpu(s, c, step, s.threads[t].cpu);
    } else {
      OwnCurrent(s, c, step);
    }
  }

  lemma OwnCurrent(s: State, c: nat, step: Step)
    requires Enabled(s, c, step)
    ensures c in Do(s, c, step).cpus
    ensures Do(s, c, step).cpus[c].cur == if step.SwitchTo? then step.next else s.cpus[c].cur
  {
  }

  /** A thread in someone's hands, taken off a list or newly made, stays there until it is made runnable. */
  lemma {:induction false} InHand(states: seq<State>, acts: seq<Act>, i: nat, j: nat, t: nat)
    requires Run(states, acts) && Boot(states[0]) && i < j < |states|
    requires acts[i].step == TakeFromChannel(t) || acts[i].step == TakeFromQueue(t) || acts[i].step == Create(t)
    requires forall m :: i < m < j ==> acts[m].step != MakeRunnable(t)
    ensures t in states[j].threads && states[j].threads[t].at == Hand
    ensures acts[i].step == Create(t) && (forall m, to :: i < m < j ==> acts[m].step != Retarget(t, to)) ==>
              states[j].threads[t].cpu == acts[i].cpu
    decreases j
  {
    RunStep(states, acts, j - 1);
    if j > i + 1 {
      InHand(states, acts, i, j - 1, t);
      HandStep(states[j - 1], acts[j - 1].cpu, acts[j - 1].step, t);
    }
  }

  lemma HandStep(s: State, c: nat, step: Step, t: nat)
    requires Inv(s) && Enabled(s, c, step) && t in s.threads && s.threads[t].at == Hand && step != MakeRunnable(t)
    ensures var s' := Do(s, c, step);
            && t in s'.threads && s'.threads[t].at == Hand
            && ((forall to :: step != Retarget(t, to)) ==> s'.threads[t].cpu == s.threads[t].cpu)
            && (forall to :: step == Retarget(t, to) ==> s'.threads[t].cpu == to)
  {
    if step == Put {
      PutFromNone(s, c);
    }
  }

  /** And then it is on the run queue of its processor, until it is switched to or taken off. */
  lemma {:induction false} MadeRunnable(states: seq<State>, acts: seq<Act>, i: nat, j: nat, t: nat)
    requires Run(states, acts) && Boot(states[0]) && i < j < |states| && acts[i].step == MakeRunnable(t)
    requires forall m :: i < m < j ==> acts[m].step != SwitchTo(t) && acts[m].step != TakeFromQueue(t)
    ensures t in states[j].threads && states[j].threads[t].at == OnRunQueue
    ensures t in states[i].threads && states[j].threads[t].cpu == states[i].threads[t].cpu
    decreases j
  {
    RunStep(states, acts, j - 1);
    if j > i + 1 {
      MadeRunnable(states, acts, i, j - 1, t);
      RunnableStep(states[j - 1], acts[j - 1].cpu, acts[j - 1].step, t);
    }
  }

  /** What a processor runs changes exactly by its own switches, and then the thread it ran stays on the list
      it was put on while the thread switched to comes off its run queue. */
  lemma RunsExactly(states: seq<State>, acts: seq<Act>, i: nat, c: nat)
    requires Run(states, acts) && Boot(states[0]) && i < |acts| && c in states[i].cpus
    ensures var s, s', a := states[i], states[i + 1], acts[i];
            && c in s'.cpus
            && (a.cpu == c && a.step.SwitchTo? ==>
                  && s'.cpus[c].cur == a.step.next && a.step.next in s.threads && a.step.next in s'.threads
                  && s.threads[a.step.next].at == OnRunQueue && s'.threads[a.step.next].at == NoList
                  && s.cpus[c].cur in s.threads && s.threads[s.cpus[c].cur].at != NoList
                  && (a.step.next != s.cpus[c].cur ==>
                        s.cpus[c].cur in s'.threads && s'.threads[s.cpus[c].cur].at == s.threads[s.cpus[c].cur].at))
            && (a.cpu != c || !a.step.SwitchTo? ==> s'.cpus[c].cur == s.cpus[c].cur)
  {
    RunStep(states, acts, i);
    var s, a := states[i], acts[i];
    assert CpuOk(s, a.cpu);
    OwnCurrent(s, a.cpu, a.step);
    if a.cpu != c {
      OtherCpu(s, a.cpu, a.step, c);
    }
  }

  // ---------------------------------------------------------------- locks, read off the acts

  /** The act is the one by which its processor gets l. */
  ghost predicate Gets(s: State, a: Act, l: Lock) {
    a.step == Get && a.cpu in s.cpus && s.cpus[a.cpu].want == Some(l)
  }

  predicate SleepsWith(pc: Pc, l: Lock) {
    pc.Locked? && pc.why.Sleep? && l == Other(pc.why.lk)
  }

  /** The act gives l back: a release, one of the three that thread_switch makes of its run-queue lock, or the
      release of the lock a thread sleeps with. */
  ghost predicate Frees(s: State, a: Act, l: Lock) {
    || a.step == Drop(l)
    || ((a.step == TurnBack || a.step == Idle || a.step == Return) && l == RunQueue(a.cpu))
    || (a.step == Put && a.cpu in s.cpus && s.cpus[a.cpu].cur in s.threads && SleepsWith(Cur(s, a.cpu).pc, l))
  }

  /** The lock its processor spins on from this act on. */
  ghost function SpinsOn(a: Act): Option<Lock> {
    match a.step
    case Begin(l) => Some(l)
    case Enter(_) => Some(RunQueue(a.cpu))
    case Unidle => Some(RunQueue(a.cpu))
    case _ => None
  }

  /** Who holds a lock, and what a processor spins on, changes exactly by these acts. */
  lemma LocksExactly(states: seq<State>, acts: seq<Act>, i: nat, l: Lock, c: nat)
    requires Run(states, acts) && Boot(states[0]) && i < |acts| && c in states[i].cpus
    ensures var s, s', a := states[i], states[i + 1], acts[i];
            && HolderChange(s, a, l, s'.holder) && c in s'.cpus
            && s'.cpus[c].want == (if a.cpu == c && SpinsOn(a).Some? then SpinsOn(a)
                                   else if a.cpu == c && a.step == Get then None
                                   else s.cpus[c].want)
  {
    RunStep(states, acts, i);
    var s, a := states[i], acts[i];
    assert CpuOk(s, a.cpu);
    HolderExactly(s, a, l);
    if a.cpu == c {
      WantExactly(s, a);
    } else {
      OtherCpu(s, a.cpu, a.step, c);
    }
  }

  ghost predicate HolderChange(s: State, a: Act, l: Lock, holder: map<Lock, nat>) {
    if Gets(s, a, l) then l !in s.holder && l in holder && holder[l] == a.cpu
    else if Frees(s, a, l) then Holds(s, a.cpu, l) && l !in holder
    else (l in holder <==> l in s.holder) && (l in s.holder ==> holder[l] == s.holder[l])
  }

  lemma HolderExactly(s: State, a: Act, l: Lock)
    requires CpuOk(s, a.cpu) && Enabled(s, a.cpu, a.step)
    ensures HolderChange(s, a, l, Do(s, a.cpu, a.step).holder)
  {
    if a.step == Put {
      HoldsItsOwn(s, a.cpu);
      PutHolder(s, a.cpu, l);
    } else if a.step == TurnBack || a.step == Idle || a.step == Return {
      HoldsItsOwn(s, a.cpu);
      assert Do(s, a.cpu, a.step).holder == s.holder - {RunQueue(a.cpu)};
    } else {
      RestHolder(s, a, l);
    }
  }

  lemma PutHolder(s: State, c: nat, l: Lock)
    requires Enabled(s, c, Put)
    requires var pc := Cur(s, c).pc; pc.why.Sleep? ==> Holds(s, c, Other(pc.why.lk))
    ensures HolderChange(s, Act(c, Put), l, Do(s, c, Put).holder)
  {
  }

  lemma RestHolder(s: State, a: Act, l: Lock)
    requires Enabled(s, a.cpu, a.step) && a.step != Put && a.step != TurnBack && a.step != Idle && a.step != Return
    ensures HolderChange(s, a, l, Do(s, a.cpu, a.step).holder)
  {
  }

  lemma HoldsItsOwn(s: State, c: nat)
    requires CpuOk(s, c) && c in s.cpus
    ensures var pc := Cur(s, c).pc;
            && (pc.Locked? || pc == Picking || pc == Switched || pc == Fresh ==> Holds(s, c, RunQueue(c)))
            && (pc.Locked? && pc.why.Sleep? ==> Holds(s, c, Other(pc.why.lk)))
  {
    var t := Cur(s, c);
    assert t.pc.Locked? || t.pc == Picking || t.pc == Switched || t.pc == Fresh ==> RunQueue(c) in Held(s.holder, c);
    assert t.pc.Locked? && t.pc.why.Sleep? ==> Other(t.pc.why.lk) in Held(s.holder, c);
  }

  lemma WantExactly(s: State, a: Act)
    requires CpuOk(s, a.cpu) && Enabled(s, a.cpu, a.step)
    ensures var c, s' := a.cpu, Do(s, a.cpu, a.step);
            && c in s'.cpus
            && s'.cpus[c].want == (if SpinsOn(a).Some? then SpinsOn(a) else if a.step == Get then None else s.cpus[c].want)
  {
  }

  /** A processor can go on exactly unless it spins on a lock that is held. */
  lemma MovesExactly(s: State, c: nat)
    requires Inv(s) && c in s.cpus
    ensures (exists step :: Enabled(s, c, step)) <==> !(s.cpus[c].want.Some? && s.cpus[c].want.value in s.holder)
  {
    assert CpuOk(s, c);
    var k, t := s.cpus[c], Cur(s, c);
    if k.want.Some? {
      assert k.want.value !in s.holder ==> Enabled(s, c, Get);
    } else if t.pc == Running {
      assert Enabled(s, c, SetSpl(true));
    } else if t.pc.Locked? {
      assert Enabled(s, c, Put);
    } else if t.pc == Switched || t.pc == Fresh {
      assert Enabled(s, c, Return);
    } else if t.pc == Picking {
      PicksOrIdles(s, c);
    } else {
      RestsOrDrops(s, c);
    }
  }

  lemma PicksOrIdles(s: State, c: nat)
    requires c in s.cpus && s.cpus[c].cur in s.threads && Cur(s, c).pc == Picking
    ensures exists step :: Enabled(s, c, step)
  {
    if Empty(s, c) {
      assert Enabled(s, c, Idle);
    } else {
      var u :| u in s.threads && s.threads[u].cpu == c && s.threads[u].at == OnRunQueue;
      assert Enabled(s, c, SwitchTo(u));
    }
  }

  lemma RestsOrDrops(s: State, c: nat)
    requires CpuOk(s, c) && c in s.cpus && s.cpus[c].want == None
    requires var pc := Cur(s, c).pc; pc == Idling || pc == Leaving || pc == Starting
    ensures exists step :: Enabled(s, c, step)
  {
    if Held(s.holder, c) == {} {
      assert Enabled(s, c, if Cur(s, c).pc == Idling then Unidle else Restore);
    } else {
      var l :| l in Held(s.holder, c);
      assert Enabled(s, c, Drop(l));
    }
  }

  // ---------------------------------------------------------------- coming out

  /** A thread begins to run only by the last step of thread_switch or thread_startup. */
  lemma RunsBy(s: State, c: nat, step: Step, t: nat)
    requires Inv(s) && Enabled(s, c, step) && t in s.threads && s.threads[t].pc != Running
    requires t in Do(s, c, step).threads && Do(s, c, step).threads[t].pc == Running
    ensures step == Restore && s.cpus[c].cur == t
  {
  }

  /** However a thread comes out of thread_switch, also when it turns back at once: it runs on with the level it
      went in with, holding no spinlock. */
  lemma OutAtLevel(states: seq<State>, acts: seq<Act>, i: nat, j: nat, t: nat)
    requires Run(states, acts) && Boot(states[0]) && i < j < |states| && acts[i].step.Enter? && By(states[i], acts[i], t)
    requires t in states[i].threads && t in states[j].threads && states[j].threads[t].pc == Running
    requires forall m :: i < m < j ==> t in states[m].threads && states[m].threads[t].pc != Running
    ensures exists c :: Rested(states[j], c, t, states[i].threads[t].high)
  {
    FirstEntered(states, acts, i, t);
    ComesOutBy(states, acts, j - 1, t);
    forall m | i < m < j - 1 ensures !(acts[m].step == Restore && By(states[m], acts[m], t)) {
      NotYetOut(states, acts, m, t);
    }
    RestoresLevel(states, acts, i, j - 1, t);
  }

  lemma FirstEntered(states: seq<State>, acts: seq<Act>, i: nat, t: nat)
    requires Run(states, acts) && Boot(states[0]) && i < |acts| && acts[i].step.Enter? && By(states[i], acts[i], t)
    ensures t in states[i + 1].threads && states[i + 1].threads[t].pc.Entered?
  {
    RunStep(states, acts, i);
  }

  lemma ComesOutBy(states: seq<State>, acts: seq<Act>, i: nat, t: nat)
    requires Run(states, acts) && Boot(states[0]) && i < |acts| && t in states[i].threads && t in states[i + 1].threads
    requires states[i].threads[t].pc != Running && states[i + 1].threads[t].pc == Running
    ensures acts[i].step == Restore && By(states[i], acts[i], t)
  {
    RunStep(states, acts, i);
    RunsBy(states[i], acts[i].cpu, acts[i].step, t);
  }

  lemma NotYetOut(states: seq<State>, acts: seq<Act>, i: nat, t: nat)
    requires Run(states, acts) && Boot(states[0]) && i < |acts| && t in states[i + 1].threads
    requires states[i + 1].threads[t].pc != Running
    ensures !(acts[i].step == Restore && By(states[i], acts[i], t))
  {
    RunStep(states, acts, i);
    RestoreRuns(states[i], acts[i].cpu);
  }

  lemma RestoreRuns(s: State, c: nat)
    ensures Enabled(s, c, Restore) ==> var t := s.cpus[c].cur; Do(s, c, Restore).threads[t].pc == Running
  {
  }

  predicate New(pc: Pc) {
    pc == Fresh || pc == Starting || pc == Running
  }

  lemma StillNew(s: State, c: nat, step: Step, t: nat)
    requires Inv(s) && Enabled(s, c, step) && t in s.threads && (s.threads[t].pc == Fresh || s.threads[t].pc == Starting)
    ensures t in Do(s, c, step).threads && New(Do(s, c, step).threads[t].pc)
  {
    if s.cpus[c].cur == t {
      OwnStillNew(s, c, step);
    } else {
      OtherSavedStays(s, c, step, t);
    }
  }

  lemma OwnStillNew(s: State, c: nat, step: Step)
    requires Inv(s) && Enabled(s, c, step) && (Cur(s, c).pc == Fresh || Cur(s, c).pc == Starting)
    ensures s.cpus[c].cur in Do(s, c, step).threads && New(Do(s, c, step).threads[s.cpus[c].cur].pc)
  {
    assert CpuOk(s, c);
  }

  lemma {:induction false} NewUntilRun(states: seq<State>, acts: seq<Act>, i: nat, j: nat, t: nat)
    requires Run(states, acts) && Boot(states[0]) && i < j < |states| && acts[i].step == Create(t)
    requires forall m :: i < m < j ==> t in states[m].threads && states[m].threads[t].pc != Running
    ensures t in states[j].threads
    ensures New(states[j].threads[t].pc)
    decreases j
  {
    RunStep(states, acts, j - 1);
    if j > i + 1 {
      NewUntilRun(states, acts, i, j - 1, t);
      StillNew(states[j - 1], acts[j - 1].cpu, acts[j - 1].step, t);
    }
  }

  /** A thread that was forked begins to run at low level with interrupts on, holding no spinlock. */
  lemma NewRunsLow(states: seq<State>, acts: seq<Act>, i: nat, j: nat, t: nat)
    requires Run(states, acts) && Boot(states[0]) && i < j < |states| && acts[i].step == Create(t)
    requires t in states[j].threads && states[j].threads[t].pc == Running
    requires forall m :: i < m < j ==> t in states[m].threads && states[m].threads[t].pc != Running
    ensures exists c :: Rested(states[j], c, t, false)
  {
    RunStep(states, acts, j - 1);
    if j > i + 1 {
      NewUntilRun(states, acts, i, j - 1, t);
      RunsBy(states[j - 1], acts[j - 1].cpu, acts[j - 1].step, t);
      StartsLow(states[j - 1], acts[j - 1].cpu);
    }
  }

  /** The level of a running thread is its own affair: it is what it last set, and nothing else changes it. */
  lemma LevelIsOwn(s: State, c: nat, step: Step, t: nat)
    requires Inv(s) && Enabled(s, c, step) && t in s.threads && s.threads[t].pc == Running
    requires t in Do(s, c, step).threads && Do(s, c, step).threads[t].pc == Running
    ensures Do(s, c, step).threads[t].high == if step.SetSpl? && s.cpus[c].cur == t then step.high else s.threads[t].high
  {
    if s.cpus[c].cur == t {
      OwnLevel(s, c, step);
    } else {
      OtherLevel(s, c, step, t);
    }
  }

  lemma OwnLevel(s: State, c: nat, step: Step)
    requires Enabled(s, c, step) && Cur(s, c).pc == Running
    requires s.cpus[c].cur in Do(s, c, step).threads && Do(s, c, step).threads[s.cpus[c].cur].pc == Running
    ensures Do(s, c, step).threads[s.cpus[c].cur].high == if step.SetSpl? then step.high else Cur(s, c).high
  {
  }

  lemma OtherLevel(s: State, c: nat, step: Step, t: nat)
    requires Enabled(s, c, step) && t in s.threads && t != s.cpus[c].cur
    ensures t in Do(s, c, step).threads && Do(s, c, step).threads[t].high == s.threads[t].high
  {
  }
}
