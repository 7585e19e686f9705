# Verified models of an OS/161 tree

A Dafny model of the hard parts of an OS/161 kernel tree and of one of its synchronisation
exercises, with proofs.  `dafny verify dfyconfig.toml` checks the whole project.

- **64-bit arithmetic from 32-bit words** (`QDivRem`, `LongLong`, over `Bits` and `Digits`).  Knuth's
  Algorithm D on digit arrays with explicit wrap-around, Karatsuba multiplication with hand-made
  carries, and the signed wrappers around them.
- **The kernel heap** (`PageRefPool`, `HeapModel`, `KMalloc`).  Pages cut into blocks, free lists that
  run through memory, two lists of page records, and a bitmap of records.  GUARDS, LABELS and SLOW
  are off, as in the source.  A small kmalloc gives up the heap lock twice, before it asks for a page
  and again if it needs a page for records, so it is three critical sections: `TryAlloc`,
  `ReserveRecord` and `AllocOnPage`.  `KHeap.Valid` holds between any two critical sections of any
  threads, records on the way included, so it holds over every run.  alloc_kpages is a parameter: 0,
  or a page that is not on the heap's lists.
- **Threads** (`ThreadLists`, `Migration`, `Spl`, `Switching`, `Semaphore`).  Linked lists of threads;
  migration between run queues against any schedule of the other CPUs; interrupt levels, spinlocks
  and context switch as a machine of steps over any number of CPUs and threads; semaphores over wait
  channels as a machine of steps over any number of threads.
- **The deadlock detector** (`Hangman`), a waits-for graph kept in object fields.
- **The paint shop** (`PaintShop`, `PaintTints`), as a machine of semaphore steps and single looks at
  slots.  The number of slots and customers, the colours of a can and mix itself are parameters.
- **Data movement and text** (`Memory`, `Uio`, `Printf`, `Atoi`, `Pseudorand`).

`Common` holds the definitions that several modules share.

Where the code and its documents differ, the model follows the code.  The paint shop's design
document says that staff sleep on order_buffer_full when there is no order; the code posts it back
after every look, so the count never falls for good and staff go round the loop.

Properties that turned out false have an exact condition: a set of orders can lead tint locking into
a circular wait exactly if one of them names a colour twice (`PaintTints.CircularWaitOrders`); the
assertion in freepageref holds exactly if every earlier root has a page
(`PageRefPool.Pool.Free`), and fails after 256 failures to get one (`PageRefPool.LeakThenFree`);
atoi gives a printed int back except for zeros padded on the right (`Atoi.RoundTrip`) and, through a
buffer, for digits cut off (`Atoi.PrintThenRead`); the page count of a large kmalloc is enough
exactly up to 2^32 - 4096 bytes (`KMalloc.PagesForEnough`).

## Model

| member | source | states |
|---|---|---|
| QDivRem.DivRem | asst2/src/common/gcc-millicode/qdivrem.c:67-263 | for all 64-bit u and v: a trap exactly when v is 0, else the quotient u / v and, if asked for, the remainder u % v |
| QDivRem.Shl | asst2/src/common/gcc-millicode/qdivrem.c:270-279 | shifting a digit string left multiplies its value by the power of two; what falls out at the top is accounted for |
| QDivRem.ShiftAmount | asst2/src/common/gcc-millicode/qdivrem.c:169-171 | the shift found brings the divisor's top digit to at least half the base and keeps it a digit |
| QDivRem.Normalise | asst2/src/common/gcc-millicode/qdivrem.c:169-175 | both operands are multiplied by the same power of two and the divisor's top digit is at least B/2 |
| QDivRem.ShortDivide | asst2/src/common/gcc-millicode/qdivrem.c:136-148 | the unrolled division by one digit gives quotient and remainder of the four-digit value |
| QDivRem.Leading | asst2/src/common/gcc-millicode/qdivrem.c:157-158 | dropping leading zero digits keeps the dividend's value and leaves m + n digits |
| QDivRem.Estimate | asst2/src/common/gcc-millicode/qdivrem.c:193-210 | the trial digit of step D3 is below the base and brackets the quotient: it is the true digit or one more |
| QDivRem.Correct | asst2/src/common/gcc-millicode/qdivrem.c:205-210 | the correction loop ends with a trial digit that is not too small and at most one too large |
| QDivRem.TooBig | asst2/src/common/gcc-millicode/qdivrem.c:205 | the D3 test fires only when the trial digit exceeds the true quotient digit |
| QDivRem.NotMuchTooBig | asst2/src/common/gcc-millicode/qdivrem.c:205-210 | once the D3 test passes, the trial digit is at most one too large |
| QDivRem.MulSub | asst2/src/common/gcc-millicode/qdivrem.c:217-223 | multiply and subtract leaves the true difference, or the difference plus B^(n+1) exactly when it is negative, and the borrow tells which |
| QDivRem.AddBack | asst2/src/common/gcc-millicode/qdivrem.c:230-238 | adding back gives the sum with the carry out of the top dropped, and touches no other digit |
| QDivRem.TrialDigit | asst2/src/common/gcc-millicode/qdivrem.c:193-210 | step D3 on digit strings of any length brackets the quotient of the leading n + 1 digits |
| QDivRem.TrialDigitMeaning | asst2/src/common/gcc-millicode/qdivrem.c:224-230 | the trial digit is u div v or exactly one more, and the difference is negative exactly in the second case |
| QDivRem.DigitStep | asst2/src/common/gcc-millicode/qdivrem.c:193-239 | steps D3 to D6 give the exact quotient digit and leave a partial remainder below the divisor |
| QDivRem.LoopValueStep | asst2/src/common/gcc-millicode/qdivrem.c:182-240 | one digit step carries the equation dividend = quotient * divisor + rest to the next digit |
| QDivRem.Iterate | asst2/src/common/gcc-millicode/qdivrem.c:182-240 | one round of the loop keeps that equation and clears the digit it has passed |
| QDivRem.LongDivide | asst2/src/common/gcc-millicode/qdivrem.c:179-240 | the whole digit loop: all quotient digits, and the remainder left in the low digits of u |
| QDivRem.ShiftBack | asst2/src/common/gcc-millicode/qdivrem.c:248-254 | the remainder's digits shifted right divide the value exactly, up to the bits shifted out |
| QDivRem.Denormalise | asst2/src/common/gcc-millicode/qdivrem.c:242-262 | dividing scaled operands gives the same quotient and the remainder scaled |
| QDivRem.Remainder | asst2/src/common/gcc-millicode/qdivrem.c:247-258 | what is stored for the remainder is the unscaled remainder |
| QDivRem.AlgorithmD | asst2/src/common/gcc-millicode/qdivrem.c:157-262 | for divisors of two or more digits: quotient, and remainder exactly when wanted |
| LongLong.LMulQ | asst2/src/common/gcc-millicode/muldi3.c:183-241 | the exact 64-bit product of any two 32-bit words |
| LongLong.AddShifted | asst2/src/common/gcc-millicode/muldi3.c:229-232 | the hand-made carry adds a shifted word to a two-word number mod 2^64 |
| LongLong.SubShifted | asst2/src/common/gcc-millicode/muldi3.c:225-228 | the hand-made borrow subtracts a shifted word from a two-word number mod 2^64 |
| LongLong.MiddleTerm | asst2/src/common/gcc-millicode/muldi3.c:202-216 | the product of the half differences, with its sign, is the middle term of the product of sums |
| LongLong.KaratsubaSum | asst2/src/common/gcc-millicode/muldi3.c:214-236 | the three half products add up to the full product |
| LongLong.Accumulate | asst2/src/common/gcc-millicode/muldi3.c:214-236 | adding the shifted parts mod 2^64 is exact because the total fits |
| LongLong.ProductWords | asst2/src/common/gcc-millicode/muldi3.c:138-163 | only the low product needs its upper word: the assembled words are the product mod 2^64 |
| LongLong.MulDi3 | asst2/src/common/gcc-millicode/muldi3.c:99-164 | the product of any two long longs, wrapped to 64 bits in two's complement |
| LongLong.Truncates | asst2/src/common/gcc-millicode/divdi3.c:44-62 | the reference quotient and remainder meet section 6.5.5 of ISO C99: they rebuild the dividend, the quotient is cut toward zero, the remainder takes the dividend's sign |
| LongLong.DivDi3 | asst2/src/common/gcc-millicode/divdi3.c:44-62 | the truncated quotient wrapped to 64 bits, for every divisor but 0, which traps |
| LongLong.ModDi3 | asst2/src/common/gcc-millicode/moddi3.c:45-62 | the remainder with the dividend's sign, for every divisor but 0, which traps |
| LongLong.DivideAndRebuild | asst2/src/common/gcc-millicode/muldi3.c:99-164 | quotient times divisor plus remainder, through all three routines, is the dividend for every dividend and non-zero divisor, MIN / -1 included |
| LongLong.Rebuild | asst2/src/common/gcc-millicode/divdi3.c:44-62 | the same on values: wrapping quotient, product and sum still gives the dividend back |
| Hangman.WaitCloses | asst2/src/kern/thread/hangman.c:109-129 | recording a wait keeps the graph acyclic exactly if the walk from the lockable's holder does not meet the waiter |
| Hangman.AcquireKeeps | asst2/src/kern/thread/hangman.c:131-157 | acquiring keeps the waits-for graph acyclic |
| Hangman.ReleaseKeeps | asst2/src/kern/thread/hangman.c:159-182 | releasing keeps the waits-for graph acyclic |
| Hangman.StepKeeps | asst2/src/kern/thread/hangman.c:109-182 | every step that does not panic keeps the graph acyclic, and a wait panics with a deadlock exactly when recording it would close a cycle |
| Hangman.RunsStayAcyclic | asst2/src/kern/thread/hangman.c:50-182 | after every panic-free run of waits, acquires and releases the graph is acyclic |
| Hangman.HistoryTells | asst2/src/kern/thread/hangman.c:109-182 | after every panic-free run, read off the calls alone: an actor holds a lockable exactly if the last acquire or release of it was its own acquire, and waits for it exactly if the last wait or acquire of the actor was the wait for it |
| Hangman.PanicsExactly | asst2/src/kern/thread/hangman.c:50-182 | each panic of each call has its exact condition on the calls before; a wait is a deadlock exactly if a chain of actors, each waiting for what the next one holds, leads from the holder to the waiter |
| Hangman.ChainBound | asst2/src/kern/thread/hangman.c:50-94 | a wait chain is no longer than the number of waiting actors, all of them different |
| Hangman.ChainEnds | asst2/src/kern/thread/hangman.c:50-94 | every wait chain ends at an actor that is not waiting or waits for a free lockable |
| Hangman.Detector.Check | asst2/src/kern/thread/hangman.c:50-94 | the pointer walk ends and finds the target exactly if the wait chain meets it |
| Hangman.Detector.Report | asst2/src/kern/thread/hangman.c:69-93 | the actors printed are the cycle, in order |
| Hangman.Detector.HangmanWait | asst2/src/kern/thread/hangman.c:109-129 | the fields change as the graph step says; a panic leaves the graph alone and reports a real cycle |
| Hangman.Detector.HangmanAcquire | asst2/src/kern/thread/hangman.c:131-157 | the fields change as the graph step says, and the graph stays acyclic |
| Hangman.Detector.HangmanRelease | asst2/src/kern/thread/hangman.c:159-182 | the fields change as the graph step says, and the graph stays acyclic |
| ThreadLists.ThreadList.constructor | asst2/src/kern/thread/threadlist.c:60-72 | a new list is linked and empty |
| ThreadLists.ThreadList.PlacesDistinct | asst2/src/kern/thread/threadlist.c:100-157 | no node stands at two places of a list whose links agree |
| ThreadLists.ListsDisjoint | asst2/src/kern/thread/threadlist.c:100-157 | two lists with different bookends share no node |
| ThreadLists.ThreadList.IsEmpty | asst2/src/kern/thread/threadlist.c:91-97 | true exactly for the empty sequence |
| ThreadLists.ThreadList.InsertAfterNode | asst2/src/kern/thread/threadlist.c:106-120 | the links spell the sequence with the thread inserted behind the given place |
| ThreadLists.ThreadList.InsertBeforeNode | asst2/src/kern/thread/threadlist.c:126-140 | the links spell the sequence with the thread inserted before the given place |
| ThreadLists.ThreadList.RemoveNode | asst2/src/kern/thread/threadlist.c:146-157 | the links spell the sequence without the thread, whose own links are null |
| ThreadLists.ThreadList.AddHead | asst2/src/kern/thread/threadlist.c:162-170 | the sequence gains the thread in front; every other list is unchanged |
| ThreadLists.ThreadList.AddTail | asst2/src/kern/thread/threadlist.c:172-180 | the sequence gains the thread at the end; every other list is unchanged |
| ThreadLists.ThreadList.RemHead | asst2/src/kern/thread/threadlist.c:182-198 | null exactly on the empty list, else the first thread comes off with null links; every other list is unchanged |
| ThreadLists.ThreadList.RemTail | asst2/src/kern/thread/threadlist.c:200-216 | null exactly on the empty list, else the last thread comes off with null links; every other list is unchanged |
| ThreadLists.ThreadList.InsertAfter | asst2/src/kern/thread/threadlist.c:218-224 | the thread goes in right behind the given one; every other list is unchanged |
| ThreadLists.ThreadList.InsertBefore | asst2/src/kern/thread/threadlist.c:226-232 | the thread goes in right before the given one; every other list is unchanged |
| ThreadLists.ThreadList.Remove | asst2/src/kern/thread/threadlist.c:234-240 | the given thread comes off with null links; every other list is unchanged |
| Migration.RoomForAll | asst2/src/kern/thread/thread.c:868-873 | a CPU with its share or more can hand all the rest to queues below the share |
| Migration.BalancedShares | asst2/src/kern/thread/thread.c:856-946 | a caller with its share or more keeps its first share of threads in order, one with less changes nothing; only queues below the share grow, none past it, and the total is the same |
| Migration.PlacedFits | asst2/src/kern/thread/thread.c:882-933 | with room for all, no victim is left over |
| Migration.PlacedGrows | asst2/src/kern/thread/thread.c:882-933 | a queue keeps its own threads in front and grows only up to the share |
| Migration.ActKeeps | asst2/src/kern/thread/thread.c:858-950 | what other CPUs may do between critical sections keeps every thread on exactly one queue and only appends to ours |
| Migration.ReplayPresence | asst2/src/kern/thread/thread.c:847-950 | over any run of migration steps and moves of other CPUs: a thread that is gone was popped by another CPU, and a thread that is new was made runnable by one |
| Migration.DepartedHow | asst2/src/kern/thread/thread.c:847-950 | a thread counted as gone stood at the end of the own queue of another CPU when that CPU popped it, at a point of the run |
| Migration.NoPopsNoDeparture | asst2/src/kern/thread/thread.c:847-950 | if the others only make threads runnable, no thread is gone |
| Migration.RunConserves | asst2/src/kern/thread/thread.c:847-950 | a run that ends with empty hands keeps every thread in one place and the current thread on its CPU, and loses or gains threads only by moves of others |
| Migration.SentBelow | asst2/src/kern/thread/thread.c:882-933 | over any run: a queue to which a thread is sent is shorter, at that moment, than the peak of the run |
| Migration.RunQueues.Count | asst2/src/kern/thread/thread.c:856-866 | every queue is read once, in order; quiet counts are exact; under interference our own count is never too large |
| Migration.RunQueues.TakeVictims | asst2/src/kern/thread/thread.c:873-880 | the surplus is taken off the tail in order and the list is never popped when empty |
| Migration.RunQueues.Fill | asst2/src/kern/thread/thread.c:882-933 | filling one queue keeps |victims| = to_send plus one if the current thread was met; under any schedule it sends only while the queue is below the share; when quiet it fills exactly up to the share |
| Migration.RunQueues.Distribute | asst2/src/kern/thread/thread.c:882-933 | over all queues but our own: under any schedule the state stays the replay of a log of sends and of the schedule, with the current thread met at most once; when quiet the victims go where the reference placing puts them |
| Migration.RunQueues.GiveBack | asst2/src/kern/thread/thread.c:940-946 | leftovers go back on our own queue in order |
| Migration.RunQueues.ConsiderMigration | asst2/src/kern/thread/thread.c:847-950 | under any schedule the moves of others in the log are the schedule, all of it and in order, so that a thread is gone only by one of its pops and new only by one of its appends; no thread is on two queues and the current thread keeps its CPU; no thread is sent to a queue that has its share of the lengths read; when quiet and the current thread is not queued, the result is the balanced one and nothing is left over |
| Spl.Current.SplRaise | asst2/src/kern/thread/spl.c:86-104 | the count goes up and interrupts go off on the first raise |
| Spl.Current.SplLower | asst2/src/kern/thread/spl.c:106-124 | the count goes down and interrupts come back on the last lower |
| Spl.Current.Splx | asst2/src/kern/thread/spl.c:131-160 | moves to the level asked for and answers with the level before |
| Spl.CoherentKept | asst2/src/kern/thread/spl.c:61-85 | each spl call and each spinlock keeps: count = spinlocks + 1 if the level is high, interrupts off iff positive |
| Spl.AnyNesting | asst2/src/kern/thread/spl.c:61-85 | after any sequence of spl calls, acquires and releases, nested or not, interrupts are on exactly when no spinlock is held and the level is low |
| Switching.LocalKeeps | asst2/src/kern/thread/thread.c:560-728 | a step that changes one processor and its current thread keeps the invariant of all others |
| Switching.BeginKeeps | asst2/src/kern/thread/spinlock.c:75-97 | starting to spin on a lock keeps count = spinlocks + level |
| Switching.GetKeeps | asst2/src/kern/thread/spinlock.c:98-122 | the successful test-and-set makes this processor the one holder and keeps the counts |
| Switching.DropKeeps | asst2/src/kern/thread/spinlock.c:127-142 | releasing a lock the processor holds keeps the counts and the interrupt state |
| Switching.EnterKeeps | asst2/src/kern/thread/thread.c:570-588 | entering thread_switch raises to high and spins on the run-queue lock, with the saved level kept |
| Switching.LeftWithTwo | asst2/src/kern/thread/thread.c:570-622 | a thread goes onto its list with a count of 2 exactly if it came in with no spinlock but the one it sleeps with; with every other lock it is one more |
| Switching.PutKeeps | asst2/src/kern/thread/thread.c:597-622 | queueing as ready, asleep (releasing the sleep lock) or zombie leaves exactly the run-queue lock held |
| Switching.UnlockKeeps | asst2/src/kern/thread/thread.c:590-595 | releasing the run-queue lock to return, to idle or after the switch keeps the counts |
| Switching.SwitchKeeps | asst2/src/kern/thread/thread.c:641-664 | the switch hands the run-queue lock over: the thread left has level high and count 2, the thread picked up has the 2 it was left with |
| Switching.CreateKeeps | asst2/src/kern/thread/thread.c:494-548 | a forked thread starts with level high and count exactly 2 |
| Switching.MoveKeeps | asst2/src/kern/thread/thread.c:1018-1075 | waking moves a thread from its channel to the run queue of its own processor, also while that processor idles in it, and also from an interrupt handler there |
| Switching.RetargetKeeps | asst2/src/kern/thread/thread.c:912-919 | only a thread that is on no processor changes processor |
| Switching.StepKeeps | asst2/src/kern/thread/thread.c:451-767 | every step of every processor keeps the invariant |
| Switching.RunsSafe | asst2/src/kern/thread/thread.c:494-767 | in every state of every run: a thread that is not running has level high and count 2; a running one counts its processor's spinlocks plus its level; interrupts are off exactly while that is positive; no thread is on two processors |
| Switching.SavedStays | asst2/src/kern/thread/thread.c:560-728 | no step of anyone else changes the level a thread saved on entry |
| Switching.RestoresLevel | asst2/src/kern/thread/thread.c:560-728 | a thread comes out of thread_switch with the level it went in with, on whatever processor, holding no spinlock |
| Switching.StartsLow | asst2/src/kern/thread/thread.c:738-767 | a new thread begins its function at low level with interrupts on and no spinlock |
| Switching.OutAtLevel | asst2/src/kern/thread/thread.c:560-728 | however a thread comes out of thread_switch, turning back at once included, it runs on at the level it went in with, holding no spinlock |
| Switching.NewRunsLow | asst2/src/kern/thread/thread.c:494-548 | a forked thread begins to run at low level with interrupts on, whatever happened since the fork |
| Switching.LevelIsOwn | asst2/src/kern/thread/spl.c:131-160 | the level of a running thread is what it last set, and no step of anyone else changes it |
| Switching.GoesAndStays | asst2/src/kern/thread/thread.c:597-622 | a thread that entered thread_switch to yield is on a run queue or in the hands of a migration until it is switched to; one that entered to sleep is on its channel until it is taken off; one that entered to exit is a zombie |
| Switching.ReadyWaits | asst2/src/kern/thread/thread.c:601-602 | a yielding thread is on the run queue of its processor, and there or in the hands of a migration until it is switched to |
| Switching.SleepsOrDies | asst2/src/kern/thread/thread.c:604-621 | a sleeper is on its own channel until it is taken off, a thread that exited is a zombie for good |
| Switching.DeadExactly | asst2/src/kern/thread/thread.c:617-621 | a thread is a zombie exactly if it was queued as one |
| Switching.NeverAgain | asst2/src/kern/thread/thread.c:640-664 | a zombie that has been switched away from never runs again |
| Switching.InHand | asst2/src/kern/thread/thread.c:1018-1075 | a thread taken off a list, or newly forked, is on no list until it is made runnable |
| Switching.MadeRunnable | asst2/src/kern/thread/thread.c:451-486 | a thread made runnable is on the run queue of its processor until it is switched to or migrated |
| Switching.RunsExactly | asst2/src/kern/thread/thread.c:640-664 | what a processor runs changes exactly by its own switches; the thread switched to comes off its run queue, the other stays on its list |
| Switching.LocksExactly | asst2/src/kern/thread/spinlock.c:75-142 | who holds a lock changes exactly by a successful test-and-set, a release, the three releases of the run-queue lock and the release of the sleep lock; what a processor spins on changes exactly by an acquire |
| Switching.MovesExactly | asst2/src/kern/thread/thread.c:560-728 | a processor can take a step exactly unless it spins on a lock that is held |
| Semaphore.CountsKeep | asst2/src/kern/thread/synch.c:88-135 | every step keeps count = initial + completed Vs - completed Ps, adjusted by the call that holds the lock, and mutual exclusion |
| Semaphore.SleepersKeep | asst2/src/kern/thread/thread.c:999-1042 | the channel holds exactly the sleeping threads, each once |
| Semaphore.TakeKeeps | asst2/src/kern/thread/synch.c:98-120 | testing a positive count uses up at most the wakeup the thread was woken for |
| Semaphore.WakeKeeps | asst2/src/kern/thread/synch.c:127-134 | waking a sleeper makes good the count just posted |
| Semaphore.StepKeeps | asst2/src/kern/thread/synch.c:88-135 | every step of every thread keeps the invariant |
| Semaphore.RunsCount | asst2/src/kern/thread/synch.c:47-135 | in every run, whenever the lock is free: count = initial + completed Vs - completed Ps; and if some thread sleeps on a positive count, a woken thread is on its way to test it, so no wakeup is lost |
| Semaphore.Overflow | asst2/src/kern/thread/synch.c:123-135 | the assertion in V fails exactly when the completed calls leave the largest unsigned count |
| Semaphore.CallTells | asst2/src/kern/thread/synch.c:88-135 | a thread is inside P or V exactly if that is the call it made last and has not come back from |
| Semaphore.CompletedCalls | asst2/src/kern/thread/synch.c:88-135 | the counters of completed calls are the numbers of calls that came back, counted from the acts |
| Semaphore.GoesOn | asst2/src/kern/thread/synch.c:88-135 | no step leaves its thread where it was, and the holder of the lock comes nearer to giving it up with each |
| Semaphore.MovesExactly | asst2/src/kern/thread/synch.c:88-135 | a thread can go on exactly unless it is asleep, spins on the lock while that is held, or fails the assertion in V |
| Semaphore.WakesInOrder | asst2/src/kern/thread/thread.c:1021-1042 | no thread is woken while another has been asleep on the channel for longer |
| PaintShop.FindsOrderSlot | asst1/paintshop.c:90-102 | a customer with a slot permit and the order mutex always finds a NULL slot at or after its index |
| PaintShop.FindsDeliverySlot | asst1/paintshop.c:296-310 | a member of staff with a slot permit and the delivery mutex always finds a NULL slot at or after its index |
| PaintShop.PlaceOrderKeeps | asst1/paintshop.c:95-102 | each turn of the loop that places an order keeps the invariant |
| PaintShop.TakeKeeps | asst1/paintshop.c:220-232 | each turn of the loop that takes an order keeps the invariant |
| PaintShop.ServeKeeps | asst1/paintshop.c:303-310 | each turn of the loop that delivers a can keeps the invariant |
| PaintShop.LookKeeps | asst1/paintshop.c:122-130 | each turn of the loop that looks for the customer's own can keeps the invariant |
| PaintShop.FillKeeps | asst1/paintshop.c:261-285 | filling a can leaves it with the same member of staff |
| PaintShop.HandOverKeeps | asst1/paintshop.c:139-144 | returning the delivery slot and the can to the customer keeps the slot count |
| PaintShop.GoHomeKeeps | asst1/paintshop.c:159-166 | remaining_customers stays the number of customers who have not gone home |
| PaintShop.StepKeeps | asst1/paintshop.c:86-316 | every step of every customer and member of staff keeps the invariant |
| PaintShop.OnePlace | asst1/paintshop.c:86-316 | in every run any can is in an order slot, a delivery slot or the hands of a thread exactly if its place says so: a can on order is in exactly one of them, and no other can is in any |
| PaintShop.OrdersSeen | asst1/paintshop.c:104-108 | an announced order is never stranded: when order_buffer_full is 0, a member of staff has it on loan and will give it back |
| PaintShop.CansSeen | asst1/paintshop.c:113-148 | a delivered can is never stranded: when ready_cans is 0, a customer has it on loan or the server is about to post it |
| PaintShop.ReturnsServed | asst1/paintshop.c:86-148 | order_paint returns only after its own can was ordered, then taken, filled and served by one member of staff, then collected by this customer |
| PaintShop.ExitsAtEnd | asst1/paintshop.c:196-210 | take_order returns NULL exactly when every customer has gone home, and then nothing is on order |
| PaintShop.LooksWhileOpen | asst1/paintshop.c:196-216 | staff wait for an order only after a look at which some customer had not gone home |
| PaintShop.SearchedAll | asst1/paintshop.c:122-136 | while a thread that searched in vain still has the mutex: the can of the customer is in no delivery slot, and no order is in any order slot |
| PaintShop.OneAction | asst1/paintshop.c:93-310 | each of the four searches, from taking the mutex to the end of the loop and whatever runs in between, is one action on the buffer as it was: into the first free slot, out of the first taken slot or all are free, the own can out of its slot or it is in none |
| PaintShop.Nearer | asst1/paintshop.c:86-316 | in every run each step of a thread brings it nearer to the end of its round, so a round is at most 2n + 16 steps |
| PaintShop.RoundAgain | asst1/paintshop.c:113-148 | a thread that found nothing, or has served, is at the start of the next round |
| PaintTints.StepKeeps | asst1/paintshop.c:261-285 | every step keeps: a tint is held by exactly the thread that took it, and the gate by the thread inside |
| PaintTints.MixExclusive | asst1/paintshop.c:261-285 | in every run two staff are never in mix with a common non-zero tint |
| PaintTints.BlockedWaits | asst1/paintshop.c:263-272 | a thread inside fill_order is blocked exactly if it waits for some thread |
| PaintTints.WaitDescends | asst1/paintshop.c:263-283 | who waits for a tint waits for a thread past the gate that only gives tints back, unless it holds that tint itself |
| PaintTints.CircularWaitIff | asst1/paintshop.c:263-283 | there is a circular wait exactly when some thread waits for a tint it has taken itself |
| PaintTints.NoCircularWait | asst1/paintshop.c:263-283 | if every order names its non-zero colours once, no run reaches a circular wait, and chains of waits have at most three threads |
| PaintTints.RepeatsForever | asst1/paintshop.c:268-272 | a thread that wants a tint it holds never moves again, whatever the others do |
| PaintTints.RepeatedTint | asst1/paintshop.c:268-272 | for every order that names a non-zero colour twice, and every thread of an idle shop, a run that fills only this order brings the thread to a circular wait |
| PaintTints.CircularWaitOrders | asst1/paintshop.c:261-285 | for every set of orders: some run that fills cans for these orders comes to a circular wait exactly if one of them names a non-zero colour twice |
| PaintTints.NeverMixed | asst1/paintshop.c:263-277 | a thread that fills an order with a colour named twice stays at the gate or inside it for the rest of every run, so that can is never mixed |
| PaintTints.CallLength | asst1/paintshop.c:261-285 | a call of fill_order takes two steps for each colour and five more, however the steps of others come in between |
| PageRefPool.Pool.Reserve | asst2/src/kern/vm/kmalloc.c:258-284 | the first record not in use is now in use and pending, or none exactly when all are in use; set bits stay exactly the records in use |
| PageRefPool.Pool.Settle | asst2/src/kern/vm/kmalloc.c:219-291 | with the lock held again: the page got for records is used exactly if the root still has none, and goes back otherwise; the record is given out exactly if its root has a page, and has leaked otherwise |
| PageRefPool.Pool.FirstFree | asst2/src/kern/vm/kmalloc.c:264-298 | the scan over roots, words and bits finds the first record not in use |
| PageRefPool.Pool.FirstClear | asst2/src/kern/vm/kmalloc.c:279-292 | the bit scan of a word that is not full finds its first clear bit |
| PageRefPool.Pool.Mark | asst2/src/kern/vm/kmalloc.c:281-282 | the bit and the count of the root go up together and stay exactly the records in use |
| PageRefPool.Pool.Free | asst2/src/kern/vm/kmalloc.c:304-337 | the bit of the record is cleared and counted exactly if every root before its own has a page; otherwise the assertion fails, and then all 256 records of some earlier root are leaked or pending |
| PageRefPool.LeakThenFree | asst2/src/kern/vm/kmalloc.c:304-320 | 256 records for which no page was to be had and then one on the next root: freeing that one fails the assertion |
| PageRefPool.RootFull | asst2/src/kern/vm/kmalloc.c:267-269 | a root whose count is full has every record in use |
| HeapModel.MkPab | asst2/src/kern/vm/kmalloc.c:156-158 | packing page address and block type into one word can be undone by the two extracting macros |
| HeapModel.BlockOnPage | asst2/src/kern/vm/kmalloc.c:873-1018 | blocks lie on their page at multiples of their size |
| HeapModel.WhollyFree | asst2/src/kern/vm/kmalloc.c:1140-1141 | the free count reaches PAGE_SIZE / size exactly when no block of the page is handed out |
| HeapModel.LinkBlocks | asst2/src/kern/vm/kmalloc.c:998-1008 | the initial free list holds every block of the page once, ends in NULL, and only the page is written |
| HeapModel.FreeFreeList | asst2/src/kern/vm/kmalloc.c:1116-1138 | putting a block back makes it the head of an acyclic free list one longer |
| HeapModel.ClientWrite | asst2/src/kern/vm/kmalloc.c:873-1160 | a client writing inside its block does not touch the page's free list |
| KMalloc.BlockType | asst2/src/kern/vm/kmalloc.c:851-867 | the smallest block size that fits |
| KMalloc.FillDeadbeef | asst2/src/kern/vm/kmalloc.c:43-53 | the words of the block become 0xdeadbeef and nothing else changes |
| KMalloc.Unlink | asst2/src/kern/vm/kmalloc.c:822-845 | the walk finds the record and the list is the old one without it |
| KMalloc.TakeHead | asst2/src/kern/vm/kmalloc.c:924-941 | the head of the free list is handed out and every assertion on offsets and counts holds |
| KMalloc.PutBack | asst2/src/kern/vm/kmalloc.c:1105-1140 | a block put back leaves the page split into live blocks and free list, reads 0xdeadbeef behind its link word, and the count reaches the maximum exactly with the last live block |
| KMalloc.BlocksDisjoint | asst2/src/kern/vm/kmalloc.c:873-1160 | two blocks handed out never overlap, whole block sizes included |
| KMalloc.KHeap.constructor | asst2/src/kern/vm/kmalloc.c:345-346 | the empty heap is valid |
| KMalloc.KHeap.FindSpace | asst2/src/kern/vm/kmalloc.c:914-920 | a page of the right type with a free block, or proof that all of them are full; block types on the list always match |
| KMalloc.KHeap.FindPage | asst2/src/kern/vm/kmalloc.c:1072-1090 | the heap page an address lies on, or none exactly if there is none |
| KMalloc.KHeap.DoAlloc | asst2/src/kern/vm/kmalloc.c:922-954 | the heap stays valid and exactly the head block changes from free to live |
| KMalloc.KHeap.InstallPage | asst2/src/kern/vm/kmalloc.c:988-1017 | a fresh page is listed on both lists with all blocks free but the one handed out |
| KMalloc.KHeap.RemoveLists | asst2/src/kern/vm/kmalloc.c:822-845 | the page leaves allbase and its size list; the lists still agree with the bitmap's pages |
| KMalloc.KHeap.TryAlloc | asst2/src/kern/vm/kmalloc.c:905-955 | clients gain exactly one block of the size asked for, from pages already held, exactly if some page of that block size has a free block |
| KMalloc.KHeap.ReserveRecord | asst2/src/kern/vm/kmalloc.c:978-980 | the heap stays valid while the reserved record is in use but on no list |
| KMalloc.KHeap.AllocOnPage | asst2/src/kern/vm/kmalloc.c:980-1017 | whatever ran since the record was reserved: clients gain exactly one block and the heap one page, and other clients' data stay; it fails exactly if the root of the record has no page and none was to be had, and then only the record is lost |
| KMalloc.LastBlock | asst2/src/kern/vm/kmalloc.c:1140-1148 | freeing a block leaves its page wholly free exactly if clients hold no other block there |
| KMalloc.KHeap.SubpageFree | asst2/src/kern/vm/kmalloc.c:1025-1160 | exactly the freed block is lost to clients and it reads 0xdeadbeef behind its first word; its own page, which the heap held, goes to free_kpages exactly when no other block of that page was held and the scan of freepageref gets to its record; the page is kept exactly when another block was held; addresses on no heap page are reported as such; a held block is refused only when all records of some root are leaked or pending |
| KMalloc.KHeap.Kmalloc | asst2/src/kern/vm/kmalloc.c:1169-1206 | sizes from 2048 ask for the rounded-up number of pages; smaller ones gain a block, and ask for one page exactly if no page of the block size has room; what other clients hold reads the same |
| KMalloc.KHeap.Kfree | asst2/src/kern/vm/kmalloc.c:1211-1223 | NULL is ignored; heap blocks are freed, the page kept or given back under exactly the conditions of SubpageFree; aligned addresses elsewhere go to free_kpages; the rest panics |
| KMalloc.KHeap.ClientStore | asst2/src/kern/vm/kmalloc.c:873-1160 | a store inside a client's own block keeps the heap valid |
| KMalloc.KHeap.NoOverlap | asst2/src/kern/vm/kmalloc.c:873-1160 | in every state blocks held by clients are disjoint over the sizes asked for, and an address is one block |
| KMalloc.KHeap.BlockPlaced | asst2/src/kern/vm/kmalloc.c:873-1160 | every live block is 16-byte aligned and on a page the heap holds |
| KMalloc.KHeap.NoIdlePage | asst2/src/kern/vm/kmalloc.c:1140-1148 | every page the heap holds has a live block |
| KMalloc.PagesForEnough | asst2/src/kern/vm/kmalloc.c:1190-1192 | the pages asked for hold the size, with less than a page to spare, exactly for sizes up to 2^32 - 4096; above that the sum wraps and no page is asked for |
| Memory.MemCpy | asst2/src/common/libc/string/memcpy.c:47-86 | a simultaneous copy whenever the destination is not above an overlapping source |
| Memory.MemMove | asst2/src/common/libc/string/memmove.c:48-117 | a simultaneous copy for any overlap, alignment and length |
| Memory.MovedAt | asst2/src/common/libc/string/memmove.c:48-117 | what a simultaneous copy is: each destination byte is the old source byte, all others stay |
| Memory.Forward | asst2/src/common/libc/string/memcpy.c:72-83 | copying unit by unit upwards equals one copy if the destination is lower or disjoint |
| Memory.Backward | asst2/src/common/libc/string/memmove.c:103-113 | copying unit by unit downwards equals one copy if the destination is higher |
| Uio.Request.SkipEmpty | asst2/src/kern/lib/uio.c:75-89 | empty buffers are passed over and the buffers never run out while resid is positive |
| Uio.Request.UioMove | asst2/src/kern/lib/uio.c:49-127 | for any block, also one that touches the buffers: min(n, resid) bytes move between it and the buffers, one simultaneous copy for each buffer in order, and resid and offset move with them; if the block is apart from the buffers this is the read or write byte by byte |
| Uio.ByteByByte | asst2/src/kern/lib/uio.c:66-124 | the transfer buffer by buffer is the transfer byte by byte when the block is apart from the buffers |
| Uio.Request.UioMoveZeros | asst2/src/kern/lib/uio.c:129-153 | n zero bytes are written as one read, cut to the room there is |
| Uio.ReadTwice | asst2/src/kern/lib/uio.c:66-124 | a read can be broken anywhere |
| Uio.ReadCells | asst2/src/kern/lib/uio.c:119-123 | a read uses up addresses one by one and the offset moves with them |
| Uio.ReadAt | asst2/src/kern/lib/uio.c:91-100 | with buffers that do not overlap, the k-th address gets the k-th byte and no more are touched |
| Uio.ReadOther | asst2/src/kern/lib/uio.c:91-100 | bytes in no buffer stay |
| Uio.WriteAt | asst2/src/kern/lib/uio.c:91-100 | with buffers apart from ptr, the i-th byte there is the i-th buffer byte |
| Uio.ReadsConcatenate | asst2/src/kern/lib/uio.c:49-153 | reads one after the other are one read of the concatenated sources, and room plus offset is conserved |
| Uio.Request.MakeCalls | asst2/src/kern/lib/uio.c:49-153 | any sequence of uiomove and uiomovezeros calls, with the kernel putting bytes in its own blocks in between, writes the concatenated sources, each as it lay at its call, to the buffers in order, cut to the room; resid goes down and the offset up by the bytes moved |
| Uio.PutRead | asst2/src/kern/lib/uio.c:91-100 | bytes put outside the buffers and bytes read into them do not get in each other's way |
| Printf.DigitsFit | asst2/src/common/libc/printf/__printf.c:76-84 | any 64-bit number has at most 22 digits in base 8, 10 or 16 |
| Printf.DigitsMean | asst2/src/common/libc/printf/__printf.c:434-459 | in any base from 2 to 16 the digits, read back by place value, are the number |
| Printf.DigitsOfBase | asst2/src/common/libc/printf/__printf.c:434-459 | every character is a digit of the base, and the first is 0 only for the number 0 |
| Printf.Convert | asst2/src/common/libc/printf/__printf.c:414-459 | the digits are put into the 23-byte buffer from the right, inside it, before the NUL |
| Printf.Printer.PrintStuff | asst2/src/common/libc/printf/__printf.c:366-404 | prefixes, text and padding come out as one field, padded on the side and with the character asked for |
| Printf.Printer.PrintNum | asst2/src/common/libc/printf/__printf.c:414-491 | sign, base prefix and digits of the value as one field |
| Printf.Printer.SendChar | asst2/src/common/libc/printf/__printf.c:497-563 | one format character: state and output as the reference step says |
| Printf.Printer.VPrintf | asst2/src/common/libc/printf/__printf.c:570-592 | the characters sent are the rendering of the whole format, and their number is returned |
| Printf.Buffer.Send | asst2/src/common/libc/printf/snprintf.c:74-93 | the buffer holds the longest prefix of everything sent that fits, and the rest of it is untouched |
| Printf.VSnprintf | asst2/src/common/libc/printf/snprintf.c:98-142 | the longest prefix of the output that leaves room for a NUL, the NUL, nothing else; the full length is returned (section 7.19.6.12 of ISO C99) |
| Printf.ModifiersMean | asst2/src/common/libc/printf/__printf.c:162-233 | what any string of modifiers comes to: width, side, fill character, alternate form and size |
| Printf.PrintsInteger | asst2/src/common/libc/printf/__printf.c:241-345 | with any modifiers and any value its size holds: the digits printed stand for the value in base 10 for %d and %u, 8 for %o, 16 for %x and %p, behind the minus, 0 or 0x that is due |
| Printf.PrintsIntegerIff | asst2/src/common/libc/printf/__printf.c:241-310 | an integer directive has an output exactly for the values its size holds |
| Printf.PrintsString | asst2/src/common/libc/printf/__printf.c:530-541 | %s prints its argument up to the first NUL, and (null) for a null pointer |
| Printf.PrintsChar | asst2/src/common/libc/printf/__printf.c:542-562 | %c prints its character |
| Printf.PrintsOther | asst2/src/common/libc/printf/__printf.c:542-562 | %% and every other character print themselves |
| Printf.PrintsLiteral | asst2/src/common/libc/printf/__printf.c:504-511 | text without % prints as itself |
| Printf.PrintsConcat | asst2/src/common/libc/printf/__printf.c:570-592 | two formats one after the other print what each prints on its own arguments |
| Printf.FieldShape | asst2/src/common/libc/printf/__printf.c:366-404 | a field is as wide as asked or as its text, which stands on the side asked for with the prefix in front of zeros and behind blanks |
| Printf.FieldFill | asst2/src/common/libc/printf/__printf.c:366-404 | nothing but the fill character is added to a field |
| Atoi.Atoi | asst2/src/common/libc/stdlib/atoi.c:49-101 | blanks, a sign and digits are read mod 2^32 and taken as a signed int |
| Atoi.ParsedMeans | asst2/src/common/libc/stdlib/atoi.c:49-101 | blanks, any sign or none, digits and any tail: the place value of the digits, negative exactly for a minus, modulo 2^32 as a signed int |
| Atoi.HasParts | asst2/src/common/libc/stdlib/atoi.c:49-101 | every string splits into such parts |
| Atoi.ReadDigits | asst2/src/common/libc/stdlib/atoi.c:70-92 | reading the printed digits of n gives n mod 2^32 |
| Atoi.TimesTens | asst2/src/common/libc/stdlib/atoi.c:88 | appending k zeros leaves a value mod 2^32 unchanged only if k or the value is 0 |
| Atoi.RoundTrip | asst2/src/common/libc/printf/__printf.c:366-404 | atoi gives back every int printed in any field, except zeros padded on the right of a non-zero number: exactly then it does not |
| Atoi.FormatRoundTrip | asst2/src/common/libc/printf/__printf.c:497-592 | the same for the output of a whole %d format with any modifiers |
| Atoi.RoundTripCut | asst2/src/common/libc/printf/snprintf.c:74-93 | atoi gets an int back from the first k characters of its field exactly if it is 0, or no digit is cut off and no padding zero stands behind the digits |
| Atoi.StopsAtNul | asst2/src/common/libc/stdlib/atoi.c:49-101 | what stands behind a NUL does not count |
| Atoi.PrintThenRead | asst2/src/common/libc/printf/snprintf.c:98-142 | snprintf with any %d format into a buffer of any positive length and then atoi on that buffer: the exact condition, on number, format and length, for getting the number back |
| Pseudorand.Schrage | asst2/src/kern/dev/generic/pseudorand.c:26-31 | the split product is exact and stays within 32-bit signed range |
| Pseudorand.SchrageNext | asst2/src/kern/dev/generic/pseudorand.c:20-39 | the two branches of the code end in the next seed, with no product out of range |
| Pseudorand.Undo | asst2/src/kern/dev/generic/pseudorand.c:20-39 | multiplying by 1407677000 undoes a step |
| Pseudorand.StaysInRange | asst2/src/kern/dev/generic/pseudorand.c:29-38 | a step never leads to 0 |
| Pseudorand.Injective | asst2/src/kern/dev/generic/pseudorand.c:20-39 | different seeds have different successors |
| Pseudorand.PowerStep | asst2/src/kern/dev/generic/pseudorand.c:20-39 | one step after n steps is n + 1 steps of multiplying by 16807 |
| Pseudorand.Generator.Random | asst2/src/kern/dev/generic/pseudorand.c:20-48 | the seed becomes 16807 * seed mod 2^31 - 1, so after n calls it is 16807^n * 305824 mod 2^31 - 1, and the value returned is in 0..randmax |

## Left out

- The bytes of the pages that hold records: a record is an entry of sequences beside memory.
- KMalloc.KHeap.SubpageFree: demands that an aligned address on a heap page is a live block; a second free of the same block is not modelled beyond the source's check of the list head.
- KMalloc.KHeap.Kmalloc: runs its three critical sections with nothing in between; the interleaved form is TryAlloc, ReserveRecord and AllocOnPage.
- KMalloc.KHeap.Kfree: makes the same demand as SubpageFree.
- kmalloc's guard bands, labels, statistics and consistency checks, which are compiled out.
- Alignment of client stores in the heap model: memory is a map from addresses to words, and a store changes one address.
- Spinlock fairness, memory barriers, address-space activation, and the moment inside cpu_idle when interrupts are on: handlers called from there are modelled as steps at high level.
- Switching.EnterKeeps: takes thread_yield and thread_exit to be called with no spinlock held, which the code asserts only of wchan_sleep; LeftWithTwo shows what depends on it.
- Switching.MoveKeeps: run queues and wait channels are sets of threads, so first-in first-out order is not modelled there; ThreadLists and Semaphore have the order.
- Hangman's own spinlock: a call of the detector is one step.
- Liveness: that the busy loops in order_paint and take_order, spinning on a lock, or waiting on a semaphore ever end.
- PaintShop.GoHomeKeeps: go_home is one step under its mutex.
- stuff_exit and paintshop_close in the paint shop, which guard and free nothing the properties need.
- uiomove to and from user space, whose copies can fail; only kernel-space transfers are modelled.
- Uio.Request.UioMoveZeros: the static block of zeros is apart from the buffers.
- Uio.Request.MakeCalls: the blocks the kernel hands to the calls are apart from the buffers; a single call on any block is UioMove.
- Atoi.PrintThenRead: the buffer has at least one byte; with none snprintf stores no text.
- Overflow of printf's int counters (character count, field width), and formats whose arguments do not match, for which Render has no value.
- pseudorand_read, which cuts bytes out of the values.
- lock_ and cv_ functions, addrspace.c, file descriptors and proc.c, the VFS and device code: stubs, unsettled accounting, or unseen hardware.
- The remaining millicode, string and array functions, bswap.c and asst1/math.c: they would only add easy members or repeat a technique.
