# A verified model of the teaching kernel

These Dafny modules model the process scheduler with its semaphores, the inode file system with its
open-file layer, the sector copies and program loader, and the number printer and scanner of the
kernel. `dafny verify dfyconfig.toml` checks everything.

## How it is built

**Scheduler and semaphores.** `SchedModel` describes the kernel state as a value `Sys`: the PCB table,
the four lists as sequences of indices, `current`, `p_num`, the semaphore values and `intr_nesting`.
Every interrupt handler is one function on it, since handlers run with interrupts off.
`SchedInvariant` holds the invariant and the events; a run is any sequence of timer ticks, keyboard
waits and system calls. `SchedRuns`, `SchedTheorems` and `SemTheorems` prove what holds over every run:
partition of the PCBs, bounded waiting, exact sleeping times, process accounting, semaphore counting,
mutual exclusion, FIFO wake-up. `SchedLaws` proves who has the CPU for how long and what stays with a
process, `SchedOrder` that every list is first come, first served. `SchedWitness` has runs from boot in which guarantees run out. `Lists` and
`Scheduler` are the code in its own form: `PCB` objects threaded through their `next` fields, with methods
that follow the C functions line by line. Each method ends in the state its function in `SchedModel` gives,
so the theorems speak about the linked lists.

**File system.** `CStrings` has the string loops; `Paths` has the two ways of splitting a path. `FsModel`
describes the inode table as a value. `FsTree` defines the tree invariant, which removals and the reuse of
inodes keep, and proves that paths are unique; `FsRecords` has the entries as bytes of a block; `FsGrowth`, `FsPaths` and `FsRemoval` prove what one
creation or removal does to every lookup, `FsScan` what the counting scan does to the entry table. `FsRuns`
proves that every run of creations, of names taken or not, and of removals refines a map from paths to
sequences of inodes of which the first counts, and `FsContents`, with writes, a map from paths to file
contents. `FsLimits` says what happens where the code does not check,
`FsWitness` has the smallest runs that show it. `FileSystem` has the searches and updates as loops over
arrays.

**Open files.** `Descriptors` proves the link-count laws over every run of open, close, fork and exit;
`FileData` proves that an open file is a byte sequence with a position and that processes sharing an
entry append; `FileIo` proves that all who share an entry have one position, in any interleaving. `OpenFiles` holds the system calls over the real tables. `OpenPaths` joins descriptors and
paths: over any run of the system calls on files it says whose contents a write changes; `OpenWitness` has
a run in which that is not the file opened. `Processes` puts scheduler, descriptors and disk together: the
processes whose descriptors count are those whose PCB is not dead, and fork and exit are proved as a whole.

**Disk and numbers.** `Disk` copies whole sectors word by word and proves that byte ranges arrive
exactly; `Loader` reads the ELF header and program headers from the loaded bytes, and is proved against the
layout of the System V ABI, which `Elf` writes out as an encoder. `Numbers` has the recursive
printers and the scanning loops.

## Where the code does less than it seems

Each of these is proved as an exact condition, most of them with a small run that shows it.

- All semaphores share one wait list, so a V on one semaphore can wake a process waiting for another.
  Every semaphore excludes over a run if and only if every wake-up went to a process waiting for the
  semaphore posted (`SemTheorems.ExclusionExactly`), and a caller of V can be sure of that if and only if
  no other semaphore is negative (`ValuesDecide`). `SchedWitness.ExclusionFails` is a run from boot in which
  two processes hold a semaphore of value 1.
- `sem_destroy` leaves the caller without a semaphore pointer: until its next `sem_init` it must not block
  in P, where the code would follow that pointer (`SchedLaws.PsemLaw`, `NoBlockAfterDestroy`).
- `sem_init` empties that list: it keeps the kernel's invariant if and only if nobody waits and the value
  is not negative (`SemTheorems.SemInitExactly`, `SchedWitness.SemInitForgets`).
- `sleep(n)` with n <= 0 does not return at once: the counter has to wrap, so it sleeps 2^32 + n ticks
  (`SchedTheorems.SleepStarts`, `SleepExact`).
- `fork` halts the kernel if and only if `pcb[p_num]` is in use (`SchedRuns.HaltsOnlyInFork`). Over a run
  from boot it works whenever p_num < 10 if and only if only the highest live process ever exits
  (`SchedTheorems.ForkWorksExactly`, `SchedWitness.ForkGap`).
- `makeDir` and `makeFL` do not look for an existing name: the new node is found if and only if no entry of
  its name and type stands in front of the first empty one, and otherwise no lookup changes
  (`FsLimits.FoundIffFirst`, `FrontIsFirst`, `MakeLookups`). A directory that comes first hides whatever was
  below the old one (`ShadowHides`). Where no directory has a hole the condition is that the name was free
  (`FoundIffFresh`, `TakenChangesNothing`, `FirstCreationWins`); `rmFL` leaves holes. `FsWitness.TakenName`,
  `MovedName` and `HiddenBelow` show the three cases.
- A directory made on the inode of a removed file shows the file's bytes as entries: it is empty if and only
  if byte 32 k + 4 of the block is 0 for every k from 2 on, and the table stays a tree if and only if it is
  (`FsTree.EmptyExactlyClean`, `FsRuns.TreeIffClean`, `FsWitness.OldBytesShow`).
- `rmFL` frees the inode of a file that is still open: a write through the descriptor reaches the file at the
  path opened until that is removed, then no path, and from the moment a new file gets the inode that file
  (`OpenPaths.WriteReaches`, `ReachesUntilRemoved`, `OpenWitness.StaleDescriptor`).
- A directory made as `/a` is found as `/a/`: under the path it was made with if and only if that ends
  in a slash (`FsLimits.FoundIffSlash`, `FsWitness.MissingSlash`).
- The forward and the backward way of splitting a path agree if and only if the path has a slash before
  its last character (`Paths.PathsAgree`).
- `rmFL` does not count filenum down. Over a run filenum minus the entries in use is the number of files
  removed from the directory, and a search for a name that is not there reads behind the entry table if
  and only if that is not zero (`FsRuns.RunAhead`, `MissOverruns`, `FsWitness.MissAfterRemoval`); so does `ls`.
- `makeFL` without data leaves filesz alone: the new file is empty if and only if the filesz of its inode
  was 0 (`FsContents.EmptyExactly`, `FsWitness.StaleContent`).
- `lseek` allows negative offsets: from one a read delivers nothing, a nonempty write goes in front of
  the block, and an empty one leaves a size of more than 2^31 (`FileSystem.FileSys.WriteF`, `ReadF`,
  `FileData.EmptyWriteSpoils`).
- `exit` does not close descriptors: an open-file entry can be stuck in use for good, which happens
  if and only if a process exits while naming it (`Descriptors.LeaksStay`, `OneLeak`).
- `scan_dec` reads back `print_dec(n)` if and only if n < 2^31: at a minus sign it stops with 0
  (`Numbers.DecRoundTrip`).

## Model

| member | source | states |
|---|---|---|
| SchedRuns.ReachablePartition | kernel/kernel/irqHandle.c:228-291 | In every state reachable from boot by any run of ticks and system calls each of pcb[1..9] is in exactly one of current, runnable, blocked, free and the wait list, its state names that place, no list holds a PCB twice, idle is on none, and exactly one process is running |
| SchedRuns.RunKeeps | kernel/kernel/irqHandle.c:303-343 | The scheduler invariant holds in every state of every run that starts in it |
| SchedInvariant.StepKeeps | kernel/kernel/irqHandle.c:303-343 | Each of the ten kinds of event keeps the whole invariant: placement, running process with a quantum of 1 to 10, accounts, and waiters matching negative semaphore values |
| SchedInvariant.BootKeeps | kernel/kernel/kvm.c:11-60 | The state set up by initPcb is well placed, preparePCB does not halt in it, and its result has the invariant |
| SchedInvariant.LeaveKeeps | kernel/kernel/irqHandle.c:245-291 | A process giving up the CPU in any state lands on the list of that state and the invariant is whole again after the dispatch |
| SchedInvariant.SchedulePlaced | kernel/kernel/irqHandle.c:245-291 | A dispatch keeps every PCB on exactly the list its state names and leaves one process running with a quantum of 1 to 10, whatever state the caller gave up the CPU in |
| SchedRuns.HaltsOnlyInFork | kernel/kernel/process.c:13-14 | No permitted event halts the kernel, except fork, and that exactly when pcb[p_num] is not on the free list; in particular list_head in V never fails |
| SchedRuns.StepWait | kernel/kernel/irqHandle.c:245-310 | For a runnable process at position k the measure 10 k + timeCount of the current process never grows on any event and falls by exactly one on every tick that is not nested, until the process is dispatched |
| SchedRuns.WaitBound | kernel/kernel/irqHandle.c:245-310 | Along any run in which a runnable process has not been dispatched it is still runnable, and ticks gone by plus its remaining wait are at most its first wait |
| SchedRuns.BoundedWaiting | kernel/kernel/irqHandle.c:245-310 | A process at position k of the runnable list gets the CPU within 10 k + timeCount ticks, which is at most 10 (k + 1) and at most 90 |
| SchedLaws.StepCurrent | kernel/kernel/irqHandle.c:245-310 | The CPU changes hands in a step if and only if its owner exits, sleeps or blocks in P, or is at the last tick of its quantum while somebody is runnable or wakes up; it goes to the head of the runnable list, or to idle when who gives it up leaves nobody, and the new owner, or the old one when alone, has ten ticks |
| SchedLaws.AgeLaw | kernel/kernel/irqHandle.c:245-310 | Over any run timeCount of the current process is 10 minus the real ticks since it was dispatched or its quantum was last renewed, always 1 to 10 |
| SchedLaws.HandOver | kernel/kernel/irqHandle.c:245-310 | Over any run the CPU changes hands exactly at an exit, a sleep, a blocking P, and at the tenth real tick of a quantum if somebody is there to take it |
| SchedLaws.FullQuantum | kernel/kernel/irqHandle.c:245-310 | Over any run a process whose quantum starts, by a dispatch or by a renewal when alone, and that does not give up the CPU is still current after nine more real ticks, and loses it at the tenth exactly if somebody is runnable or wakes up then |
| SchedLaws.StepCounts | kernel/kernel/irqHandle.c:245-310 | No event changes timeCount of a process that has the CPU neither before nor after it and is not just forked |
| SchedLaws.PsemLaw | kernel/kernel/sem.c:25-42 | Over any run the semaphore pointer of a process is the one of its last sem_init, none if a sem_destroy came after that, and if it did neither since the fork that made it, the one its parent had then |
| SchedLaws.PsemFromBoot | kernel/kernel/sem.c:25-42 | From boot, a process that did neither and was not forked has none |
| SchedLaws.NoBlockAfterDestroy | kernel/kernel/sem.c:39-42 | After its sem_destroy and until its next sem_init a process is not allowed a P that would block |
| SchedLaws.ParentLaw | kernel/kernel/process.c:28-33 | Over any run ppid of a process is the process that called the fork that made it |
| SchedLaws.ForkedProcess | kernel/kernel/process.c:13-68 | The child is last in the runnable list, with ten ticks, no time to sleep, its slot as pid, its parent as ppid and its parent's semaphore; nobody else changes |
| SchedLaws.RestedLaw | kernel/kernel/irqHandle.c:228-295 | In every reachable state whoever is not asleep has a sleepTime of 0 |
| SchedLaws.NestingLaw | kernel/kernel/irqHandle.c:169-182 | Over any run interrupts count as nested exactly when the last keyboard wait switched that on |
| SchedLaws.StepNesting | kernel/kernel/irqHandle.c:303-310 | Only a keyboard wait switches it, and a nested tick changes nothing at all |
| SchedLaws.BootState | kernel/kernel/kvm.c:11-60 | At boot idle has the CPU with ten ticks, process 1 is runnable, 2 to 9 are free in order, nobody sleeps or waits, p_num is 2 |
| SchedOrder.QueueStep | kernel/kernel/list.c:6-28 | Every event keeps the order of those who stay in a list, in all four lists, and puts who joins behind them |
| SchedOrder.FirstCome | kernel/kernel/irqHandle.c:228-295 | Over any run, whoever stays in a list stays in front of everybody who was behind or joins later |
| SchedOrder.TickOrder | kernel/kernel/irqHandle.c:228-310 | After a real tick the runnable list has the order: who was runnable, who has just woken up in the order of falling asleep, who lost the CPU |
| SchedOrder.TickTakes | kernel/kernel/irqHandle.c:228-310 | Who gets the CPU at a tick stood in that order in front of everybody who can run after it |
| SchedInvariant.WakeupIsFilter | kernel/kernel/irqHandle.c:228-243 | The traversal, taken turn by turn with each due sleeper unlinked and relinked before the next is looked at, ends where a pure filter of the blocked list ends: every sleeper has lost one, those at zero are at the tail of the runnable list in order, the rest stay in order |
| SchedModel.WakeupTurn | kernel/kernel/irqHandle.c:232-242 | One turn of the loop, which removes the first occurrence of the sleeper from the changed list, extends the filter of the first k sleepers to the first k + 1 |
| SchedTheorems.StepSleep | kernel/kernel/irqHandle.c:228-310 | No event but a tick that is not nested touches a sleeper, and such a tick takes exactly one from its time or wakes it |
| SchedTheorems.SleepStarts | kernel/kernel/process.c:70-75 | After sleep(n) the caller is blocked with n ticks to go if n >= 1, and with 2^32 + n ticks if n <= 0 |
| SchedTheorems.SleepExact | kernel/kernel/irqHandle.c:228-243 | Over any run a sleeper with k ticks to go is asleep until exactly the k-th tick that is not nested and is runnable or running right after it |
| SchedTheorems.StepLife | kernel/kernel/process.c:6-68 | Which processes are alive and what p_num is change only in exit and fork, by exactly the process concerned |
| SchedTheorems.CompactStep | kernel/kernel/process.c:6-68 | When the live processes are 1 to p_num - 1 they are so after an event if and only if it was not the exit of another process than p_num - 1 |
| SchedTheorems.CompactFork | kernel/kernel/process.c:13-14 | When the live processes are 1 to p_num - 1 fork succeeds if and only if p_num < 10 |
| SchedTheorems.ForkNeverHalts | kernel/kernel/process.c:6-68 | Over every run from boot in which only the highest live process exits, fork succeeds exactly while p_num < 10 |
| SchedTheorems.GapHalts | kernel/kernel/process.c:6-14 | When the live processes are 1 to p_num - 1 and another than p_num - 1 exits, the next fork halts although p_num < 10: its slot is alive |
| SchedTheorems.ForkWorksExactly | kernel/kernel/process.c:6-68 | Over every run from boot: fork succeeds in every state with p_num < 10 if and only if every exit is that of the highest live process |
| SchedWitness.ForkGap | kernel/kernel/process.c:6-68 | Such a run from boot: two forks, process 1 exits, and the next fork halts with seven PCBs free |
| SchedTheorems.ReachableBooks | kernel/kernel/process.c:6-68 | In every reachable state p_num plus the length of the free list is 10, dead PCBs are on the free list and every live one has its index as pid |
| SemTheorems.ValueLaw | kernel/kernel/sem.c:6-22 | With any number of semaphores the value of each is its initial value minus the P plus the V calls on it, over every run |
| SemTheorems.ValueSinceInit | kernel/kernel/sem.c:6-37 | After a sem_init with v the value of the semaphore is v minus the P plus the V calls since, over every run |
| SemTheorems.SharedListLaw | kernel/kernel/sem.c:14-37 | In every reachable state the sum of max(0, -value) over all semaphores is the length of the shared wait list, so V never finds it empty, and no value is below -9 |
| SemTheorems.SemInitExactly | kernel/kernel/sem.c:25-37 | sem_init keeps the invariant if and only if nobody waits and the value is not negative |
| SchedWitness.SemInitForgets | kernel/kernel/sem.c:25-37 | In a state reached from boot process 2 waits; after a sem_init it is still blocked and on no list |
| SemTheorems.OwnStep | kernel/kernel/sem.c:14-22 | Keeping book of which semaphore each waiter called P on: each semaphore owes as many wake-ups as it has waiters, and after a step this holds again if and only if a process woken waited for the semaphore posted |
| SemTheorems.OwnRun | kernel/kernel/sem.c:6-22 | Over every run, with any number of semaphores: the books are right throughout if and only if every wake-up went to a process waiting for the semaphore posted |
| SemTheorems.ValuesDecide | kernel/kernel/sem.c:14-22 | What a caller of V can see: whatever the order of the waiters, V(b) wakes one that waits for b if and only if no other semaphore is negative |
| SemTheorems.QuietHits | kernel/kernel/sem.c:14-22 | Over every run in which V never wakes while another semaphore is negative, every wake-up goes to a process waiting for the semaphore posted |
| SemTheorems.StepInside | kernel/kernel/sem.c:6-22 | With any number of semaphores each event keeps, if its wake-up goes where it should: as many processes are past P(a) and not yet at V(a) as the initial value minus the positive part of the present one, and none of them waits for a |
| SemTheorems.MutualExclusion | kernel/kernel/sem.c:6-22 | Over every run in which processes call P(a) from outside and V(a) from inside and no wake-up goes astray, at most the initial value of processes are inside, whatever other semaphores there are |
| SemTheorems.AstrayBreaks | kernel/kernel/sem.c:14-22 | A wake-up that goes to a process waiting for another semaphore puts one process too many past that one |
| SemTheorems.ExclusionExactly | kernel/kernel/sem.c:6-22 | Over every disciplined run all semaphores exclude throughout if and only if every wake-up went to a process waiting for the semaphore posted |
| SchedWitness.ExclusionFails | kernel/kernel/sem.c:6-37 | A state reached from boot and a disciplined run from it with two semaphores of value 1: V(b) lets a second process past P(a), without any V(a) |
| SemTheorems.FifoWakeup | kernel/kernel/sem.c:14-22 | The waiter at position j stays at j minus the wake-ups so far and is put at the tail of the runnable list by exactly the (j+1)-th wake-up |
| SemTheorems.OwnFifo | kernel/kernel/sem.c:14-22 | With any number of semaphores and no wake-up going astray: a process waiting for a behind m others that wait for a stays on the list until exactly the (m+1)-th V(a), which puts it at the tail of the runnable list |
| SemTheorems.WokenRuns | kernel/kernel/irqHandle.c:245-310 | The woken waiter runs within the round-robin bound of the runnable list it joined |
| Lists.LinkedNoDup | kernel/kernel/list.c:6-28 | A chain of next fields that ends in NULL visits no node twice |
| Lists.ListAdd | kernel/kernel/list.c:6-11 | The node becomes the last of the chain and only the old tail and the node are written |
| Lists.ListDelete | kernel/kernel/list.c:13-22 | The chain loses exactly its first occurrence of the node; the kernel halts, with nothing changed, if and only if the node is not on it |
| Lists.ListHead | kernel/kernel/list.c:24-28 | The first node, or a halt if and only if the list is empty |
| Scheduler.Kernel.Schedule | kernel/kernel/irqHandle.c:245-295 | On the linked PCBs: all four chains, every PCB field and current become what the abstract dispatch says |
| Scheduler.Kernel.First | kernel/kernel/list.c:24-28 | On each of the four lists of the kernel: the PCB of the first process on the list, or a halt if and only if the list is empty |
| Scheduler.Kernel.TryToWakeup | kernel/kernel/irqHandle.c:228-243 | The loop that unlinks and relinks while it traverses computes the filter of the blocked list |
| Scheduler.Kernel.TimerHandle | kernel/kernel/irqHandle.c:303-310 | One tick on the linked PCBs is one abstract tick, with the invariant kept |
| Scheduler.Kernel.ExitAux | kernel/kernel/process.c:6-11 | exit puts the caller on the free list, counts it off and dispatches |
| Scheduler.Kernel.SleepAux | kernel/kernel/process.c:70-74 | sleep stores the time, blocks the caller and dispatches |
| Scheduler.Kernel.ForkAux | kernel/kernel/process.c:13-68 | The PCB part of fork: succeeds exactly when the abstract fork does, with its result, and otherwise leaves everything unchanged |
| Scheduler.Kernel.SemWaitAux | kernel/kernel/sem.c:6-12 | P decrements the value and, when it becomes negative, puts the caller on the list of the semaphore its psem points to |
| Scheduler.Kernel.SemPostAux | kernel/kernel/sem.c:14-22 | V increments the value, wakes the head of the wait list when the value was negative, and never halts under the invariant |
| Scheduler.Kernel.SemInitAux | kernel/kernel/sem.c:25-37 | sem_init on the real lists, and that it keeps the invariant if and only if nobody waited and the value is not negative |
| Scheduler.Kernel.SemDestroyAux | kernel/kernel/sem.c:39-42 | sem_destroy clears the psem of the caller and keeps the invariant |
| Scheduler.Kernel.InitPcb | kernel/kernel/kvm.c:11-60 | Whatever memory held, the lists and PCBs are those of the abstract initial state, except that idle keeps its ppid, which is not set |
| Scheduler.Kernel.PreparePCB | kernel/kernel/kvm.c:128-151 | pcb[1] becomes the only runnable process, the check of its pid succeeds, the kernel does not halt, and the invariant holds |
| Scheduler.Kernel.Handle | kernel/kernel/irqHandle.c:303-343 | Every interrupt on the linked PCBs is a step of the abstract machine, and halts exactly when that has none; so all theorems about runs apply to the code |
| CStrings.Strlen | kernel/kernel/lib.c:6-11 | The length of the text in front of the first NUL |
| CStrings.Strcpy | kernel/kernel/lib.c:13-23 | The destination holds the same text and nothing behind its NUL changes |
| CStrings.Strcmp | kernel/kernel/lib.c:25-39 | The sign of the lexicographic order of the two texts, characters being signed bytes |
| CStrings.CompareZero | kernel/kernel/lib.c:25-39 | The comparison is 0 if and only if the texts are equal |
| CStrings.CompareOrder | kernel/kernel/lib.c:25-39 | The comparison is antisymmetric and transitive |
| CStrings.CompareMeans | kernel/kernel/lib.c:25-39 | -1 if and only if the first text comes before the second: they agree up to a place where it ends or has the smaller signed character; 1 if and only if the second comes before the first |
| Paths.SplitJoin | kernel/kernel/fs.c:15-47 | The components peeled off in front together with what is left are the path; each peeled component has one slash, at its end |
| Paths.ForwardIsBackward | kernel/kernel/fs.c:36-68 | Peeling until the last level leaves exactly the suffix the backward search returns, for every path |
| Paths.PathsAgree | kernel/kernel/fs.c:15-68 | Lookups, which drop the root first, and creation, which does not, agree on the last name if and only if a slash stands before the last character |
| Paths.LastLevel | kernel/kernel/fs.c:36-47 | The counting loop decides whether no slash stands before the last character |
| Paths.GetLastLevelName | kernel/kernel/fs.c:49-68 | The backward loop returns the suffix behind the last slash that is not the final character |
| FsPaths.StoredParts | kernel/kernel/fs.c:245-317 | The name a creation stores and the parents it uses are those a later lookup of the stored path peels off |
| FsPaths.CopiesGrown | kernel/kernel/fs.c:245-317 | After a node is added, whether or not its name is taken, its path has the new inode among those it stands for, at the place of the first empty entry; a directory that comes first takes all paths below it, where only its dots are then; every other path of either type is as before |
| FsTree.FormattedTree | kernel/kernel/fs.c:345-358 | makeRootDir on zeroed storage gives a tree of one inode, with different names and an exact filenum |
| FsTree.WalkInjective | kernel/kernel/fs.c:165-220 | In a tree a directory is reached through one sequence of names only |
| FsTree.LookupInjective | kernel/kernel/fs.c:165-220 | In a tree two different paths never name the same inode |
| FsTree.Reachable | kernel/kernel/fs.c:245-317 | In a tree whose names differ every inode in use other than the root is found by looking up some path with its type |
| FsTree.EmptyExactlyClean | kernel/kernel/fs.c:270-276 | With the 32-byte records of the block read as entries, a directory made on any inode has its two dots and nothing else if and only if byte 32 k + 4 of the old block is 0 for every k from 2 on |
| FsRecords.BlockRead | kernel/include/x86/fs.h:33-52 | A block written as 1024 entries of 32 bytes, a little-endian inode number and a name with zeros behind it, is read as those entries |
| FsGrowth.GrownTree | kernel/kernel/fs.c:245-317 | Adding a node on any free inode keeps the tree, whether or not its name is taken: one entry for each inode in use, no cycle of directories, ".." leading back, filenum at least the entries in use |
| FsGrowth.GrownDistinct | kernel/kernel/fs.c:245-317 | If the name was not found in the directory the names in each directory stay different |
| FsGrowth.GrownPacked | kernel/kernel/fs.c:235-268 | If no directory had holes the new entry is entry filenum, and the entries in use are again the first filenum ones |
| FsGrowth.FindGrown | kernel/kernel/fs.c:264-268 | A search of an old directory finds what it found before, except that the parent gives the new inode for its name and type if and only if no matching entry stands in front of it |
| FsGrowth.WalkGrown | kernel/kernel/fs.c:165-197 | A new directory that comes first in its parent is where its name leads from then on, and no walk passes through it to anything old; every other walk ends where it ended |
| FsRuns.MakeStep | kernel/kernel/fs.c:245-317 | One makeDir or makeFL, of a name that is taken or not, also after removals: the tree is kept, the new inode joins those of its path at the place of the first empty entry, a directory that comes first hides what was below, every other path stands for the inodes it stood for |
| FsRuns.TreeIffClean | kernel/kernel/fs.c:245-284 | makeDir keeps the tree if and only if the block of the inode it takes shows no old bytes as entries |
| FsRuns.CreateStep | kernel/kernel/fs.c:245-317 | One makeDir or makeFL of a name that is not found keeps the tree and the different names, and adds to the lookups its path and its dots |
| FsRuns.RunRefines | kernel/kernel/fs.c:70-358 | After any run of makeRootDir, makeDir, makeFL and rmFL, names taken or not and inodes of removed files being used again as files or directories, the table is a tree, and each path of either type stands for the sequence of inodes that the map has for it |
| FsRuns.RunLookup | kernel/kernel/fs.c:106-220 | After any such run each lookup gives the first inode the map has for the path, and none where it has none |
| FsRuns.FreshRun | kernel/kernel/fs.c:245-343 | If the run only makes what is not found, names differ in each directory and a path stands for one inode at most |
| FsRuns.RunAhead | kernel/kernel/fs.c:245-343 | After any such run filenum of each directory minus its entries in use is the number of rmFL calls on files in it |
| FsRuns.MissOverruns | kernel/kernel/fs.c:199-219 | After any such run the search of a directory for a name that is not in it reads behind the entry table if and only if a file was ever removed from that directory |
| FsScan.ScanExactly | kernel/kernel/fs.c:199-219 | The counting loop overruns the table if and only if nothing matches and filenum exceeds the entries in use; while filenum is not too small it finds exactly the first match, and reports a miss only if filenum is exact |
| FsWitness.MissAfterRemoval | kernel/kernel/fs.c:199-343 | A new file system, /a made and removed: the lookup of /b overruns the table |
| FsContents.CreateContents | kernel/kernel/fs.c:286-317 | A creation puts its data at its path and changes the contents at no other; made without data the file shows what its inode held last |
| FsContents.EmptyExactly | kernel/kernel/fs.c:305-309 | A file made without data is empty if and only if the filesz of its inode was 0 |
| FsContents.GapOfNewFile | kernel/kernel/fs.c:305-309 | A write behind the end of a file just made with data shows, between the two, a zero byte and what the block held before |
| FsWitness.StaleContent | kernel/kernel/fs.c:286-343 | /a made with one byte and removed, /b made without data: /b holds that byte |
| FsContents.WriteContents | kernel/kernel/fs.c:360-372 | A write through the file system keeps the tree and changes the contents at exactly one path |
| FsContents.RemoveContents | kernel/kernel/fs.c:319-343 | A removal takes one path away and changes the contents at no other |
| FsContents.RunHolds | kernel/kernel/fs.c:245-372 | Over any run of creations, of names taken or not, writes and removals the file system is the store: each path stands for its inodes and each inode that is no directory holds what was last put into it, whatever file it belonged to |
| FsContents.RunContents | kernel/kernel/fs.c:245-372 | After any such run each path holds the contents the store has for it, and no file exists where it has none |
| FsLimits.MakeLookups | kernel/kernel/fs.c:235-317 | Every lookup after a makeDir or makeFL in any tree: if no entry of the name and type stands in front of the first empty one, the path leads to the new inode and, for a directory, all paths below it but its dots are gone; all other lookups, and otherwise all lookups, are as before |
| FsLimits.FoundIffFirst | kernel/kernel/fs.c:235-317 | In any tree, with holes or without, the new node is found under its path if and only if no entry of its name and type stands in front of the first empty one, and otherwise that path leads where it led |
| FsLimits.FrontIsFirst | kernel/kernel/fs.c:235-243 | That condition in terms of the table: no entry before the one getAvlDirdata returns matches the name and the type |
| FsLimits.ShadowHides | kernel/kernel/fs.c:245-284 | A directory that comes first under a name that is taken makes every proper path below it disappear |
| FsLimits.OutcomeExactly | kernel/kernel/fs.c:245-317 | makeDir refuses if and only if every inode is in use or the parent is missing, and halts if and only if otherwise every entry of the parent is in use; makeFL halts in all three cases and creates in all others |
| FsLimits.TakenChangesNothing | kernel/kernel/fs.c:286-317 | Where no directory has a hole, creating a name that exists uses an inode and an entry and changes no lookup |
| FsLimits.FirstCreationWins | kernel/kernel/fs.c:245-317 | After any run without removals in which names may be taken any number of times, every path leads to what was made first under it |
| FsWitness.TakenName | kernel/kernel/fs.c:286-343 | /a made twice: the second file takes an inode and is found under no path, until rmFL of /a, after which /a leads to it |
| FsWitness.MovedName | kernel/kernel/fs.c:235-343 | /a and /b made, /a removed, /b made again: the second /b gets the entry in front of the first, and /b leads to another inode than before |
| FsWitness.HiddenBelow | kernel/kernel/fs.c:235-343 | /a, the directory /d and /d/x made, /a removed, /d made again in the free entry: /d/x is no longer found |
| FsWitness.OldBytesShow | kernel/kernel/fs.c:270-276 | A file of 69 letters made and removed, a directory made on its inode: behind the dots there is an entry that nobody made |
| FsLimits.FoundIffFresh | kernel/kernel/fs.c:245-317 | Where no directory has a hole, the new node is found under its path if and only if the name was free |
| FsLimits.FoundIffSlash | kernel/kernel/fs.c:256-262 | A new directory is found under the path given if and only if that path ends in a slash |
| FsWitness.MissingSlash | kernel/kernel/fs.c:256-262 | makeDir of /d makes a directory that is found as /d/ and not as /d |
| FsRemoval.UnnameRemoves | kernel/kernel/fs.c:324-340 | The removal loop, which compares names only, empties the entry of the file that was found |
| FsRemoval.RemoveStep | kernel/kernel/fs.c:319-343 | Any number of removals: each keeps the tree and takes from one path the inode it leads to, so that the path leads to the next inode made under it, or to none where names differ; every other path stands for the inodes it stood for |
| FsRemoval.RemovedCounts | kernel/kernel/fs.c:319-343 | A removal leaves filenum of every directory as it was, while one directory has an entry less |
| FsRemoval.DistinctOnce | kernel/kernel/fs.c:199-219 | Where names differ in each directory a path stands for one inode at most, so removing it leaves nothing there |
| FileSystem.FoundReady | kernel/kernel/fs.c:165-220 | Also after removals every lookup of a path that exists stays inside the tables |
| FileSystem.MissReady | kernel/kernel/fs.c:199-219 | The lookup of a file that is missing from its directory stays inside the tables if and only if filenum of that directory is exact |
| FileSystem.ExactReady | kernel/kernel/fs.c:70-220 | Where filenum is exact in the directories on the way every lookup, of existing and missing names, stays inside the tables |
| FileSystem.PackedExact | kernel/kernel/fs.c:245-317 | Without removals filenum is exact in every directory |
| FileSystem.FileSys.GetAvlInode | kernel/kernel/fs.c:5-13 | The first inode that is not in use, -1 if there is none |
| FileSystem.FileSys.GetTopDir | kernel/kernel/fs.c:15-33 | The path up to its first slash, and its length as offset |
| FileSystem.FileSys.ScanDir | kernel/kernel/fs.c:199-219 | The loop over the real table ends as the abstract scan does: found, missing, or behind the end of the table |
| FileSystem.FileSys.FindUpperDirPos | kernel/kernel/fs.c:70-104 | The inode of the parent directory of a path, -1 if that directory is missing |
| FileSystem.FileSys.FindCurrentDirPos | kernel/kernel/fs.c:106-162 | The directory a path names, -1 if there is none, and a halt exactly when a parent is missing |
| FileSystem.FileSys.FindCurrentFLPos | kernel/kernel/fs.c:165-220 | The file a path names, -1 if there is none, and a halt exactly when a parent is missing |
| FileSystem.FileSys.GetAvlDirdata | kernel/kernel/fs.c:235-243 | The first empty entry of a directory, -1 if it is full |
| FileSystem.FileSys.MakeDirectory | kernel/kernel/fs.c:245-284 | The whole table afterwards: the new directory with its dots in front of whatever the records of its block say, and its entry in the parent, a refusal without inode or parent, a halt when the parent is full, nothing else written |
| FileSystem.FileSys.MakeFile | kernel/kernel/fs.c:286-317 | The whole table afterwards: the new file with data and size, or with both as they were when no data is given, its entry in the parent, a halt in the three failing cases |
| FileSystem.FileSys.RemoveFile | kernel/kernel/fs.c:319-343 | The whole table afterwards: one entry emptied and the inode marked available, filenum and the inode untouched |
| FileSystem.FileSys.MakeRootDir | kernel/kernel/fs.c:345-358 | Zeroed storage becomes a formatted file system |
| FileSystem.FileSys.WriteF | kernel/kernel/fs.c:360-372 | The bytes at the offset are the buffer and all others as before, filesz is the larger of itself and the end written, the kernel halts exactly at the size limit, and exactly a nonempty write from a negative offset leaves the block; an empty one there sets a huge filesz |
| FileSystem.FileSys.ReadF | kernel/kernel/fs.c:379-387 | The slice of the file that starts at the offset, cut off at filesz; nothing from a negative offset |
| FileSystem.FileSys.Ls | kernel/kernel/irqHandle.c:73-87 | The loop stays inside the table if and only if filenum does not exceed the entries in use, and lists exactly the names in use behind the dots when it is exact |
| FileSystem.NamesInOrder | kernel/kernel/irqHandle.c:73-87 | The names listed are those of the entries in use, in their order: a table in two parts gives the names of the first part, then those of the second |
| FileData.WrittenContent | kernel/kernel/fs.c:360-372 | Writing replaces the part of the contents under the buffer, extends them if need be and keeps the rest |
| FileData.StepRefines | kernel/kernel/irqHandle.c:136-226 | Write, read and lseek on an inode and an offset do to the abstract byte sequence and position exactly what they should, and deliver the same bytes; reads and seeks from any offset, in the file or not |
| FileData.RunRefinesFile | kernel/kernel/irqHandle.c:136-226 | Over any sequence of reads and seeks to anywhere and writes that start in the file, all bytes read, the final contents and the final position are those of a byte sequence with a position |
| FileData.ReadThenAppend | kernel/kernel/irqHandle.c:136-209 | After a seek behind the end a read delivers nothing, and a write after it appends directly to the old contents |
| FileData.WriteLeavesGap | kernel/kernel/irqHandle.c:136-226 | Without that read the write leaves a gap that shows whatever the block held there |
| FileData.EmptyWriteSpoils | kernel/kernel/fs.c:360-372 | A write of nothing at a negative offset leaves a size of at least 2^31, and a read behind the block then delivers a byte |
| FileIo.ReadBack | kernel/kernel/irqHandle.c:136-226 | What was written is read back after a seek to where it was written, and the bytes in front of and behind it are as before |
| FileIo.WritesJoin | kernel/kernel/irqHandle.c:136-146 | Two writes in a row are one write of both buffers |
| FileIo.ReadsJoin | kernel/kernel/irqHandle.c:196-209 | Two reads in a row deliver what one read of both lengths does and end at the same position |
| FileIo.Seeks | kernel/kernel/irqHandle.c:212-226 | Seeks go to an offset from the start, the position or the end of the file, from wherever the position was |
| FileIo.OpRefines | kernel/kernel/irqHandle.c:136-226 | A write, read or lseek through a descriptor is that operation on the file of the open-file entry, position included |
| FileIo.SharedFile | kernel/kernel/irqHandle.c:100-226 | In any interleaving of reads, writes and seeks through one open-file entry, by all who share it, with any other opens, closes, forks, exits, reads, writes and seeks, as long as its last link is not closed and nobody writes the file through another entry: bytes delivered, contents and position are those of a byte sequence with a position on which those operations are done in order |
| FileData.SharedAppend | kernel/kernel/irqHandle.c:100-162 | In any interleaving of writes, opens, closes, forks and exits by any processes, as long as an entry at the end of a file is not moved otherwise and keeps a descriptor and no other entry writes the file, the file becomes its old contents followed by all buffers written through the entry in order |
| FileData.ForkAppends | kernel/kernel/process.c:17-26 | fork, then a write by the child and one by the parent through the same descriptor: the file is its old contents, then the buffer of the child, then that of the parent |
| FileData.WriteOnePath | kernel/kernel/fs.c:360-372 | Writing to a file changes the contents at its path only, and no lookup |
| OpenPaths.WriteThrough | kernel/kernel/fs.c:360-372 | A write to an inode changes the contents at the paths that lead to it, at no other path, and no lookup of a file |
| OpenPaths.DescriptorWrite | kernel/kernel/irqHandle.c:136-146 | A write through a descriptor changes the contents at a path if and only if the path leads to the inode of the open-file entry |
| OpenPaths.CallsKeepTree | kernel/kernel/irqHandle.c:100-226 | Over any run of open, remove, close, fork, exit, read, lseek, write and creations the table stays a tree with different names, writes through descriptors of removed files included |
| OpenPaths.OwnerHolds | kernel/kernel/fs.c:286-343 | Over any such run an inode is found at exactly one path or none: the one of the last file made on it, until that is removed |
| OpenPaths.WriteReaches | kernel/kernel/irqHandle.c:100-167 | Over any such run: a write through the entry an open made, by any process that shares it and as long as its last link is not closed, changes the contents at the path that has the inode by then, by the buffer at the offset, and at no other path |
| OpenPaths.ReachesUntilRemoved | kernel/kernel/irqHandle.c:100-167 | That path is the one opened if it was not removed since, and there is none if it was and no file was made on its inode again |
| OpenPaths.OpenStarts | kernel/kernel/irqHandle.c:100-123 | open returns the lowest closed descriptor from 3 to 7, and its position is the first byte of the file at the path |
| OpenPaths.FirstRead | kernel/kernel/irqHandle.c:100-209 | A read of len bytes right after open delivers the first len bytes of the file at the path, or all if it has fewer |
| OpenPaths.FirstWrite | kernel/kernel/irqHandle.c:100-146 | A write right after open replaces the file at the path from its first byte on |
| OpenPaths.OpenedInRun | kernel/kernel/irqHandle.c:100-123 | That holds for every open in any run: all files have a size within their block |
| OpenWitness.StaleDescriptor | kernel/kernel/irqHandle.c:100-167 | A run of such calls: open /d/x, remove it, open /b, write through the descriptor of /d/x: the byte is in /b |
| Descriptors.OpenKeeps | kernel/kernel/irqHandle.c:100-123 | open keeps the link counts equal to the live descriptors plus those leaked, and fp_num equal to 3 plus the open descriptors |
| Descriptors.CloseKeeps | kernel/kernel/irqHandle.c:149-162 | close keeps the same laws and frees the entry exactly when its last link goes |
| Descriptors.ForkKeeps | kernel/kernel/process.c:15-26 | fork keeps the same laws with every inherited descriptor counted |
| Descriptors.ExitKeeps | kernel/kernel/process.c:6-11 | exit keeps the same laws with the descriptors still open counted as leaked |
| Descriptors.RunKeepsDesc | kernel/kernel/irqHandle.c:53-162 | These laws hold over every run of open, close, fork and exit |
| Descriptors.DescriptorSafety | kernel/kernel/irqHandle.c:53-162 | Over every such run no live descriptor names a free entry, every link_num is at least the number of live descriptors naming its entry, and equals it exactly when none leaked |
| Descriptors.LeaksStay | kernel/kernel/process.c:6-11 | An entry has leaked if and only if some process exited still naming it, and a leaked entry is never free again |
| Descriptors.OneLeak | kernel/kernel/process.c:6-11 | open and exit: the entry keeps one link while no live descriptor names it |
| OpenFiles.FileLayer.InitFiles | kernel/kernel/kvm.c:13-46 | No entry in use and no descriptor open, with fp_num 3 |
| OpenFiles.FileLayer.GetAvlFilepointer | kernel/kernel/irqHandle.c:53-61 | The first closed descriptor from 3 on, -1 if there is none |
| OpenFiles.FileLayer.GetAvlSystemFile | kernel/kernel/irqHandle.c:63-71 | The first free entry, -1 if there is none |
| OpenFiles.FileLayer.FindOrMake | kernel/kernel/irqHandle.c:100-107 | Also after removals, wherever its search stays inside the tables: a file that exists is left alone; one that does not is created in one step that keeps the tree, and the kernel halts if and only if it needs creating and an inode, its parent or room in the parent is missing |
| OpenFiles.FileLayer.OpenInode | kernel/kernel/irqHandle.c:108-123 | A new entry at offset 0 with one link and a new descriptor for it, or a halt exactly when either table is full |
| OpenFiles.FileLayer.OpenAux | kernel/kernel/irqHandle.c:100-123 | Also after removals, open as a whole succeeds if and only if both tables have room and the file exists or can be made; the file is there afterwards, at the same inode if it was before, and the descriptor returned names it; this is the open step of the runs in OpenPaths |
| OpenFiles.FileLayer.OpenReady | kernel/kernel/irqHandle.c:100-107 | The search of open stays inside the tables for every file that exists, for every path where no directory lost a file, and for a file missing from its directory if and only if filenum of that directory is exact |
| OpenFiles.FileLayer.CloseAux | kernel/kernel/irqHandle.c:149-162 | The real tables after close are those of the abstract step, with the link-count laws kept |
| OpenFiles.FileLayer.ForkFiles | kernel/kernel/process.c:15-26 | The loop over the parent's descriptors copies them all and adds a link for each open one |
| OpenFiles.FileLayer.WriteAux | kernel/kernel/irqHandle.c:136-146 | A write is the abstract write on the file behind the descriptor, offset included, and a step of the runs in FileIo; a halt with nothing changed exactly at the size limit, and outside the block exactly for a nonempty buffer at a negative offset |
| OpenFiles.FileLayer.ReadAux | kernel/kernel/irqHandle.c:196-209 | A read delivers the bytes of the abstract read and sets the offset it says, moving it back to filesz from behind the end; it is a step of the runs in FileIo |
| OpenFiles.FileLayer.LseekAux | kernel/kernel/irqHandle.c:212-226 | lseek sets the offset of the abstract seek, is a step of the runs in FileIo, and halts exactly for an unknown whence |
| Processes.System.Start | kernel/kernel/kvm.c:11-60 | initPcb and preparePCB on zeroed file tables: scheduler and descriptors are both in their invariants and agree on which processes are alive |
| Processes.System.Fork | kernel/kernel/process.c:13-68 | fork on PCBs, lists and file tables together is the abstract fork of both halves, or a halt with nothing changed exactly when pcb[p_num] is in use, and keeps all invariants |
| Processes.System.Exit | kernel/kernel/process.c:6-11 | exit writes the image to the disk, dispatches, and leaves every descriptor open and its links counted |
| Processes.System.Close | kernel/kernel/irqHandle.c:149-162 | close by the running process keeps all invariants and leaves the scheduler alone |
| Processes.System.Open | kernel/kernel/irqHandle.c:108-123 | the table part of open by the running process, with all invariants kept and a halt exactly when a table is full |
| Processes.System.Other | kernel/kernel/irqHandle.c:303-343 | Every other interrupt is an abstract step that always exists, and neither the descriptors nor who is alive change |
| Processes.System.LiveDescriptorsName | kernel/kernel/irqHandle.c:53-162 | On the real tables: an open descriptor of a PCB that is not dead names an entry in use, whose link_num is at least the number of such descriptors |
| Processes.OthersAgree | kernel/kernel/process.c:6-68 | No event but fork and exit changes which processes are alive |
| Disk.Machine.ReadSect | kernel/kernel/disk.c:8-23 | One sector of the disk is in memory and all other bytes are as before |
| Disk.Machine.ReadBytes | kernel/kernel/disk.c:25-35 | Memory from addr holds the bytes wanted, and the only bytes changed are those of the rounded sector range, which hold what the disk has there |
| Disk.Machine.WriteSect | kernel/kernel/disk.c:37-52 | One sector of memory is on the disk and all other bytes are as before |
| Disk.Machine.WriteBytes | kernel/kernel/disk.c:54-64 | The disk holds the memory range rounded up to sectors, and the kernel halts exactly for an unaligned position |
| Disk.Machine.MemSet | kernel/kernel/kvm.c:121-126 | Exactly the bytes of the range are set |
| Disk.Machine.WriteBack | kernel/kernel/fs.c:374-377 | The image on the disk is the image in memory and no other byte of the disk changes |
| Disk.Machine.LoadFS | kernel/kernel/kvm.c:175-180 | The image in memory is the image on the disk and no other byte of memory changes |
| Disk.Machine.Reboot | kernel/kernel/kvm.c:175-180 | writeBack and then loadFS restores the whole image although memory was lost in between |
| Loader.LoadSegment | kernel/kernel/kvm.c:166-168 | One segment is in memory: its file bytes, then zeros up to its memory size; nothing outside its rounded range changes |
| Loader.HeaderDecoded | kernel/include/x86/io.h:27-43 | From the first 4096 bytes of any executable laid out as the ABI says the loader reads the entry point, the position and the number of program headers that it was written with |
| Loader.SegmentDecoded | kernel/include/x86/io.h:46-55 | And from each program header the type, offset, physical address, file size and memory size it was written with |
| Loader.EncodedProgram | kernel/kernel/kvm.c:153-173 | What loading asks for, in terms of the program headers of the executable |
| Loader.LoadUMain | kernel/kernel/kvm.c:153-173 | When the rounded ranges of the loadable segments are disjoint from each other and from the header buffer, all of them are in memory at the end; if the disk holds an executable laid out as the ABI says, the entry point is the one in its header, and each PT_LOAD segment has its filesz bytes of the file at paddr and zeros behind them up to memsz |
| Numbers.NumeralUnique | lib/syscall.c:163-184 | A value has one numeral without leading zeros, so the printed text is determined by the value |
| Numbers.NumeralPlaces | lib/syscall.c:163-184 | Counted from the right, place k of a numeral shows digit k of the number, as one of 0123456789abcdef, and no digit is missing in front |
| Numbers.DigitTable | lib/syscall.c:97-184 | The characters printed and scanned as digits are these sixteen and no others |
| Numbers.LeastNumeral | lib/syscall.c:165-168 | The text of the special case is the numeral of -2^31 |
| Numbers.PrintedApart | lib/syscall.c:163-184 | Two different 32-bit numbers are never printed alike |
| Numbers.Printer.PrintDec | lib/syscall.c:163-177 | Appends the signed decimal numeral without leading zeros, for every 32-bit argument |
| Numbers.Printer.PrintHex | lib/syscall.c:179-184 | Appends the hexadecimal numeral without leading zeros |
| Numbers.ScanDigits | lib/syscall.c:97-126 | Any blanks, space or newline, then any digit string and a terminator are scanned to the value of the digits modulo 2^32, the terminator being consumed |
| Numbers.Scanner.ScanDec | lib/syscall.c:97-110 | The loop returns the value of the decimal digits ahead modulo 2^32 and leaves exactly what follows the terminator |
| Numbers.Scanner.ScanHex | lib/syscall.c:112-126 | The same for hexadecimal digits with small letters |
| Numbers.HexRoundTrip | lib/syscall.c:112-184 | scan_hex reads back what print_hex printed, for every 32-bit number |
| Numbers.DecRoundTrip | lib/syscall.c:97-177 | scan_dec reads back what print_dec printed if and only if the number is below 2^31, and gives 0 otherwise |

## Left out

- Port I/O, interrupt controller, timer, serial line, segment tables, assembly entry code and register contents: hardware; a tick and a system call are abstract events here.
- Trap frames, the copy of user memory in fork, and the pointer shifts for pid 2: address spaces; buffers and semaphores are passed as values.
- The keyboard wait: only that intr_nesting is on or off is modelled, ticks in between do nothing.
- printf and scanf format walking, scan_string, scan_ch and the printers with suffix Q: they repeat what is modelled.
- Screen, cat, stdin and stdout branches of read and write, the flags of open (the code ignores them), boot.c (the same loader), abort.c.
- inuse_inode_num: it is raised twice per creation and read nowhere.
- Overflow of semaphore values, offsets and buffer lengths: these are unbounded integers; sleepTime and the printed and scanned numbers wrap at 32 bits as in the code.
- The slot pcb[0], which the kernel does not use, stands for the separate object idle.
- The words that filesz shares with filenum and the file data with the entries: an inode has one size, and its data is read as entries when it becomes a directory, but from then on entries and data are separate fields.
- File names in the tables are strings and not NUL-terminated arrays, the string functions being proved on arrays in their own module; names must fit their buffers.
- Negative lengths of read and write: lengths are those of sequences.
- A path without a slash, and reading a directory entry of inode -1, which the code leaves undefined.
- The order of the writes inside fork: its writes to list and scheduling fields and its writes to descriptor fields touch different fields and are done one group after the other.
- SchedTheorems.SleepExact: ticks are counted only when not nested, since the code ignores the others.
- SemTheorems.ExclusionExactly: for runs in which no semaphore is initialised on the way; SemTheorems.MutualExclusion only asks that the one it speaks about is not.
- FsRuns.RunRefines: asks for room and existing parents, and that a directory is made on a block that does not show old entries, as FsTree.EmptyExactlyClean says exactly; removals are of files that exist.
- FsContents.RunHolds: the same, and writes that start inside the file or at its end; FileData.WriteLeavesGap says what a later start leaves.
- FsContents.RemoveContents: where names differ; FsContents.RunHolds is about any names.
- OpenPaths.WriteReaches: open searches inside the tables, as OpenReady says, creations are of names that are not found, as open makes them, and a write through the descriptor of a removed file goes to an inode that has not become a directory, whose entries it would overwrite.
- FsLimits.FirstCreationWins: without removals; FsRuns.RunLookup is the general statement.
- FsRemoval.RemoveStep: for files that exist; rmFL of a missing file indexes the table with -1.
- FileSystem.FileSys.RemoveFile: the same.
- FileSystem.FileSys.ScanDir: what the code does with the bytes behind the entry table is not modelled, only that it gets there.
- FileSystem.FileSys.FindCurrentFLPos: for searches that stay inside the tables, as FoundReady, MissReady and ExactReady say.
- FileSystem.FileSys.FindCurrentDirPos: the same.
- FileSystem.FileSys.FindUpperDirPos: at most the last parent may be missing; with an earlier one missing the code goes on from inode -1.
- FileSystem.FileSys.MakeDirectory: the same.
- FileSystem.FileSys.MakeFile: the same; data is a string without a 0 byte and must be below the size limit, which the code does not check.
- FileIo.SharedFile: writes start in the file or at its end; FileData.WriteLeavesGap says what a later start leaves.
- Loader.LoadUMain: for program headers in the first 4096 bytes and segments that fit memory and disk; the code checks neither.
- FileSystem.FileSys.WriteF: what a write in front of the block destroys is not modelled, only that it happens.
- OpenFiles.FileLayer.OpenAux: for searches that stay inside the tables, as OpenReady says.
- Processes.System.Open: for the inode that the first half of open has found or made, which OpenFiles.FileLayer.OpenAux covers.
- Numbers.Printer.PrintDec: the output buffer has room for the numeral; the code does not check.
- Numbers.Scanner.ScanDec: the input holds a character that ends the number; the code would wait for one.
