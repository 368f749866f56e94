# Eclair OS kernel: a verified model

This project models the parts of Eclair OS whose correctness spans many functions or many
interleaved tasks, and proves their properties for all inputs and all runs:

* the scheduler and the life cycle of tasks (`kernel/task.c`, with the loader handshake of
  `kernel/elf.c`): `TaskSpec`, `TaskOwners`, `TaskRuns`, `TaskTheorems`,
  `TaskCalls`, `Tasks`, `TaskMachine`;
* the channel protocol between the window manager and its clients (`kernel/vfs/chnlfs.c`,
  `bin/wm/server.c`, `lib/wm.c`): `ChannelSpec`, `Channels`, `ChannelRuns`, `ChannelCalls`,
  `WindowManager`;
* the kernel heap (`kernel/mm/heap.c`): `HeapSpec`, `HeapRuns`, `HeapFaults`, `HeapLaws`, `Heaps`;
* frames and user address spaces (`kernel/mm/paging.c`, with the loops of `kernel/elf.c` and
  `kernel/task.c` that map and free user pages): `Bits`, `FrameSpec`, `FrameRuns`, `FrameTheorems`,
  `FrameIsolation`, `Frames`;
* block-structured files behind descriptors and the program loader (`kernel/vfs/ramfs.c`,
  `kernel/task.c`, `kernel/elf.c`): `RamFileSpec`, `RamFileRuns`, `RamFileCalls`,
  `RamFileLaws`, `RamFiles`;
* formatting an EcFS volume and allocating its blocks (`tools/mkecfs.c`, `tools/mntecfs.c`):
  `EcfsSpec`, `Ecfs`;
* the closed-form conversion of years and months to seconds (`kernel/driver/rtc.c`): `Rtc`.

Each part has the same three layers. A `...Spec` module gives the C functions as functions on
values, branch by branch. A module with classes (`Tasks`, `Channels`, `Heaps`, `Frames`,
`RamFiles`, `Ecfs`) has the code in place, with its linked blocks, arrays, counters and loops,
and proves every method equal to its function. The lemmas of the other modules are about those
functions, over every sequence of events, and therefore hold of the classes. Three classes go
further: `TaskMachine.Machine` carries out any run of scheduler events on the linked lists,
`RamFiles.Node` any run of the calls on a file, byte by byte, on its blocks, and
`WindowManager.System` has `send_message` and the request part of `server_update` as procedures,
between whose system calls the other participants run.

## How runs are modelled

A scheduler event is one stretch of code between two points where the timer interrupt can
arrive: code under `nlockcli`, or one system call's body between unlock points. The timer
event is enabled whenever `nlockcli` is 0. A task that is not on the CPU resumes where it was
switched away: in `task_block`, in `task_unlockpost`, or at its first entry. Runs start at the
end of boot, with the kernel task idle in its loop (`kernel/main.c:45-50`), init loaded, and
any clock and any rest of a slice; every theorem holds of every world that satisfies the
invariant, wherever it came from. The clock wraps at 2^64. `busy` stands for what the `isheld`
hooks of disk file systems report. `birth`, `verdict`, `exits` and the `pc` of a task are history: they let the theorems say
"its own child" and "that target" although process ids are reused.

Every system call on a channel node is one step, because `kernel/task.c` acquires the node
around it; WAITREAD is two, because it releases the node while it sleeps.

Loading, moving the break and exiting run under the interrupt lock and are one event each in
`FrameRuns`. `task_entry` drops the lock first (`kernel/task.c:565`), so each frame it takes is
two events, one that comes upon a clear bit and one that sets it, with anything of any other task
between them.

Opening, reading and writing a file hold its node but run with interrupts on. Each is a series of
events in `RamFileRuns`: the check and the `fs_open` of an open; the start of a read or write, each
byte of it, its end, and the cursor's advance after the node has been released. Whoever acquires
the node waits; a close in `task_free` (`kernel/task.c:1038`) and the loader (`kernel/elf.c:39`,
`kernel/elf.c:109`) do not, and may come between any two of these.

## What turned out to be false, and when it is true

* **Channel protocol.** A client whose WAITREAD check falls between the server's SETDEST and
  its write finds the channel addressed to itself, and its read then returns no bytes and
  resets the channel; the server's answer goes to the server. `NotEveryRunIsGood` is such a
  run, `ProtocolIff` proves that a run keeps the protocol's promise if and only if no client
  reads in that window, and `EarlyWindow` that exactly those reads return nothing.
* **A lost wake-up.** WAITREAD checks the channel, releases the node and then sleeps; a write wakes
  only a task that sleeps already. `LostIff` proves of every run without an early read that it leaves
  a client asleep with its answer unread if and only if some client went to sleep with the answer
  already there; `StuckForever` that then nobody is served again, whatever anybody does; and
  `AnswerMissed` is such a run of ten calls.
* **Isolation under preemption.** `task_entry` allocates frames with interrupts on, and
  `page_frame_alloc` looks for a clear bit before it sets it. `TwoEntriesCollide` is a run from
  any boot state in which two tasks get one frame for their stacks. `InvIff` proves of every run
  that each frame keeps exactly one holder if and only if no allocation stores a frame that
  somebody holds by then. One that nobody has overtaken between its scan and its store never does,
  and under the lock none is overtaken (`LockedNeverOvertaken`); one that is overtaken does
  (`DoublesShares`) unless the frame has leaked meanwhile, when the late store is harmless
  (`DoublesWhen`, `LateStore`). Between `task_free` and the final block the frames of an exiting
  task can be taken while it still maps them (`ExitExposes`). `IsolationIff` is the exact condition
  for all tasks that are not terminated, those in that window included: no event takes a frame that
  the kernel or one of them holds by then. `ExposedIff` is about the tasks in the window alone.
* **Conservation.** A task that shrinks its break below a page table it once used leaves that
  table's frame behind. `ExitLeaks` gives the exact condition for one exit and `ConservationIff` for
  every run in which no allocation is overtaken, and `LosesATable` is a run from any boot state,
  from creation to exit, that loses a frame. The proviso is needed: once an overtaken allocation
  has given one frame to two holders, either of them frees what the other still holds.
* **sbrk.** `SbrkMoves` says for every 32-bit increment where the break goes: by the increment as long
  as that stays within bounds. Out of bounds nothing changes, unless the sum wraps around and comes
  back into them: `SbrkWrapsUp` gives a task 2 GiB for an increment of -2 GiB.
* **Heap bytes.** kfree gives back all of the block at hand, so that free bytes grow by what was live
  and by the headers merged away (`FreeReturns`). But merging adds up sizes, and a block that is handed
  out keeps no record of the few bytes it did not need: the merged block reaches the end of the freed
  one if and only if there is no such slack before it (`FreeCovers`), and `SlackIsLost` is a run of
  seven calls that loses 12 bytes between two blocks.
* **Heap headers.** `kfree` unmaps the second page of a merged block's own header when that page
  ends before the next block, and reads the header again on the next turn of its loop; `kmalloca`
  fills in a new header before it maps the header's page. `RunIff` proves of every legal sequence
  of calls that no unmapped header is touched if and only if each call is `Safe`, which is when
  neither happens; all else the heap promises holds of the runs that are. `FreeUnmapsItsHeader`
  and `AlignedHeaderUnmapped` are runs of four calls and of one; `WithinAPageIsSafe` shows that
  alignments up to a page cannot fail behind a block in use.
* **Files under interruption.** `SoundIff` proves of every run of any number of tasks, from the
  file's creation on and up to any point where no write is under way: every readable byte is at all
  times the last one written there since the last truncation, reads return nothing else, no cursor
  passes the end and the node counts its openers, if and only if none of three things happens.
  A load truncates the file under a cursor: the loader opens a node that is open already with the
  flags it has, truncation included, and as its load must then fail it never closes it
  (`LoaderTruncatesOpenFile`, `HitExposes`). A load comes between an open's check and its `fs_open`
  and leaves other flags, so that the open is ignored and yet succeeds (`OpenIsMissed`). Or a close
  at exit, or a load that succeeds, frees a block past the end in which an unfinished write has
  stored something (`ExitCutsWrite`: 1100 of 2048 bytes turn into zeros). `WriteLandsIff` says the
  last of one write, `WithinIff` the first two of cursors alone.
* **A file open for nothing.** A node that was first opened for neither reading nor writing can be
  opened by others, whose writes and reads then do nothing although their descriptors allow them:
  `OpenWrites` and `OpenReads` give the exact condition.
* **Opening a file again.** A load that fails leaves the file open. `OpensAgainIff` is about every
  run: once no descriptor of the file is left and no call is under way, any task can ever open it
  again if and only if an open is not refused at that moment (`RefusedForever` is the one half, step
  by step). In a run that misses no open, that is so if and only if no load has failed or the file
  is open for both reading and writing and not for truncation (`SticksIff`); `FailedLoadSticks` says
  which loads leave another mode. `TruncatedStaysShut` is a run of one task after which no run opens
  the file again. A missed open changes the outcome: in `MissedOpenReopens` its close takes away the
  count of the failed load, and the file opens again.
* **TLRM.** The countdown of `genfs` uses the number of counters in a TLRM block where the
  size of an area belongs. `FormattedIff` and `FormatThenAllocate` prove that the TLRM is
  right if and only if the reserved blocks do not exceed that number. `MiscountedDevice` is a
  device of just under 2 GiB that is accepted and for which they do.
* **Years before 1902.** `ytosec` returns 0; from 1902 on it is exact modulo 2^64, also where
  its subtractions wrap around. `Rtc.YToSec` states both.

The documentation in `include/ec.h` says that `ec_pwait` waits without limit when its timeout is
NULL and not at all when it is 0; the code waits 100000 seconds (`kernel/syscall.c:365`) and up to
a tick. The model follows the code and takes the timeout in nanoseconds as given.

## Model

| member | source | states |
|---|---|---|
| Tasks.TaskList.Add | kernel/task.c:72-79 | the links spell out the old list with the task at the end |
| Tasks.TaskList.Remove | kernel/task.c:82-90 | the links spell out the old list without exactly that block |
| Tasks.Scheduler.Switch | kernel/taska.asm:38-74 | needs the lock counter at exactly one and no postponement; changes only who runs |
| Tasks.Scheduler.Schedule | kernel/task.c:334-359 | equals `TaskSpec.Schedule`: postponed, nothing ready, or head of the ready list runs and a running task goes to its end with a full slice |
| Tasks.Scheduler.LockPost | kernel/task.c:382-387 | both counters grow by one |
| Tasks.Scheduler.UnlockPost | kernel/task.c:390-400 | equals `TaskSpec.UnlockPost`: a postponed switch happens now, and the task that resumes drops the lock |
| Tasks.Scheduler.Block | kernel/task.c:403-412 | equals `TaskSpec.Block`: the caller is queued under its reason and another task runs |
| Tasks.Scheduler.Unblock | kernel/task.c:415-431 | equals `TaskSpec.Unblock`: from the list of its state to the end of the ready list; a switch is asked for when nothing was ready |
| Tasks.Scheduler.WakeStep | kernel/task.c:120-174 | one turn of each of the four wake-up loops equals its function |
| Tasks.Scheduler.WakeLoop | kernel/task.c:116-179 | a loop that unlinks the block it stands on visits exactly the tasks queued when it began, each once |
| Tasks.Scheduler.EndSlice | kernel/task.c:182-183 | equals `TaskSpec.EndSlice` |
| Tasks.Scheduler.Tick | kernel/task.c:109-185 | the whole interrupt equals `TaskSpec.Tick`, about which the theorems below speak |
| Tasks.Scheduler.NewTask | kernel/task.c:252-331 | the lowest free id gets a fresh ready task; NULL and no change when the map is full |
| Tasks.Scheduler.Cleanup | kernel/task.c:503-521 | equals `TaskSpec.Cleanup` |
| Tasks.Scheduler.Acquire | kernel/task.c:524-542 | the node is noted, and held at once unless somebody holds it |
| Tasks.Scheduler.Release | kernel/task.c:545-554 | the noted node is given up and no longer held |
| Tasks.Scheduler.SleepUntil | kernel/task.c:434-441 | sleeps unless the time is strictly past |
| Tasks.Scheduler.Get | kernel/task.c:703-708 | NULL or terminated exactly when the target is gone |
| Tasks.Scheduler.Pwait | kernel/task.c:761-777 | returns the stored result with the exited flag when the target is gone, else is set up to wait for it |
| Tasks.Scheduler.Terminate | kernel/task.c:495-498 | the low byte of the exit code is stored under the task's id before anything is freed |
| TaskSpec.WakeAllDecides | kernel/task.c:116-179 | no loop skips or repeats a task: each queued one is decided by the clock, the nodes and the targets as they were |
| TaskSpec.TickTheorem | kernel/task.c:109-185 | after a tick lists partition the tasks, the lock is settled, the clock advanced, and every task is where timers, nodes and exits put it |
| TaskSpec.BlockSwitches | kernel/task.c:403-412 | blocking always hands the CPU to the first ready task, because the kernel task is ready |
| TaskSpec.UnlockPostSwitches | kernel/task.c:390-400 | the interrupt ends with nobody moved or with the first ready task on the CPU |
| TaskSpec.CleanupRemoves | kernel/task.c:503-521 | exactly the terminated tasks lose their ids |
| TaskSpec.NewTaskWF | kernel/task.c:252-331 | creating a task keeps the partition of the lists |
| TaskSpec.TickAdvances | kernel/task.c:181-185 | every tick brings each ready task strictly closer to the CPU |
| TaskSpec.BlockAdvances | kernel/task.c:403-412 | no block makes a ready task wait longer |
| TaskOwners.TickOwners | kernel/task.c:131-144 | the tick hands a free node to exactly one of its waiters |
| TaskRuns.StepKeeps | kernel/task.c:109-781 | every event keeps the invariant: lists, locks, owners, exit codes, loader verdicts |
| TaskTheorems.EveryRunKeeps | kernel/task.c:226-247 | so does every run from the end of boot |
| TaskTheorems.NeverStuck | kernel/task.c:362-374 | in every world an event is possible: the entered child loads, or the timer can arrive |
| TaskTheorems.ListsPartition | kernel/task.c:72-97 | at every step boundary each task but the running one is on exactly one list, that of its state |
| TaskTheorems.LockDiscipline | kernel/task.c:362-400 | the one lock counter is 1 exactly while a task just entered has not left its entry, else 0 |
| TaskTheorems.BlockingSwitches | kernel/task.c:334-412 | a blocking task really loses the CPU, and the switch finds the counter at 1 |
| TaskTheorems.OneOwner | kernel/task.c:524-554 | a node is held exactly while one task owns it, and no two tasks ever own it |
| TaskTheorems.NoIdleWait | kernel/task.c:131-144 | after a tick no task left paused waits for a node that nobody holds |
| TaskTheorems.TimersExact | kernel/task.c:116-129 | a sleeper leaves at the first tick whose clock reaches its wake time, not before; the same for timed waiters |
| TaskTheorems.OnlyTicksWake | kernel/task.c:434-441 | no other event wakes a sleeper, a waiter or a paused task |
| TaskTheorems.WaiterGetsExitCode | kernel/task.c:156-179 | a waiter queued in time is woken by its timeout or with its own target's exit code, though ids are reused |
| TaskTheorems.ExitWakesWaiters | kernel/task.c:168-174 | the first tick after the target's exit wakes the waiter with that code; before, only the timeout does |
| TaskTheorems.OwnChildsVerdict | kernel/elf.c:125-148 | each caller of the loader gets the verdict its own child wrote |
| TaskTheorems.SpinnerSeesOwnChild | kernel/elf.c:140-142 | while a caller spins, `res` is 0 and its child waits to be entered, or `res` holds that child's verdict |
| TaskTheorems.HistoriesOnlyGrow | kernel/elf.c:15-37 | verdicts and exit codes are written once in any run |
| TaskTheorems.BoundedWaiting | kernel/task.c:181-185 | a task at index k of the ready list runs within 5 * (k + 1) delivered ticks |
| TaskTheorems.WaitsAtMostDelay | kernel/task.c:334-359 | the measure behind that bound: 5 ticks for each task ahead and what is left of the running slice |
| TaskCalls.SleepRecords | kernel/task.c:434-441 | a time before the clock changes nothing; any other is recorded as the caller's wake time, and every other task is left as it was |
| TaskCalls.SleepQueues | kernel/task.c:403-441 | the caller is then queued behind the other sleepers with that time; the task that takes the CPU is the only other one that changes |
| TaskCalls.StepNaps | kernel/task.c:116-129 | whatever happens but a poke, it goes on sleeping with that time until a tick finds it queued with the clock at it or past it, which makes it ready |
| TaskCalls.SleepIff | kernel/task.c:116-129 | so over every run: asleep, or about to be, up to exactly that tick |
| TaskCalls.WakesInTime | kernel/task.c:116-129 | which comes once enough ticks have been delivered |
| TaskCalls.PokeShortens | kernel/vfs/chnlfs.c:85-93 | a poke makes the next tick that tick |
| TaskCalls.WaitRecords | kernel/task.c:761-777 | nothing changes when the target is gone; else target and deadline, the clock plus the timeout modulo 2^64, are recorded, and every other task is left as it was |
| TaskCalls.StepWaits | kernel/task.c:156-179 | it goes on waiting until a tick finds it queued with the deadline reached or the target gone, and then has the timeout status or the target's result |
| TaskCalls.WaitIff | kernel/task.c:156-179 | so over every run, up to exactly that tick |
| TaskCalls.GoneGives | kernel/task.c:763-770 | the result returned at once is the exit code of a target that has just exited, with the flag, and the flag alone for an impossible id |
| TaskCalls.ExitRecords | kernel/task.c:495-498 | the exit stores the low byte of the code under the caller's id and changes no other entry and no other task |
| TaskCalls.TakeIff | kernel/task.c:524-542 | the caller owns the node at once if and only if neither a task nor the node's driver holds it, else it is about to pause |
| TaskCalls.PauseQueues | kernel/task.c:524-542 | and then queues behind those that paused before |
| TaskCalls.PauseEnds | kernel/task.c:131-144 | a tick wakes a paused task if and only if it makes it the owner of its node, and never while the node is held; a node that is free finds an owner if anybody waits for it |
| TaskCalls.FirstWaiterGets | kernel/task.c:131-144 | and that is the first in the queue for it |
| TaskCalls.TickPreempts | kernel/task.c:181-185 | a tick takes the CPU away if and only if the slice ends with a task ready, or a task wakes when none was ready; else the slice gets one tick shorter |
| TaskCalls.FullSlice | kernel/task.c:334-359 | whoever gets the CPU gets a full slice |
| TaskCalls.SliceIff | kernel/task.c:181-185 | over every run with others ready: a task that does not block keeps the CPU for exactly the ticks left of its slice |
| TaskMachine.Machine.constructor | kernel/task.c:226-247 | a scheduler in place whose state is the end of boot, for any clock and slices |
| TaskMachine.Machine.Do | kernel/task.c:109-781 | every event of the runs above is carried out by the linked lists and task blocks, the loader's `res` included |
| TaskMachine.Machine.Play | kernel/task.c:109-781 | and so is any run, which makes the theorems about runs hold of the code in place |
| Channels.Channel.constructor | kernel/vfs/chnlfs.c:25-41 | the first opener owns an empty, unlocked slot |
| Channels.Channel.Open | kernel/vfs/chnlfs.c:25-34 | only an opener of an unused node resets the slot |
| Channels.Channel.Read | kernel/vfs/chnlfs.c:44-67 | only the destination gets bytes; reading all of them frees the slot, reading part keeps the head of the message |
| Channels.Channel.Write | kernel/vfs/chnlfs.c:70-96 | refused exactly when another task's message or lock is there; else the clipped message goes to the destination, by default the owner, whose sleep is cut short |
| Channels.Channel.SetDest | kernel/vfs/chnlfs.c:105-111 | refused exactly when a destination is set |
| Channels.Channel.LockW | kernel/vfs/chnlfs.c:134-138 | refused exactly when anyone holds the write lock |
| Channels.Channel.UnlockW | kernel/vfs/chnlfs.c:140-144 | refused exactly when the caller does not hold it |
| ChannelSpec.Read | kernel/vfs/chnlfs.c:44-67 | a full read by the destination returns the whole message and frees the slot; anyone else gets nothing and changes nothing |
| ChannelRuns.ProtocolIff | bin/wm/server.c:432-447 | with any number of clients: one request in flight, nothing overwritten unread, every client reads exactly the answer to its own last request, if and only if no client reads between SETDEST for it and the answer |
| ChannelRuns.StepKeeps | lib/wm.c:25-36 | each system call keeps the protocol's invariant and promise, or is a read in that window |
| ChannelRuns.EarlyWindow | bin/wm/server.c:37-41 | a read returns nothing if and only if the server has set this client as destination and has yet to write; else it returns the answer to the client's last request |
| ChannelRuns.EarlyReadLosesAnswer | bin/wm/server.c:37-41 | after it the client has nothing and every answer goes to the server itself |
| ChannelRuns.NotEveryRunIsGood | bin/wm/server.c:37-41 | a run of eleven calls in which the server ends up reading its own answer |
| ChannelCalls.ExchangeMeans | lib/wm.c:25-36 | send_message with any turns of the others between its calls: it ends with its read and its request was taken exactly once; or the turns run out while it sleeps, its request taken once; or while it writes, having been refused once a turn |
| ChannelCalls.Unanswered | lib/wm.c:25-36 | without an early read, no response means that the request was never taken, has not been answered, or that the client is lost |
| ChannelCalls.TakenAndAnswered | lib/wm.c:25-36 | a request that finds the slot free is taken, and once it is answered the response is read unless the client is lost |
| ChannelCalls.ServingMeans | bin/wm/server.c:432-447 | server_update with any turns of the others between its calls: one look or two, and if one finds a message, the six calls that serve it, once each |
| ChannelCalls.StepLost | kernel/vfs/chnlfs.c:113-121 | a client comes to sleep over its unread answer exactly by going to sleep when the answer is there |
| ChannelCalls.LostIff | kernel/vfs/chnlfs.c:113-121 | so over every run without an early read |
| ChannelCalls.StuckForever | kernel/vfs/chnlfs.c:74-76 | from then on no run wakes it, and no request is taken and no message read |
| ChannelCalls.AnswerMissed | kernel/vfs/chnlfs.c:85-93 | a run of ten calls to that end |
| ChannelCalls.FirstOpens | kernel/vfs/chnlfs.c:25-34 | over any openers in a row, the first owns the slot, and later ones change neither owner nor lock nor message, in the middle of an exchange too |
| ChannelCalls.LockKept | kernel/vfs/chnlfs.c:134-144 | nobody but its holder gets past the write lock or takes it away |
| ChannelCalls.Addressing | kernel/vfs/chnlfs.c:74-111 | a destination that is set stays, by SETDEST and by writes; else it is the one asked for, or the owner |
| ChannelCalls.PiecesIff | kernel/vfs/chnlfs.c:51-59 | a message read in two pieces comes whole if and only if the first is all of it or its beginning repeats |
| WindowManager.System.Call | kernel/vfs/chnlfs.c:44-145 | each participant's system call on the channel in place is the event of that name |
| WindowManager.System.SendMessage | lib/wm.c:25-36 | whatever the others do between its calls: the calls made are exactly those of `ChannelCalls.Exchange`, with a response exactly if they end with its read; what it takes for the response is the server's answer to this very request, or empty exactly if it read in the window |
| WindowManager.System.ServerUpdate | bin/wm/server.c:438-447 | the calls made are exactly those of `ChannelCalls.Serving`; the task served gets the answer to what it asked last, and nobody changes that before the lock is dropped |
| WindowManager.System.Respond | bin/wm/server.c:37-41 | SETDEST and the write deliver the answer to the task whose request was read, interrupted or not |
| HeapSpec.TakeHeld | kernel/mm/heap.c:183-188 | handing out a block adds one block in use and changes no other, whether it splits, drops slack or grows |
| HeapSpec.TakeOrdered | kernel/mm/heap.c:105-121 | and keeps the blocks in strict address order without overlap |
| HeapSpec.TakeCoalesced | kernel/mm/heap.c:105-121 | and keeps the rule about neighbouring available blocks |
| HeapSpec.AppendAlignedOrdered | kernel/mm/heap.c:71-99 | growing the heap for an aligned block, with or without a filler, keeps the order |
| HeapSpec.FreedKeeps | kernel/mm/heap.c:124-153 | merging both ways leaves no available predecessor and no mergeable successor, and takes exactly the freed block out of use |
| HeapSpec.FreedResident | kernel/mm/heap.c:236-243 | unmapping touches no page of a block in use |
| HeapSpec.HeaderBytes | include/kernel/mm/heap.h:12-18 | a header can be read if and only if the pages of its first and last byte are mapped |
| HeapSpec.FreeHeaderMapped | kernel/mm/heap.c:236-243 | the merged header survives the unmapping if and only if it is within a page or its second page reaches the next block |
| HeapSpec.FreedHeadersIff | kernel/mm/heap.c:236-243 | and it is the only header that the unmapping can take |
| HeapSpec.AppendAlignedHeaders | kernel/mm/heap.c:71-99 | growing the heap for an aligned block touches mapped headers only if and only if its own header's place is mapped |
| HeapRuns.StepKeeps | kernel/mm/heap.c:167-244 | every legal and safe kmalloc, kmalloca or kfree keeps order, coalescing, residency, readable headers, and the exact set of live blocks with their sizes |
| HeapRuns.AccessIff | kernel/mm/heap.c:167-244 | a call touches no unmapped header if and only if it is safe |
| HeapRuns.RunIff | kernel/mm/heap.c:167-244 | so for every legal sequence of calls; the safe ones keep all of the above |
| HeapRuns.StartInv | kernel/mm/heap.c:15-28 | the initial heap satisfies all of it |
| HeapRuns.LiveDisjoint | kernel/mm/heap.c:167-234 | live payloads, headers included, never overlap |
| HeapRuns.LiveMapped | kernel/mm/heap.c:174-181 | every byte of a live block, header included, stays mapped |
| HeapRuns.AllocGives | kernel/mm/heap.c:196-222 | what is handed out is new, large enough and aligned, and no other live block moves or changes size |
| HeapRuns.FreeGives | kernel/mm/heap.c:225-234 | exactly the given block stops being live, and the block around it is merged as far as the rule allows |
| HeapFaults.FreeUnmapsItsHeader | kernel/mm/heap.c:237-243 | three kmallocs and a kfree of the second block, after which that block's header is half unmapped |
| HeapFaults.AlignedHeaderUnmapped | kernel/mm/heap.c:71-80 | the first kmalloca after heap_init can fill in a header on an unmapped page |
| HeapFaults.WithinAPageIsSafe | kernel/mm/heap.c:174-181 | behind a block in use, an alignment of at most a page always finds its header's place mapped |
| HeapLaws.FreedFuses | kernel/mm/heap.c:124-153 | the freed block, all available ones right before it and those after it that have bytes or are last become one block of all their bytes and headers; the rest of the list stays |
| HeapLaws.FreeReturns | kernel/mm/heap.c:225-234 | the bytes that can be handed out grow by exactly what was live there and by the headers merged away |
| HeapLaws.FreeCovers | kernel/mm/heap.c:124-145 | the merged block covers the freed one to its last byte if and only if the slack merged before it is no more than what is merged after it |
| HeapLaws.FirstFit | kernel/mm/heap.c:31-121 | if an available block is large enough and aligned, or is an aligned last one, the lowest such block is handed out; what it has left is the next block if a header fits, and no other block changes |
| HeapLaws.NothingFits | kernel/mm/heap.c:31-102 | only if there is none does the list grow, at its end, by a block at the first address that fits the alignment, with the room before it kept if a header fits |
| HeapLaws.FreedIsReused | kernel/mm/heap.c:167-234 | after kfree a request for no more than was given back is served at or below the freed address |
| HeapLaws.SlackIsLost | kernel/mm/heap.c:183-188 | a legal, safe run of seven calls after which 208 bytes are available where 220 were |
| Heaps.Heap.constructor | kernel/mm/heap.c:15-28 | the heap starts as one block that is never handed out, on a mapped page |
| Heaps.Heap.Find | kernel/mm/heap.c:31-53 | the first usable block, or a new one after the last |
| Heaps.Heap.FindAligned | kernel/mm/heap.c:56-102 | the first usable aligned block, or a new one at the first aligned address with the room before it kept; a page fault exactly when the new header's place is not mapped |
| Heaps.Heap.Split | kernel/mm/heap.c:105-121 | the stores of the split leave a well-linked list with the rest as an available block |
| Heaps.Heap.MergeBack | kernel/mm/heap.c:124-134 | the loop equals the function and ends |
| Heaps.Heap.MergeFront | kernel/mm/heap.c:137-145 | the loop equals the function and ends |
| Heaps.Heap.MapPages | kernel/mm/heap.c:175-181 | maps exactly the pages from the block's own to that of the header after it |
| Heaps.Heap.UnmapPages | kernel/mm/heap.c:237-243 | with `b->next` read anew on every turn: a page fault exactly when the header's second page goes, else exactly the pages after the header's and wholly before the next block are unmapped |
| Heaps.NextOnSecondPage | include/kernel/mm/heap.h:12-18 | in a header that meets two pages the field `next` is wholly on the second |
| Heaps.Heap.Kmalloc | kernel/mm/heap.c:167-193 | is the step of the runs above and returns its address |
| Heaps.Heap.Kmalloca | kernel/mm/heap.c:196-222 | a page fault exactly when the step is not safe; else it is that step and returns its address |
| Heaps.Heap.Kfree | kernel/mm/heap.c:225-244 | a page fault exactly when the step is not safe; else it is that step; NULL changes nothing |
| Frames.FrameBitmap.Use | kernel/mm/paging.c:71-78 | the frame is in the used set, and the counter still equals the number of set bits |
| Frames.FrameBitmap.Free | kernel/mm/paging.c:81-88 | the frame is out of the used set, and the counter still equals the number of set bits |
| Frames.FrameBitmap.Scan | kernel/mm/paging.c:55-59 | the search ends at the lowest clear bit |
| Frames.FrameBitmap.Alloc | kernel/mm/paging.c:53-68 | the lowest free frame becomes used, or 0 and no change when there is none |
| Frames.UserMemory.GetFrame | kernel/mm/paging.c:203-207 | the frame of a mapped page, 0 for any other |
| Frames.UserMemory.IsMapped | kernel/mm/paging.c:195-200 | whether the page has an entry in a table that exists |
| Frames.UserMemory.MapTable | kernel/mm/paging.c:147-162 | a new table starts empty |
| Frames.UserMemory.MapNew | kernel/mm/paging.c:171-185 | the page gets one new frame, its missing table another, in that order |
| Frames.UserMemory.Load | kernel/elf.c:79-91 | exactly the unmapped pages up to a segment's end are mapped, and the break follows |
| Frames.UserMemory.Enter | kernel/task.c:567-610 | the three loops, when nothing comes between, equal the events of the runs below one after the other |
| Frames.UserMemory.Sbrk | kernel/task.c:711-758 | the pages between the two breaks are mapped or freed, the break is the 32-bit sum, and the old break is returned; a sum out of bounds returns NULL and changes nothing |
| Frames.UserMemory.Free | kernel/task.c:456-482 | exactly the data frames below the break and the frames of the tables that cover it become free |
| FrameSpec.LoadShape | kernel/elf.c:79-91 | after loading, pages reach exactly to the break and tables exactly to its highest value |
| FrameSpec.CommitShape | kernel/task.c:567-610 | so after each frame that entering takes, with exactly the pages done so far mapped below the program |
| FrameSpec.EnterMaps | kernel/task.c:567-610 | entering without interruption maps exactly stack, trampoline and argument pages |
| FrameSpec.EnterPage | kernel/mm/paging.c:171-185 | each of them then gets one new frame, its missing table another, in that order |
| FrameSpec.SbrkShape | kernel/task.c:711-758 | moving the break either way keeps the shape |
| FrameSpec.BytesMapped | kernel/task.c:711-758 | that shape byte by byte: every byte of the program area below the break is mapped and no page wholly above it |
| FrameSpec.SbrkMoves | kernel/task.c:711-758 | for every 32-bit increment: within bounds the break moves by exactly that; out of bounds nothing changes unless the sum wraps around into them, and then it goes there |
| FrameSpec.SbrkPreserves | kernel/task.c:711-758 | what was mapped below both breaks stays in its frames |
| FrameSpec.SbrkAddsUp | kernel/task.c:711-758 | two calls move the break by the sum, and the opposite increment restores it |
| FrameSpec.SbrkWrapsUp | kernel/task.c:715-718 | from the lowest break an increment of -2 GiB grows the task by 2 GiB |
| FrameRuns.StepKeeps | kernel/task.c:456-758 | every event but a store of a frame that somebody holds keeps: each used frame is the kernel's, leaked, or in exactly one page, table or half-done allocation of one task |
| FrameRuns.DoublesShares | kernel/mm/paging.c:53-68 | such a store gives one frame to two holders |
| FrameRuns.DoublesWhen | kernel/mm/paging.c:53-68 | a store is one if and only if it was overtaken since its scan and the frame has not leaked meanwhile |
| FrameRuns.InvIff | kernel/task.c:563-610 | through every interleaving, inside `task_entry` too, each frame in use keeps exactly one holder, and no task that has not freed its frames shares one, if and only if no allocation stores a frame that somebody holds by then; none does if none is overtaken between scan and store |
| FrameRuns.LockedNeverOvertaken | kernel/task.c:362-374 | none is in a run that does every scan and store as a pair under the lock |
| FrameIsolation.Isolated | kernel/mm/paging.c:147-185 | the invariant means: among all tasks that are not terminated no frame backs two pages of one or two of them, is both page and table, or belongs to the kernel too |
| FrameIsolation.IsolationIff | kernel/task.c:456-500 | that holds all through a run if and only if no event takes a frame that is at that moment the kernel's or in a page, table or half-done allocation of such a task, tables that it leaks included; without overtaken allocations that means a frame between `task_free` and the final block |
| FrameIsolation.HarmRetakes | kernel/task.c:495-500 | an event that overtakes nothing takes such a frame if and only if a dying task has freed it and goes on mapping it |
| FrameIsolation.LateStore | kernel/mm/paging.c:53-68 | an overtaken store harms nobody when the frame has leaked since the scan and no dying task maps it |
| FrameIsolation.BootApart | kernel/mm/paging.c:37-50 | it holds at boot, whatever frames the kernel has |
| FrameIsolation.ApartStep | kernel/task.c:456-500 | the same for one event: it keeps the invariant, or two share a frame after it |
| FrameIsolation.ExposedStep | kernel/task.c:495-500 | an event exposes a dying task if and only if it takes a frame that the task goes on mapping; an exit itself never does |
| FrameIsolation.ExposedIff | kernel/task.c:495-500 | so over every run |
| FrameTheorems.TwoEntriesCollide | kernel/task.c:563-570 | from any boot state: two tasks that enter at once get one frame for the first page of their stacks |
| FrameIsolation.NeverExposed | kernel/task.c:495-500 | in particular none is if each task blocks right after it has freed its frames |
| FrameIsolation.ExitExposes | kernel/task.c:495-500 | otherwise any of its pages can be taken by a task that is entering while it still maps that page |
| FrameTheorems.SbrkGives | kernel/task.c:711-758 | among all tasks: every byte asked for is on a page whose frame nobody else holds, and every other mapping stays |
| FrameTheorems.ExitLeaks | kernel/task.c:468-482 | an exit returns everything if and only if its break ends under the highest table it ever reached, in particular when it ends at its highest |
| FrameTheorems.ConservationIff | kernel/task.c:456-482 | over every run in which no allocation is overtaken: once the same tasks are left, the used frames and their count are what they were if and only if every exit in between met that condition |
| FrameTheorems.EntryRun | kernel/task.c:563-610 | the uninterrupted entry is a run of such events that overtakes nothing |
| FrameTheorems.LosesATable | kernel/task.c:711-758 | from any boot state: load, enter, break up and down by 4 MiB, exit; one frame more is in use |
| RamFiles.RamFile.Open | kernel/vfs/ramfs.c:27-36 | truncation empties the content, whatever the blocks still hold |
| RamFiles.RamFile.Read | kernel/vfs/ramfs.c:39-58 | the stored bytes from the offset, as many as the 32-bit subtraction allows; wild exactly if that passes the table of blocks |
| RamFiles.RamFile.Write | kernel/vfs/ramfs.c:61-87 | the prefix that fits is spliced into the blocks at any offset, and the size follows, past the last block too |
| RamFiles.RamFile.Close | kernel/vfs/ramfs.c:90-101 | exactly the blocks wholly past the end are given back |
| RamFiles.Node.Open | kernel/task.c:928-956 | when nothing comes between: refused exactly when the node is open in an incompatible mode |
| RamFiles.Node.Read | kernel/task.c:961-981 | when nothing comes between: the flat file's read, cursor included |
| RamFiles.Node.Write | kernel/task.c:984-1004 | when nothing comes between: the flat file's write, cursor included |
| RamFiles.Node.Seek | kernel/task.c:1007-1020 | the flat file's seek: the cursor is clamped to the file |
| RamFiles.Node.Close | kernel/task.c:1031-1046 | one descriptor less, and the blocks past the end given back, whatever call is under way |
| RamFiles.Node.Load | kernel/elf.c:31-109 | the loader's opening of a node, open already or not, and its closing of it unless it fails |
| RamFiles.Node.Do | kernel/task.c:882-1046 | every event of the runs below is carried out on the blocks in place, each byte of a read or write by itself |
| RamFiles.Node.Play | kernel/task.c:882-1046 | and so is any run, with closes at exit and loads between the bytes |
| RamFileSpec.StepKeeps | kernel/task.c:882-1046 | every event keeps sizes, cursors and the bytes still due to them within the blocks |
| RamFileRuns.StepCounted | kernel/vfs/fs.c:125-132 | the node goes on counting its descriptors and the loads that failed, but for an open that fs_open ignores |
| RamFileRuns.StepWithin | kernel/elf.c:39 | an event puts a cursor past the end if and only if it is a load that truncates under a cursor |
| RamFileRuns.WithinIff | kernel/elf.c:39 | so both in every run by any number of tasks |
| RamFileRuns.StepIntact | kernel/vfs/ramfs.c:90-101 | what an unfinished write has stored is lost exactly by a close at exit or a load that frees a block past the end with some of it |
| RamFileRuns.SoundIff | kernel/vfs/ramfs.c:39-101 | in every run that ends with no write under way: readable bytes are always the last written, reads return only them, cursors stay within and openers are counted, if and only if none of these three happens |
| RamFileRuns.NewSound | kernel/vfs/ramfs.c:117-130 | all of it holds of a new file |
| RamFileRuns.NeverStale | kernel/vfs/ramfs.c:39-58 | before any of them happens all of that holds, whatever is under way |
| RamFileRuns.WriteLandsIff | kernel/vfs/ramfs.c:61-87 | the prefix that fits is in the file when a write ends if and only if no such close or load came between its bytes |
| RamFileRuns.ShrinksWhen | kernel/vfs/ramfs.c:27-36 | the file shrinks only to nothing, and only for a first opener or a load |
| RamFileCalls.WriteRun | kernel/task.c:984-1004 | an uninterrupted write is one of those runs |
| RamFileCalls.ReadRun | kernel/task.c:961-981 | so is an uninterrupted read |
| RamFileCalls.OpenRun | kernel/task.c:928-956 | and an uninterrupted open |
| RamFileCalls.ReadsContent | kernel/vfs/ramfs.c:39-58 | a read returns exactly the content from its cursor on if and only if the cursor is within the file or nothing is asked for |
| RamFileCalls.RoundTrip | kernel/task.c:984-1020 | write, seek back, read with nothing in between returns the accepted prefix and restores the cursor, from anywhere |
| RamFileCalls.SpliceAt | kernel/vfs/ramfs.c:61-87 | a write changes exactly the range it covers |
| RamFileLaws.OpenIff | kernel/task.c:928-956 | an open is refused if and only if others have the file open for reading alone, for writing alone or for truncation; only a first opener's flags become the node's |
| RamFileLaws.LoadIff | kernel/elf.c:31-109 | a load succeeds if and only if nobody has the file open, or it is open for reading and not for truncation, and at least a header is accepted; what each outcome leaves |
| RamFileLaws.CloseKeeps | kernel/vfs/ramfs.c:90-101 | closing keeps the content and, past it, exactly the bytes of the last block in use |
| RamFileLaws.OpenWrites | kernel/task.c:984-1004 | the first write after an open: refused without the write flag, nothing if others have the file open for neither reading nor writing, else the prefix that fits replaces the beginning |
| RamFileLaws.OpenReads | kernel/task.c:961-981 | the first read likewise |
| RamFileLaws.OpenWriteRun | kernel/task.c:928-1004 | open and write as events end with exactly that |
| RamFileLaws.WriteReturns | kernel/vfs/fs.c:118-122 | any write returns the length of the part that fits exactly if descriptor and node both allow it |
| RamFileLaws.ReadReturns | kernel/vfs/fs.c:111-115 | any read returns the content from the cursor exactly if both allow it |
| RamFileLaws.CallsBegin | kernel/vfs/fs.c:111-122 | the event that begins a read or write is turned away by these flags alone |
| RamFileLaws.RightsKept | kernel/vfs/fs.c:125-132 | over every run that misses no open, what a descriptor may do stays until it is closed |
| RamFileLaws.SeekLands | kernel/task.c:1007-1020 | where the cursor goes for each origin, with both clamps |
| RamFileLaws.Appends | kernel/task.c:1007-1020 | seeking to the end and writing appends |
| RamFileLaws.WritesAddUp | kernel/task.c:984-1004 | two writes in a row do what one write of both does, cursor included |
| RamFileLaws.ReadsAddUp | kernel/task.c:961-981 | two reads in a row return what one read of both does |
| RamFileCalls.ExitCutsWrite | kernel/task.c:1036-1042 | two openers, one exits after 1100 of the other's 2048 bytes: the file ends with zeros that nobody wrote, and no load took place |
| RamFileCalls.HitExposes | kernel/elf.c:39-50 | after a load has truncated the file under a cursor a descriptor reads back whatever the blocks still hold |
| RamFileCalls.LoaderTruncatesOpenFile | kernel/elf.c:39-50 | open for truncation, write, seek, run the file, read: a run that does so |
| RamFileCalls.OpenIsMissed | kernel/vfs/fs.c:125-132 | a load between an open's check and its fs_open: the descriptor is there, nobody counts it, and its writes store nothing |
| RamFileCalls.RefusedIff | kernel/task.c:928-944 | while the node counts its openers: with no descriptor left an open is refused if and only if a load has failed and left a mode that nobody can join |
| RamFileCalls.StuckForever | kernel/elf.c:46-52 | then no run ever gives a task a descriptor again, and the node goes on counting |
| RamFileCalls.RefusedForever | kernel/task.c:928-944 | a file that is refused with no descriptor left stays refused through every run, counted or not |
| RamFileCalls.OpensAgainIff | kernel/elf.c:31-52 | over all runs, those with missed opens and truncating loads included: once no descriptor is left and no call is under way, some run opens the file again if and only if an open is not refused at that moment |
| RamFileCalls.SticksIff | kernel/elf.c:46-52 | over all runs that miss no open: some run does if and only if no load has failed and left such a mode |
| RamFileCalls.MissedOpenReopens | kernel/vfs/fs.c:125-132 | not otherwise: an open that a load makes fs_open ignore is closed, and the file opens again although a load has left such a mode |
| RamFileCalls.TruncatedStaysShut | kernel/elf.c:39-52 | open for truncation, write, run the file, close: no run opens it again |
| RamFileCalls.FailedLoadSticks | kernel/elf.c:46-52 | a load that fails leaves such a mode unless the file was open for both reading and writing and not for truncation |
| Ecfs.CountOnes | tools/mkecfs.c:142-150 | the result is 1 exactly for powers of two |
| EcfsSpec.AcceptsIff | tools/mkecfs.c:288-356 | a device is accepted if and only if it has at least base + 3 blocks after the start of the partition and fewer than 2^32 in all |
| EcfsSpec.AcceptedIsValid | tools/mkecfs.c:288-356 | what main accepts has room for at least base + 3 blocks |
| EcfsSpec.LayoutFits | tools/mkecfs.c:173-178 | head, TLRM, BRB and root are adjacent and fit in the volume; the BRB has a bit for every block, the TLRM a counter for every area |
| EcfsSpec.RoundsUp | tools/mkecfs.c:176-177 | the alignment formula is division rounded up |
| EcfsSpec.FormattedIff | tools/mkecfs.c:198-230 | the formatted maps count correctly if and only if the reserved blocks do not exceed the counters of one TLRM block |
| EcfsSpec.MiscountedDevice | tools/mkecfs.c:198-213 | a device of just under 2 GiB is accepted with 257 reserved blocks and 256 counters, and its maps do not agree |
| EcfsSpec.AllocKeeps | tools/mntecfs.c:119-156 | an allocation returns the lowest clear block and keeps all three counts right |
| EcfsSpec.AllocInVolume | tools/mntecfs.c:119-156 | the block returned lies in the volume if and only if fewer blocks are allocated than the volume has |
| EcfsSpec.FormatThenAllocate | tools/mntecfs.c:119-156 | after formatting and any number of allocations the structures agree if and only if that condition held |
| Ecfs.TlrmBlock | tools/mkecfs.c:202-213 | one block of counters takes its share of the countdown |
| Ecfs.BrbBlock | tools/mkecfs.c:220-228 | exactly the bits of reserved blocks are set |
| Ecfs.GenFs | tools/mkecfs.c:171-249 | the head and both maps are on the disk as laid out, and the root entry is an empty directory with the time of formatting in all three stamps |
| Ecfs.Volume.AllocBlk | tools/mntecfs.c:119-156 | allocates in memory as specified, and the disk equals memory afterwards |
| Rtc.YToSec | kernel/driver/rtc.c:45-92 | exact modulo 2^64 and with the 4/100/400 leap flag if and only if the year is at least 1902 |
| Rtc.PosixAgrees | kernel/driver/rtc.c:45-92 | the calendar counted year by year agrees with section 4.16 of IEEE Std 1003.1-2017, Base Definitions |
| Rtc.DaysClosed | kernel/driver/rtc.c:45-92 | and with a closed form, before and after 1970 |
| Rtc.MToSec | kernel/driver/rtc.c:95-100 | the table gives the days of the months before, leap day included |
| Rtc.MonthStart | kernel/driver/rtc.c:45-100 | year plus month is the exact start of the month |
| Rtc.MonthsFillYear | kernel/driver/rtc.c:22-35 | twelve months make the year |

## Left out

- Signals (`kernel/task.c:187-211`, `kernel/task.c:673-700`): all scheduler runs are signal-free.
- The window in `task_pwait` between unlocking and blocking: a waiter is followed once it is queued while its target's id is still the target's; one that comes later is modelled but nothing is claimed of its status.
- Memory and ids running out: a task is only created when an id is free (`NewTask` itself does model the full map), and frames are only mapped when there are some.
- Blocking of SIGNALED tasks: the wake-up loop for them is modelled, but without signals its list stays empty.
- Hardware: interrupt controller, page tables as the processor sees them, TLB, stacks and registers; `task_switch` is its effect on the active task.
- TaskMachine.Machine: `elf_load_task` is not written out as one procedure: its calls are events of the runs, which the machine carries out, and its spin is the time between two of them.
- Channels.Channel: the array the server and clients read from and write to is a sequence; which task is asleep is the caller's concern.
- ChannelRuns: several channels, and partial reads by clients, which always read with a full buffer; signals, which could end a sleep that nothing else ends.
- WindowManager: what the handlers do with a request; each answers once, with bytes that the model leaves free but not empty.
- Heaps.Heap: memory is a map from header addresses to headers, so a store through a stale header is not modelled; that none overlaps a live block is what the order of the blocks proves. Addresses do not wrap at 32 bits. After a page fault nothing is said (`kernel/task.c:100-106` then raises a signal).
- HeapRuns: the frames behind heap pages, because `kfree` can pass frame 0 for a page that is already unmapped; and calls that interrupt each other: `kernel/vfs/ramfs.c:76`, `kernel/vfs/ramfs.c:98`, `kernel/vfs/fs.c:28` and `kernel/vfs/fs.c:48` call the heap with interrupts on, where another task's call may come in the middle of one; the model takes each call as one step.
- Frames.UserMemory: only the user half of a directory; the window through which page tables are seen is one array per task; `task_mmap` and its mappings.
- FrameIsolation.IsolationIff: a terminated task, whose address space nothing maps any more, no longer counts.
- FrameRuns.InvIff: setting a bit and putting the frame to use are one event, because the frame is nobody else's from then on; an interrupt inside the update of one byte of the bitmap, or of the counter of used frames, is not modelled.
- FrameRuns.StepKeeps: segments end below 0xB0000000 and arguments end below the program area, which nothing in the code checks.
- RamFiles.Node: path lookup, permissions and the positions of directory entries; what a wild read returns and where it leaves the cursor; the loader's reads of program headers and segments, whose outcome is a parameter.
- RamFileRuns.SoundIff: within an event nothing else comes. So one turn of the byte loops (a trim between allocating a block and the store into it would make that store go through NULL), the two assignments of the new size, the three of `fs_open`, and a whole close are not split.
- Ecfs.Volume: `free_blk`, files and extension blocks, byte order, and reading the maps back at mount time.
- Ecfs.GenFs: the boot record (`tools/mkecfs.c:251-273`); signature, name of the operating system and revision in the head.
- Rtc: reading and decoding the clock's registers.
- `libc/memory.c`, the ext2 and EcFS drivers of the kernel, window stacking, drawing, shell and libraries: not part of this model.
