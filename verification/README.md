# Models and proofs of the five programs

A Turing machine simulator (tp0), a shell (tp1), a multilevel feedback scheduler (tp2), a demand-paged memory (tp3) and
a FAT32 reader (tp4), modelled in Dafny. What changes state in place is a class or a method over arrays here too; each
such method is proved equal to a function, and what the program is for is proved about that function. Check everything
with `dafny verify dfyconfig.toml`.

## The files

| files | what they hold |
|---|---|
| `Common`, `CStrings` | what several models use: options, sums, strings that end at a NUL |
| `VmModel`, `VmInvariant`, `VmRefinement`, `VmAsWritten`, `VmMisreads`, `VmCells`, `VmMachine` | tp3: TLB, page table, frames and backing store are one flat memory of 65536 characters, and what the code as written is instead |
| `SchedLevels`, `SchedModel`, `SchedFrames`, `SchedInvariant`, `SchedWork`, `SchedShutdown`, `SchedBoost`, `SchedSorted`, `SchedHistory`, `SchedRuns`, `SchedScenario`, `SchedLate`, `SchedList`, `SchedQuantum` | tp2: two workers, the OS loop and the priority monitors as a step system, its runs and what a state owes to their history, and the linked lists and the quantum average as classes |
| `TuringMachine`, `TuringLoader`, `TuringText` | tp0: the growing tape against an endless one, and the loader against a printer |
| `PathNormal`, `Fat`, `FatReader` | tp4: the path normal form, and the cluster arithmetic and the reading loop against the Microsoft FAT32 File System Specification 1.03 |
| `ShellRun`, `ShellParse`, `ShellLex`, `ShellRoundTrip`, `ShellSpacing`, `ShellEscapes` | tp1: the single pass against the grouped list and against what a shell does with it, and the tokenizer and the parser against printers with any spacing and with escapes |

A state machine is a pure function from state to state (`VmModel.Step`, `SchedModel.Next`), and a property of all runs
is an invariant of that function. In tp2 a step is one critical section of one thread, and what depends on the clock, on
floating point or on a race for an unprotected flag is a choice of the step, so the theorems hold for every interleaving.

## Where the code and its documentation disagree

The model does what the code does. Where that is not what the documentation promises, the difference is proved.

- tp3, `vmm_read` and `vmm_write` index memory by the page number and not by the physical address (`vmm.c:54`, `vmm.c:72`);
  `get_frame` does not mark a page dirty on a write that misses the TLB and hits the page table (`vmm.c:92-130`);
  `pt_find_page` takes pages that are no longer valid (`pt.c:72`). Each of the four lines is a field of
  `VmModel.Variant`: the flat-memory theorems are about `REPAIRED`, `VmAsWritten` says for every access and every run
  exactly when the lines as written make a difference to state or output, and `VmMisreads` shows for each a run with a
  wrong character. A run that meets a guard can still read right: all its reads before the guard do, and up to the first
  eviction `VmCells.RightIff` says of each read of the code as written whether it does.
- tp2, the comment at `worker.c:190-196` says that a boost moves a queued process. The level is changed before the
  removal, which then searches the wrong list, and no boost ever moves one. `SchedModel.Order` gives both orders; with
  the removal first the comment is true.
- tp2, `os_start` frees the queue and the processes when the workers have been joined. In some run a monitor is pending
  then, exactly when some job has a burst of more than one unit.
- tp2, `remove_from_quantum_average` can subtract more than it has and wrap around. A job without bursts makes the OS
  loop use a burst that does not exist.
- tp4, the start of the FAT is multiplied by the sectors of a cluster (`main.c:55`), which the specification does not do.
- tp4, `read_file` does not look at the error of a lookup in the FAT. With the FAT where it is specified no lookup fails
  that is needed for clusters which the image holds, so for well-formed files this matters because of the line above
  only. Other cluster numbers can meet it still: one whose 32-bit address wraps into the image, or 0 and 1.
- tp1, `sh_run` is documented to return the status of the last command; it returns success, or the request to exit.
- tp1, `tok_next_line` can hand over a line that ends in an argument, and `cmd_parse` then reads behind it.
- tp0, `readline` writes its final NUL behind its buffer when the line is longer than announced.
- tp1, a `&` alone is an invalid token and not an operator; behind an argument it separates commands like a `;`.
- tp1, `\\`, `\"` and `\'` are in the table of escapes and are refused, because each stands for itself.

## Model

| member | source | states |
|---|---|---|
| VmModel.Lru | tp3/src/pt.c:88-101 | one half of the victim scan finds the valid page of its kind with the largest counter, the lowest number on a tie, or none exactly if there is none |
| VmModel.CopyBlock | tp3/src/pm.c:35-51 | a transfer replaces one block by the block asked for and leaves every other byte alone |
| VmMachine.Machine.constructor | tp3/src/pm.c:18-22 | memory is zero, no frame is used, no page valid and no TLB entry full, and a first access has a frame |
| VmMachine.Machine.IncrementCounters | tp3/src/tlb.c:51-57 | the loop ages the used entries and no others |
| VmMachine.Machine.TlbLookup | tp3/src/tlb.c:36-49 | the lookup ages every used entry, answers with the first one of the page, makes it young, and dirty on a write |
| VmMachine.Machine.GetLeastRecentlyUsed | tp3/src/tlb.c:59-82 | the scan is the replacement order: larger counter first, dirty before clean on equal counters |
| VmMachine.Machine.TlbAddEntry | tp3/src/tlb.c:85-104 | the entry goes to the last empty slot, else to the least recently used one, and nothing else changes |
| VmMachine.Machine.RemovePageFromTlb | tp3/src/tlb.c:106-114 | the first entry of the frame is emptied and its page returned |
| VmMachine.Machine.PtUpdateCounters | tp3/src/pt.c:36-46 | every valid page is older by one and the page used is the youngest |
| VmMachine.Machine.PtFindPage | tp3/src/pt.c:70-77 | the first page that the variant takes for the owner of a frame |
| VmMachine.Machine.FindVictimFrameNumber | tp3/src/pt.c:84-110 | the frame of the victim page |
| VmMachine.Machine.FindFreeFrameNumber | tp3/src/pm.c:24-31 | the first free frame, or -1 |
| VmMachine.Machine.DownloadPage | tp3/src/pm.c:35-42 | the frame gets the page's block and is in use |
| VmMachine.Machine.BackupPage | tp3/src/pm.c:45-51 | the page's block of the store gets the frame |
| VmMachine.Machine.Evict | tp3/src/vmm.c:98-118 | the branch without a free frame, on the whole state |
| VmMachine.Machine.PageFault | tp3/src/vmm.c:96-128 | a page fault, on the whole state |
| VmMachine.Machine.GetFrame | tp3/src/vmm.c:85-141 | the running `get_frame` is the function that the theorems are about |
| VmMachine.Machine.Read | tp3/src/vmm.c:41-58 | a read is a step of the model and returns its character |
| VmMachine.Machine.Write | tp3/src/vmm.c:61-83 | a write is a step of the model |
| VmInvariant.InitialInv | tp3/src/pm.c:18-22 | the initial state has the invariant with an empty history |
| VmInvariant.InvCanEvict | tp3/src/vmm.c:96-100 | when no frame is free there is a valid page, so the victim search finds one |
| VmInvariant.FindPageIsOwner | tp3/src/pt.c:70-77 | among valid pages the search returns the one owner of a frame |
| VmInvariant.EvictedPage | tp3/src/vmm.c:99-108 | the TLB and the page table give up the same page, the victim |
| VmInvariant.EvictedKeeps | tp3/src/vmm.c:98-118 | an eviction leaves the mapping but for the freed frame, the mirror, the ages and every character a program can see |
| VmInvariant.GetFrameKeeps | tp3/src/vmm.c:85-141 | `get_frame` keeps the invariant with the access added to the history, returns the frame of the page, and changes nothing a program can see |
| VmRefinement.StepRefines | tp3/src/vmm.c:41-75 | every read and write refines one access to a flat memory |
| VmRefinement.RunKeeps | tp3/README.md:91-117 | every run goes through, keeps the invariant, and holds at each address what was last written |
| VmRefinement.FlatMemory | tp3/src/vmm.c:41-141 | in every run each read returns the character last written to its address, or the first content of the store |
| VmRefinement.VictimIsLeastRecent | tp3/src/pt.c:84-110 | the page evicted is used less recently than any other page of its kind, and is dirty only if all are |
| VmRefinement.TlbIsMostRecent | tp3/src/tlb.c:36-114 | the TLB holds exactly the min(8, resident) most recently used resident pages, ages are distinct, counters are accesses since last use |
| VmRefinement.LruSlotIs | tp3/src/tlb.c:59-82 | the entry replaced is the oldest; among those of one age a dirty one; among these the first |
| VmRefinement.DirtyStep | tp3/src/vmm.c:85-141 | a write, and nothing else, makes a page dirty; a read brings it in clean; the dirty bit of no other page changes |
| VmRefinement.DirtyIsWritten | tp3/src/vmm.c:61-141 | in every run a resident page is dirty exactly when it was written since it came in |
| VmAsWritten.GetFrameAgreesIff | tp3/src/vmm.c:85-141 | `get_frame` as written agrees with the repaired one exactly when neither guard holds |
| VmAsWritten.EvictedAgreesIff | tp3/src/pt.c:70-77 | without the valid test the wrong page is given up exactly when a lower page once had the frame and the victim left the TLB |
| VmAsWritten.FrameIs | tp3/src/vmm.c:85-141 | the frame that `get_frame` returns, told from the state before; no other frame is written |
| VmAsWritten.BytesAre | tp3/src/vmm.c:52-54 | the characters at the physical address and at the page number, told from the state before |
| VmAsWritten.StepAgreesIff | tp3/src/vmm.c:41-141 | in every state the repaired code reaches, an access of any variant does the same exactly when no guard of an unrepaired line holds; for the index: frame 0 and offset equal to page, or the same character there |
| VmAsWritten.SafeIff | tp3/src/vmm.c:41-141 | a run of any variant is at every point a run of the repaired code exactly when it meets no guard |
| VmCells.NeverStuck | tp3/src/pt.c:84-110 | in every run of every variant the search for a victim finds a page, and after each command every TLB entry repeats the table entry of its page, one entry a page |
| VmCells.GetFrameMirrors | tp3/src/vmm.c:85-141 | under every variant `get_frame` returns the frame that the table then has for the page, and keeps this |
| VmCells.CellMemory | tp3/src/vmm.c:41-83 | in every run, up to the first page that finds no free frame, each read of the code as written gives what was written to its page last, at whatever offset, or else one byte of the first page's block |
| VmCells.RightIff | tp3/src/vmm.c:41-83 | such a read is right for every store exactly when the last write to its page and to its address gave the same character, or the page was never written and the address is that of the byte; guards do not matter |
| VmCells.RightBeforeGuard | tp3/src/vmm.c:41-141 | under any variant every read before the first guard that a run meets is right |
| VmCells.WriteStays | tp3/src/vmm.c:41-83 | in every run, evictions or not, a character written by the code as written is what its page reads as, until the page is written again or frame 0 goes to another page |
| VmCells.RightThoughUnsafe | tp3/src/vmm.c:72 | Write(1, c), Read(1) as written reads c, though the run is not one of the repaired code |
| VmMisreads.FirstReadIs | tp3/src/vmm.c:54 | a first read of a page, as written, gives the byte whose offset is the page number |
| VmMisreads.FirstReadIff | tp3/src/vmm.c:54 | a first read is right for every store exactly when the offset is the page number |
| VmMisreads.FirstWriteIs | tp3/src/vmm.c:72 | a first write, as written, goes to the offset that is the page number |
| VmMisreads.FirstWriteIff | tp3/src/vmm.c:72 | it is in its place for every store and character exactly when the offset is the page number |
| VmMisreads.MisplacedWrite | tp3/src/vmm.c:72 | Write(1, c) and a read after it that returns the wrong character, with both lines as written and with the write alone |
| VmMisreads.EvictionInvisibleIff | tp3/src/vmm.c:111-114 | an eviction is invisible exactly when a victim taken for clean still equals its block |
| VmMisreads.DirtyBitLost | tp3/src/vmm.c:92-130 | a run of ten accesses after which a written page is taken for clean |
| VmMisreads.WriteLost | tp3/src/vmm.c:92-130 | 35 accesses of which the last reads the old character where c was written: the page was evicted unsaved |
| VmMisreads.StaleOwner | tp3/src/pt.c:72 | a run of 34 reads whose last one returns a character of another page |
| VmAsWritten.SafeRunAgrees | tp3/src/vmm.c:41-141 | on a run that meets no guard each read of any variant, the code as written included, returns the character last written |
| SchedInvariant.StartInv | tp2/src/os.c:178-224 | before any step no process has arrived, and the invariant holds |
| SchedInvariant.StepKeeps | tp2/src/worker.c:31-205 | every step of every thread keeps the invariant on places and locks, in both orders of the boost; what the flags and lengths owe to the steps is in `SchedHistory` |
| SchedInvariant.ExactlyOnePlace | tp2/src/os.c:226-279 | in every reachable state each process is in exactly one place: not arrived, with the OS, in one list once, at one worker, in I/O, with a monitor, finished |
| SchedWork.SliceBursts | tp2/src/os.c:97-121 | a slice charges what it takes from the remaining time, and time left plus bursts left falls |
| SchedWork.WorkConserved | tp2/src/os.c:83-126 | a finished burst was charged exactly its length, and all dispatches are at most the sum of bursts * (length + 1) |
| SchedWork.AssertsNeverFail | tp2/src/os.c:83-166 | the lifecycle asserts hold in every reachable state when every job has a burst |
| SchedWork.NoBurstFails | tp2/src/os.c:246-253 | with a job without bursts, a state is reached in which the loop indexes a burst that does not exist |
| SchedWork.AssertsHoldIff | tp2/src/os.c:83-253 | the asserts hold in every reachable state exactly when every job has a burst |
| SchedShutdown.ShutdownSafe | tp2/src/os.c:226-234 | once all processes are done no list holds one and none is about to be pushed; sorted insertion never meets a pill |
| SchedShutdown.OnePillEach | tp2/src/os.c:396-408 | pills sent are in the list or were taken by an exited worker, one each; at the join the lists are empty |
| SchedShutdown.LateMonitors | tp2/src/os.c:404-420 | at the join every monitor sleeps, is about to unlock, or has ended; nothing can step any more exactly when all have ended |
| SchedLate.QuietAtJoinIff | tp2/src/os.c:404-432 | for jobs with bursts: in every run nothing can step any more at the join, and all monitors have ended, exactly when no job has a burst of more than one unit |
| SchedLate.MonitorOutlives | tp2/src/os.c:404-432 | whatever the other jobs, a process with a burst of two units or more can be preempted once, all jobs run to their end, and the workers be joined while its monitor sleeps |
| SchedBoost.QueuedProcessNeverMoves | tp2/src/worker.c:167-205 | as written, in every reachable state a step of a monitor leaves all lists as they are |
| SchedBoost.ListIsLevel | tp2/src/worker.c:186-198 | with the removal first, in every reachable state a queued process has the level of its list |
| SchedBoost.RemovalFirstMovesIff | tp2/src/worker.c:186-198 | with the removal first, in every reachable state a boost takes a process out exactly when it is in any list, and into the list of the new level only |
| SchedSorted.StepSorted | tp2/src/worker.c:31-205 | every step keeps the lists below the top sorted: a length changes only of a process that is in none of them, the note of the I/O length included, which a process can meet in the top list |
| SchedSorted.ListsSorted | tp2/src/ready_queue.c:80-150 | in every reachable state, under both orders, each list below the top holds its processes in the order of burst plus I/O length |
| SchedHistory.LengthsMeasured | tp2/src/worker.c:58-145 | in every run, at every point: the burst length of a process is the sum of the times measured for its slices since it arrived or last ended, until its first burst is over; the I/O length is the time of its last I/O; the flag says whether a burst is over |
| SchedHistory.FlagIsPending | tp2/src/worker.c:167-230 | in every reachable state, under both orders, `waiting_boost` is set exactly when one monitor of the process has not ended, and there are never two |
| SchedHistory.DemotedIsMonitored | tp2/src/worker.c:167-230 | in every run, under both orders: a process that waits below the top, or is about to, was demoted at some step and not run since, and a monitor of it is pending or has ended since that step |
| SchedHistory.MonitorLowers | tp2/src/worker.c:172-188 | a monitor that wakes takes a process to level 1, or to 0 when it is blocked, unless it is there or above, or is done |
| SchedHistory.RunsOnIff | tp2/src/worker.c:48-112 | in every reachable state, after a slice the process keeps its core exactly when it was preempted, is below the top, and the worker asks for one more; otherwise the worker unlocks it and does nothing else |
| SchedHistory.PopTakesFirst | tp2/src/ready_queue.c:152-207 | a pop takes what stands first in a list that is not empty, and goes on with it or ends with a pill; it goes on to the next list from an empty one |
| SchedHistory.TopIsFirstInFirstOut | tp2/src/ready_queue.c:97-207 | in every reachable state, under both orders, a step appends a process to the top list, or takes its first one for a worker, or leaves it |
| SchedHistory.PreemptedGoesBehindShorter | tp2/src/ready_queue.c:117-144 | in every reachable state a preempted process is put into the list of its level behind the shorter ones and in front of all others, by burst plus I/O length |
| SchedScenario.BoostLeavesQueuedProcess | tp2/src/worker.c:186-198 | for any jobs and any process of them with a burst of more than two units: a reachable state in which it was boosted to level 1 and waits in list 2 |
| SchedScenario.BoostMovesQueuedProcess | tp2/src/worker.c:186-198 | the same run with the removal first: the process is in list 1 |
| SchedList.InsertionKeepsSorted | tp2/src/ready_queue.c:119-144 | insertion keeps a sorted list sorted, the smaller keys and only they in front of the newcomer |
| SchedList.RemovalKeepsSorted | tp2/src/ready_queue.c:209-249 | taking a process out, at the head or anywhere else, keeps a sorted list sorted |
| SchedList.PushKeepsOrdered | tp2/src/ready_queue.c:80-150 | a push of a process that has not run, or of a pill, keeps every level below the top one sorted |
| SchedList.TakingKeepsOrdered | tp2/src/ready_queue.c:152-249 | so does a pop or a removal, and a pop from a sorted level takes the shortest |
| SchedList.LevelList.PushTail | tp2/src/ready_queue.c:100-107 | the list grows at its tail |
| SchedList.LevelList.PushHead | tp2/src/ready_queue.c:108-116 | the list grows at its head |
| SchedList.LevelList.FindPlace | tp2/src/ready_queue.c:120-129 | the scan from the tail stops behind the last smaller key |
| SchedList.LevelList.PushSorted | tp2/src/ready_queue.c:117-144 | the process is inserted there and all links are right |
| SchedList.LevelList.Push | tp2/src/ready_queue.c:97-145 | one insertion at the place that the level and the process determine |
| SchedList.LevelList.PopHead | tp2/src/ready_queue.c:177-197 | the head leaves and the rest stays in order |
| SchedList.LevelList.UnlinkAt | tp2/src/ready_queue.c:225-238 | one node is taken out between its neighbours |
| SchedList.LevelList.Remove | tp2/src/ready_queue.c:218-248 | found exactly if present; the occurrence nearest to the tail goes, nothing else changes |
| SchedList.ReadyQueue.Push | tp2/src/ready_queue.c:80-150 | the list of the process's level gets it, a pill goes to the tail of list 1, the other three stay, and what was sorted stays sorted |
| SchedList.ReadyQueue.BestLevel | tp2/src/ready_queue.c:156-167 | the first level that is not empty, or -1 when all are |
| SchedList.ReadyQueue.Pop | tp2/src/ready_queue.c:152-207 | the head of the best non-empty level leaves, the shortest where the lists were sorted, the other lists stay and all stay sorted; nothing is popped exactly where the code waits |
| SchedList.ReadyQueue.Remove | tp2/src/ready_queue.c:209-249 | one occurrence leaves the list of the current level if there is one, and what was sorted stays sorted |
| SchedQuantum.AddLosesLittle | tp2/src/ready_queue.c:66-77 | quantum * counter stays below the sum of bursts and an addition loses at most the old counter |
| SchedQuantum.RemoveIsSoundIff | tp2/src/ready_queue.c:45-64 | a removal keeps quantum * counter below the sum exactly when the burst is at most quantum * counter or the only one, and what it loses; in both cases the new quantum is the quotient of the difference, taken modulo 2^64 |
| SchedQuantum.MeanAfterAdditions | tp2/src/ready_queue.c:66-77 | after n additions from a reset the true mean is at most (n - 1) / 2 above the quantum |
| SchedQuantum.CountKept | tp2/src/worker.c:123-146 | every update keeps the counter equal to the number of processes with a burst found |
| SchedQuantum.After | tp2/src/worker.c:123-146 | so it does over every sequence of updates, and is never -1 |
| SchedQuantum.MeanOverRunIff | tp2/src/ready_queue.c:45-77 | over every sequence of additions and removals, resets included, the product never exceeds the sum exactly when every removal is guarded, and then lags it by the roundings since the last reset |
| SchedQuantum.RemovalWraps | tp2/src/ready_queue.c:61 | bursts 1 and 0 added and 1 removed leave the largest 64-bit quantum |
| SchedQuantum.ReadyQuantum.Add | tp2/src/ready_queue.c:66-77 | the update in place is the addition, or nothing for a known burst |
| SchedQuantum.ReadyQuantum.Remove | tp2/src/ready_queue.c:45-64 | the update in place is the removal, or nothing for an unknown burst |
| TuringMachine.MemCpy | tp0/src/main.c:140-154 | the cells copied and no others |
| TuringMachine.FindTransition | tp0/src/main.c:455-465 | the first transition that applies, or none exactly if none does |
| TuringMachine.Tape.constructor | tp0/src/main.c:320-346 | the first tape is the input on an endless blank tape, the head on its first character, in max(256, 2n) cells |
| TuringMachine.Tape.ResizeTape | tp0/src/main.c:493-524 | the endless tape does not change, the head is strictly inside and a quarter from both ends |
| TuringMachine.Tape.Apply | tp0/src/main.c:472-483 | one turn is one step of the endless machine, resize included |
| TuringMachine.Tape.Run | tp0/src/main.c:443-491 | after any number of steps array, head and state are the configuration of the endless machine; accepted means the accepting state, rejected the rejecting one and not that, running that a transition applies; resizes are at least a quarter of the length apart |
| TuringMachine.CopiesAreLinear | tp0/src/main.c:493-524 | all cells ever copied are at most five per step |
| TuringMachine.TakesFirst | tp0/src/main.c:443-491 | a run takes the first transition of the state and the symbol: its next state, its character under the head, one move, and on from there; it stays where it is when none applies or the state is a last one |
| TuringMachine.Marches | tp0/src/main.c:472-477 | with the same movement and character for n steps the head is n cells further and exactly the n cells passed are written |
| TuringMachine.InputCells | tp0/src/main.c:320-346 | the input stands on the cells from 0 on between blanks |
| TuringLoader.PaddingIrrelevant | tp0/src/main.c:213-282 | what follows a line in its buffer never matters to `parse_line` |
| TuringLoader.TransitionRoundTrip | tp0/src/main.c:213-282 | a printed transition is parsed as itself |
| TuringLoader.TransitionPrefixes | tp0/src/main.c:213-282 | a printed transition cut off anywhere is refused, unless its closing parenthesis alone is missing |
| TuringLoader.LettersMove | tp0/src/main.c:191-205 | in the text of a transition G moves by -1, R not, D by 1, and any other letter refuses the line |
| TuringLoader.CountBody | tp0/src/main.c:65-98 | the count is the number of lines, with or without a final newline |
| TuringLoader.ReadBody | tp0/src/main.c:107-131 | reading gives the first line and leaves the others |
| TuringLoader.TransitionsRoundTrip | tp0/src/main.c:393-430 | printed transitions are loaded in order |
| TuringLoader.LoaderRoundTrip | tp0/src/main.c:298-350 | printing a machine and loading the text gives the machine back, with or without a final newline |
| TuringText.TextFile.Getc | tp0/src/main.c:82 | the character at the position, or the end |
| TuringText.TextFile.NoOfLines | tp0/src/main.c:65-98 | the loop counts the lines and restores the position |
| TuringText.TextFile.ReadLine | tp0/src/main.c:107-131 | what the loop takes of the line; it stays inside its buffer exactly when the line is no longer than max_len, and then the NUL and the position are right |
| TuringText.StrLen | tp0/src/main.c:42-57 | the distance to the first NUL |
| TuringText.ReadState | tp0/src/main.c:162-183 | up to five characters before a comma, and the position after it |
| TuringText.ParseMovement | tp0/src/main.c:191-205 | G, R and D move by -1, 0 and 1; anything else is refused |
| TuringText.ParseLine | tp0/src/main.c:213-282 | the parse of a buffer is a function of the line in it |
| TuringText.NextTransition | tp0/src/main.c:406-416 | one line is read and parsed, inside its buffer exactly when it fits |
| TuringText.GetTransitions | tp0/src/main.c:393-430 | that many transitions in order, or nothing if one is refused; inside the buffers exactly when the lines read fit |
| TuringText.ReadName | tp0/src/main.c:308-310 | the name of a state, inside its buffer exactly when it fits |
| TuringText.LoadMachine | tp0/src/main.c:298-361 | the loops stay inside their buffers exactly when the names read have at most 5 characters and the lines at most 1024, and then load what the round trip is about |
| TuringText.PrintedFits | tp0/src/main.c:302-361 | a printed machine fits all buffers, and is loaded as itself |
| PathNormal.ComponentsSeparated | tp4/src/main.c:163-207 | components hold no slash, and written with slashes between them they are the path |
| PathNormal.CopyComponent | tp4/src/main.c:190-199 | the characters up to the next slash are in the temporary string |
| PathNormal.GetSimplifiedPath | tp4/src/main.c:136-214 | the index scan computes the fold over the components, or gives -2 when the fold fails, and stays inside its buffers |
| PathNormal.FailsIff | tp4/src/main.c:177-187 | it fails exactly when some prefix has more ".." than names; else the depth is names less ".." |
| PathNormal.ResultIsSurvivors | tp4/src/main.c:163-207 | the result is, in order, the names after which ".." never outnumbers names |
| PathNormal.JoinRoundTrip | tp4/src/main.c:136-214 | clean names, joined, come back as they are |
| PathNormal.Idempotent | tp4/src/main.c:136-214 | a result is clean, and joined again it simplifies to itself |
| PathNormal.Composes | tp4/src/main.c:136-214 | of two paths in a row the second is walked from where the first leads |
| PathNormal.LastComponent | tp4/src/main.c:163-207 | a path is walked component by component: nothing and "." stay, ".." goes back or fails, anything else goes on |
| PathNormal.OnlyNormal | tp4/src/main.c:163-207 | whatever leads like that, component by component, is this normal form on every path |
| PathNormal.LeadingSlashOptional | tp4/src/main.c:216-220 | a slash in front makes no difference |
| PathNormal.BreakUpPath | tp4/src/main.c:227-274 | -1 on a failed simplification, -2 from the depth on, else the component of the level with every letter at its place in the other alphabet, told from the two alphabets, every other character as it is, and no small letter left |
| Fat.AddressWraps | tp4/src/main.c:30-42 | all 32-bit wrapping amounts to the specified address modulo 2^32 |
| Fat.AddressIs | tp4/src/main.c:30-42 | the clusters 0 and 1, which are not specified, are read two clusters or one before the data, modulo 2^32 |
| Fat.AddressExactIff | tp4/src/main.c:30-42 | the address is the specified one exactly when that is below 2^32 |
| Fat.OffsetsApart | tp4/src/main.c:55-56 | with more than one sector a cluster, the entry as written and the specified one do not even overlap |
| Fat.LookupAgreesIff | tp4/src/main.c:54-71 | the lookup agrees with the specification on every image exactly when a cluster is one sector |
| Fat.EntryRead | tp4/src/main.c:54-71 | the four bytes of an entry, lowest first, are read as its low 28 bits whatever the high four are, and end a chain exactly for the last eight values |
| Fat.ReadsChain | tp4/src/main.c:397-439 | along linked clusters that end, or fill the room, the result is the first bytes of their concatenation; a cycle is of the second kind |
| Fat.ContentsLength | tp4/src/main.c:397-439 | the contents of a well-formed file are the chain length times the cluster size |
| Fat.SpecifiedTableReadsRight | tp4/src/main.c:397-439 | with the table where it is specified every well-formed file is read right |
| Fat.ReadsRightIff | tp4/src/main.c:55 | as written every well-formed file is read right exactly when a cluster is one sector |
| Fat.ClustersApart | tp4/src/main.c:30-42 | distinct clusters do not overlap each other, the reserved sectors or the tables |
| Fat.ClustersAdjoin | tp4/src/main.c:30-42 | the first cluster starts at the first data sector, and each ends where the next one starts |
| Fat.AddressesApart | tp4/src/main.c:30-42 | neither do their 32-bit addresses, up to 2^32 |
| Fat.UnreadableEntryRepeats | tp4/src/main.c:429-431 | when the entry of a cluster is outside the image its bytes fill any room over and over, where a reader that looks at the error reports it |
| Fat.FailedLookupReads | tp4/src/main.c:429-431 | a failed lookup never makes the reader fail |
| Fat.ErrorReportedIff | tp4/src/main.c:397-439 | for every image, cluster and room: the reader does what one that reports failed lookups does exactly when every entry needed along the chain is readable |
| Fat.SpecifiedEntryReadable | tp4/src/main.c:54-66 | with the table where it is specified, a cluster in the image has its entry in the image |
| Fat.SpecifiedErrorsReported | tp4/src/main.c:429-431 | so on well-formed files no needed lookup fails |
| Fat.InPlaceErrorsReported | tp4/src/main.c:429-431 | nor for any chain, ended or not, whose clusters the image holds where they are specified |
| Fat.UnreadableIsWrapped | tp4/src/main.c:30-42 | a cluster that is read while its specified entry cannot be is one whose specified address is 2^32 or more |
| Fat.WrappedNotReported | tp4/src/main.c:429-431 | such a cluster, read twice where a reader that looks at the error reports it |
| Fat.ErrorNotReported | tp4/src/main.c:55 | an image with a file of one cluster that is read twice, the table being as written |
| FatReader.Archive.Read | tp4/src/main.c:422 | one item of n bytes or none, and only those bytes of the buffer change |
| FatReader.ChainValue | tp4/src/main.c:54-71 | the masked entry when it can be read, otherwise an error and the value as it was |
| FatReader.ReadCluster | tp4/src/main.c:412-424 | the part of a cluster there is room for lands behind what was read |
| FatReader.ReadFile | tp4/src/main.c:397-439 | the loop ends on every chain, with the count or -1, and the rest of the buffer stays; for a legal block with clusters of one sector and any well-formed chain whose first cluster is given by its quotient and remainder by 65536, count and buffer are the first bytes of its contents |
| ShellRun.PassMeansGrouped | tp1/src/shell.c:101-125 | the single pass runs the same commands in the same order with the same inputs and status as the grouped list, whatever they do |
| ShellRun.GroupedIff | tp1/README.md:109-114 | there is exactly one grouping: longest pipelines, joined from left to right by the operators between them |
| ShellRun.MeaningBehaves | tp1/README.md:109-114 | the grouped list runs exactly the commands that are due: the first, one after a separator, one after an and or an or that the last status calls for, one after a pipe whose neighbour was run, up to the first `exit` that is due |
| ShellRun.BehaviourUnique | tp1/src/shell.c:22-125 | in each world that determines the trace and whether the shell exits |
| ShellRun.PipesConnect | tp1/src/shell.c:56-84 | a command after a pipe comes right after its neighbour was run and reads its pipe exactly if a process was made for it; any other reads the shell's input |
| ShellRun.ReturnsLastIff | tp1/src/shell.c:94-125 | `sh_run` returns the status of the last command for every behaviour of the commands exactly when the list cannot end failing without meeting `exit`, told by one pass over its pipelines |
| ShellRun.EndsReachable | tp1/src/shell.c:101-125 | a run that does not exit ends with a status that this pass allows |
| ShellRun.ReachedByPlan | tp1/src/shell.c:101-125 | every status it allows is reached by some behaviour of the commands |
| ShellRun.FailureNotReturned | tp1/src/shell.c:94-125 | one failing command: its status is failure, success is returned |
| ShellRun.ExecuteCommand | tp1/src/shell.c:22-92 | the guard skips, goes on skipping, or runs, and updates flag, status and pipe; what is run is this command, with its own input, and ends as the world has it for it |
| ShellRun.ShRun | tp1/src/shell.c:101-125 | the trace is what a shell does with the list (`BehaviourUnique`), each attempt ends as the world has it for its own command there, and the code is 0 for an exit that is to be run, -1 on an empty list, else 1 |
| ShellParse.CountArguments | tp1/src/parser.c:36-46 | the arguments up to the first token that is none |
| ShellParse.StoreArguments | tp1/src/parser.c:134-139 | the values of the arguments in order |
| ShellParse.CmdParse | tp1/src/parser.c:75-151 | the loops compute the parse; they stay inside the list exactly when it does not end in an argument, or would be refused with a newline after it |
| ShellParse.ParsesIff | tp1/src/parser.c:75-151 | commands exactly when the line does not start with a newline, has an argument, and every operator that needs one follows one |
| ShellParse.ParseKeepsItems | tp1/src/parser.c:124-147 | the commands hold all arguments in order, cut where an operator follows one, with that operator; an invalid token there is a separator |
| ShellParse.ItemsInjective | tp1/src/parser.c:124-147 | that determines the commands |
| ShellParse.NoInnerTerminator | tp1/src/parser.c:52-68 | on one line only a pipe continues a pipeline inside the list |
| ShellLex.Stdin.Getchar | tp1/src/tokenizer.c:71 | the next character, or the end, which byte 255 looks like |
| ShellLex.Stdin.Ungetc | tp1/src/tokenizer.c:116 | the character is next again, unless it looks like the end |
| ShellLex.BufferCheckSub | tp1/src/tokenizer.c:48-58 | afterwards there is room for a character and the NUL, and nothing is lost |
| ShellLex.ReadStringLiteral | tp1/src/tokenizer.c:60-100 | the literal or an error, with the position, as `EscapedRoundTrip`, `NulCuts`, `EscapeRefused` and `UnclosedRefused` tell it by text, and the buffer never overflows |
| ShellLex.ReadSymbol | tp1/src/tokenizer.c:102-127 | the longest run of symbol characters, and the buffer never overflows |
| ShellLex.TokNext | tp1/src/tokenizer.c:130-194 | the loop reads the token that the lemmas are about |
| ShellLex.TokNextLine | tp1/src/tokenizer.c:196-209 | tokens up to a newline or a failure, in order |
| ShellLex.LineIsOneLine | tp1/src/tokenizer.c:196-209 | a newline stands nowhere but at the end of a line |
| ShellLex.ClosedIff | tp1/src/tokenizer.c:196-209 | a line does not end in an argument exactly when its last token ends in an operator character |
| ShellLex.NewlineCloses | tp1/src/tokenizer.c:205 | so it is for a line that a newline ends |
| ShellLex.LoneArgument | tp1/src/tokenizer.c:136 | the text "a" gives a line that ends in an argument |
| ShellRoundTrip.TokenPrinted | tp1/src/tokenizer.c:130-194 | a printed token is read as itself when what follows cannot continue it |
| ShellRoundTrip.LinePrinted | tp1/src/tokenizer.c:196-209 | a printed line is read as its tokens, whatever the input goes on with |
| ShellRoundTrip.CommandsParsed | tp1/src/parser.c:75-151 | the tokens of commands are parsed as the commands |
| ShellRoundTrip.RoundTrip | tp1/src/parser.c:75-151 | printing commands, lexing and parsing gives them back and consumes exactly their line |
| ShellRoundTrip.ReadIsExpressible | tp1/src/tokenizer.c:60-127 | every argument read is a symbol, with no whitespace, operator, NUL or byte 255 in it and no quote in front, or a literal that has no backslash and lacks one of the quotes |
| ShellRoundTrip.CanBeReadIff | tp1/src/tokenizer.c:23-127 | the arguments that some input gives are exactly those |
| ShellSpacing.SpacedLine | tp1/src/tokenizer.c:130-209 | tokens with any blanks, tabs and carriage returns between them, and with none where one is an operator that the other does not continue, are read back |
| ShellSpacing.SpacedRoundTrip | tp1/src/parser.c:75-151 | commands written with any such spacing are read and parsed as themselves |
| ShellSpacing.OperatorsRead | tp1/src/tokenizer.c:141-177 | newline, semicolon, one bar, two bars and two ampersands by their characters, one ampersand alone as an invalid token, each with the position behind it |
| ShellSpacing.NulEndsLine | tp1/src/tokenizer.c:102-209 | a NUL where a token should start ends the line |
| ShellEscapes.EscapedRoundTrip | tp1/src/tokenizer.c:23-100 | a quotable string, written with `\a`, `\b`, `\t`, `\n` and `\r` for bell, backspace, tab, newline and carriage return, is read back |
| ShellEscapes.NulCuts | tp1/src/tokenizer.c:41-100 | a `\0`, or a NUL as it is, cuts the literal; what is behind it is read and not kept |
| ShellEscapes.EscapeRefused | tp1/src/tokenizer.c:79-91 | a backslash and any character but a, b, t, n, r and 0, or the end of the input, refuses the literal |
| ShellEscapes.UnclosedRefused | tp1/src/tokenizer.c:73-77 | a literal without its second quote is refused at the end of the input, or at the byte that looks like it |

## Left out

- All `main` functions, printing, logs, reports and file opening: files are texts or byte sequences, commands arguments.
- The flex and bison input of tp3, test harnesses, the name checks, ELF reflection and the build files.
- Allocation failure and freeing. Only the table of transitions of negative size (tp0) counts as a failed allocation.
- `fork`, `execvp`, `waitpid` and pipes: an oracle says how each command ends, given all that ran before; a failing `pipe`, which ends the shell, is not modelled.
- Integer overflow of lengths and counts that needs inputs of gigabytes, and wraparound of age counters.
- Statistics counters and context-switch counts.
- Wake-up liveness of `ready_queue_pop`: the wait does not recheck the sizes under its mutex. A pop is enabled when a list is not empty, and only safety is proved.
- `ready_queue_remove_par` and its threads, which are unused.
- The floating-point quantum factors and the clock: a slice has any positive length and a process is due when a step says so. What holds in every run holds in those of the clock; a run that is given as an example need not be one of them.
- The preemption check under `read_max_queue_mutex`: whether a worker asks for another slice is a choice of the step.
- `file_has_name`, `find_file_descriptor` and `read_boot_block` of tp4: C string buffers, and directories that are not followed across clusters.
- The order of fields in the boot sector: the block's fields are taken as numbers; entries of the table are read as on a little-endian machine.
- Linked lists of tokens and commands in tp1 are sequences: they are only appended to and walked.
- SchedModel.Pushed: has no branch for `already_executed`, which nothing sets; `SchedList` has it, with four list objects in place of the three arrays of heads, tails and sizes.
- SchedList.ReadyQueue.Pop: is one round of the loop, without a concurrent thread; the wait and the race between scan and lock are in `SchedModel`, where a pop is a step for each level.
- SchedQuantum.After: an update and the flag of its process change together, since the worker holds the mutex of the process.
- SchedLate.QuietAtJoinIff: does not model the freeing; it says whether steps can come after it.
- VmCells.RightIff: is about reads before the first eviction; later reads are covered by `VmCells.WriteStays` up to the loss of frame 0, and by `VmCells.RightBeforeGuard`.
- TuringMachine.Tape.Run: stops after a given number of steps, since a machine need not halt; what it says holds for every number.
- TuringText.TextFile.ReadLine: does not say what a write behind the buffer changes, which C leaves open, only when it happens.
- ShellParse.CmdParse: does not say what happens when it reads behind the list, only when it does.
- FatReader.ChainValue: an entry that is cut off by the end of the image leaves the value alone, where C leaves it open; the product at main.c:55 wraps modulo 2^32, where C leaves an int overflow open.
- Fat.ReadsRightIff: requires a volume whose first cluster is in reach of 32-bit addresses, since otherwise no file is well-formed.
