# dmake: a verified model

dmake is a make program; its sources also carry a debugging malloc library.
This project models the parts of it whose behaviour is hardest to see from one
function at a time, and proves what they promise:

* **The parallel build engine** (`Dag`, `BuildLog`, `Runs`, `BuildState`,
  `RunArgv`, `MakeState`, `Make`). The recursive scheduler of unix/runargv.c and
  the graph walk of make.c are methods over a shared mutable state. The operating
  system is nondeterministic: `wait()` gives back any child with any status, a
  recipe line leaves any time stamp on its target's file, and the clock shows
  anything, so every statement holds for every order in which children finish.
  Each run keeps a log: every line that starts, with its command, its process queue
  and whether a process was forked for it; every wait() status; every time stamp; and
  why dmake gave up. `BuildLog` has a rule for each single event, the methods keep
  the log *lawful*, and `Runs` derives statements about whole runs from the rules:
  order, which recipes are run, time stamps, giving up, a second run.
* **The debugging allocator** (`HeapState`, `HeapSteps`, `Malloc`). `HeapState`
  has the block chain as a value, what cutting, merging, growing and marking do
  to its structure, and what a client sees of it. The class `Allocator` is
  malloc(), free(), realloc() and malloc_chain_check() as they are written, down
  to the order of the pointer assignments; `Serve` says that every run of a client is a
  run of an ideal memory and that malloc_chain_check() never complains.
* **Inference by %-rules** (`Percent`, `Infer`). The pattern automata, run in
  lockstep, and the exact language they accept; the breadth-first search over
  chains of rules, its cut-off, its end, and its answer (a shortest chain).
* **Paths** (`Path`, `Prefix`): Clean_path() in its buffer, Build_path() and
  the relative paths of _prefix().
* **Conditionals** (`GetInp`, `Condition`) and **macro expansion** (`Expand`):
  each is a machine with marks or levels, proved against what conditionals and
  substitution mean.

A method that changes state is proved against a function or predicate on the
state before and after; the lemmas are about these.

## What the proofs brought to light

* Make_targets() waits for a child when a pass has scheduled nothing (make.c:247).
  A pass that leaves .ROOT unmade need not have a child running: the lines of a
  .SEQUENTIAL target carry the wait attribute (A_WFC and A_SEQ are the same bit),
  and waiting for them may collect everything else. But then the pass has
  scheduled a cell that was not scheduled before, so the next pass goes on. This
  is the disjunction in the contract of `Make.Make`; it is what ends the loop.
* dmake gives up exactly when a line fails that may not fail, or when a cell below
  .ROOT has no file and nothing to go by in its place (`BuildLog.Hopeless`).
* The prerequisites of a .SEQUENTIAL target are made one after the other, as
  the manual promises (man/dmake.tf:3171-3173): a line is only ever started
  where on some way from .ROOT to its target all prerequisites in front have been
  made at every .SEQUENTIAL target (`BuildLog.InTurn`, `Runs.OneAfterTheOther`).
  A target that is also wanted elsewhere can be started earlier from there.
* No target ends up older than a prerequisite, provided that the clock never runs
  back and is never behind a file, and that a recipe which leaves a file leaves it
  no older than any prerequisite (`Runs.TimesInOrder`). Where a recipe or the clock
  breaks this the target does end up older (`Runs.LeftBehind` for a recipe that
  leaves an old file, `Runs.ReadBehind` for a target that takes the time of the
  clock), with a warning unless it is .SILENT (sysintf.c:1034).
* After a complete run of that kind a second run starts no line of a target that
  depends on files only, with targets that have no recipe and no file, like
  `all: prog lib`, in between or on top (`Make.DmakeTwice`). A phony target further
  down is another matter: it takes the time of the clock, so what depends on it is
  made again.
* The list of Match_dfa() is ordered by rising state number, and of two rules
  with the same number the one tried later comes first; the comment at
  percent.c:56-59 has it the other way.
* `%.o` does not match "a..o": the character that ends an attempt at the suffix
  is used up (`Percent.DoubledDot`). The exact language is `Percent.Language`.
* The manual (man/dmake.tf:2634-2645) promises that many repetitions of an
  infinite %-rule when PREP is greater than 0. With PREP of 0 or 1 the search
  ends for all rules; with 2 or more the oldest ancestor overwrites the count and
  the single rule `% : a%` is tried for ever (`Infer.SearchNeedNotEnd`). It still
  ends for rules in layers, where what a rule asks for is only matched by rules of
  a lower layer (`Infer.LayersBound`).
* realloc() is meant to grow a block into the free block behind it and passes an
  override for that (dbug/malloc/realloc.c:120-123), but malloc_join() negates the
  override together with the in-use flag (malloc.c:312), so nothing is ever joined
  there: a block is moved exactly when it is too small on its own, however much
  room is behind it (`Malloc.Allocator.GrowthMoves`, `Malloc.Allocator.Realloc`).
* A block that realloc() leaves in place records one byte more than was asked
  for, without a guard byte behind it; one that it moves records the rounded size
  (dbug/malloc/realloc.c:116, 166).
* Clean_path() never looks at the last component: a trailing "foo/.." stays
  (`Path.CleanedAlready`, `Path.TrailingUp`).
* _prefix() counts every component that is left of the first path as a directory,
  so a "." or ".." in it misleads: between related paths, of which the second has
  neither, the result leads to the second exactly if the first has neither
  (`Prefix.RelativePath`; from "/a/." to "/a/b" it fails, `Prefix.DotsMislead`).
* In a condition, text behind a parenthesis replaces it, an operator before `)`
  is passed over, and && and || have equal rank (`Condition.NoComplaints`).
* A carriage return in the middle of a text makes Expand() loop without end
  (expand.c:117-147): ScanToken() ends a token there, but Expand() does not take it
  for white space. `Expand.StuckExactly` says when that happens, and
  `Expand.NeverStuck` what rules it out.

## Model

| member | source | states |
|---|---|---|
| Dag.TestCircle | dag.c:596-621 | the depth-first search with mark bits answers 1 iff a walk from the cell comes back to itself or to a marked cell; it calls Fatal iff so and asked to; otherwise every mark is as before |
| Dag.LoopsBackIsCycle | dag.c:596-621 | with no marks set that answer is: a cell that depends on itself can be reached |
| Dag.RankDrops | make.c:263-940 | on an acyclic graph the number of cells below a cell drops along every prerequisite link, which ends the recursion of Make() |
| BuildLog.ExitCodes | sysintf.c:900-903 | only a wait() status of 0 gives the result 0; an exit code is its second byte, and a signal gives 128 more than its number |
| BuildLog.InternalLines | unix/runargv.c:520-535 | `noop` and, outside a shell, `echo`, alone or with arguments, and empty lines start no process |
| BuildLog.OtherLines | unix/runargv.c:520-535 | ... and all others do |
| BuildLog.ShellIsUsed | sysintf.c:307-308 | a line is run in a shell iff it is told to be or has a shell metacharacter; its text is kept |
| Runs.EventAllowed | unix/runargv.c:462-698 | every event of a lawful run was allowed after the events before it |
| Runs.OnlyOnce | make.c:862-877 | no line is started or collected twice in a run, no cell is made twice, and dmake gives up once |
| Runs.LinesInOrder | unix/runargv.c:993-1020 | when a line starts, all earlier lines of its recipe have started and been collected, with exit code 0 or an ignored one |
| Runs.DescendantsMade | make.c:608-617 | when a target is made or one of its lines starts, everything below it is made |
| Runs.StartsBeforeMade | unix/runargv.c:1025-1049 | a line that starts at all starts before its cell is made, on an out-of-date target, and is over then, the whole recipe with it |
| Runs.BuildOrder | make.c:475-617 | once a line of a target starts, every line ever run below it is over, and every line of a recipe that was run there had exit code 0 or an ignored one |
| Runs.LoadBounded | unix/runargv.c:514-516 | at no time do more lines run than there are process queues |
| Runs.SlotsApart | unix/runargv.c:905-930 | no two lines run in one process queue |
| Runs.OneAfterTheOther | make.c:489-600 | nothing that is reached from .ROOT only through prerequisite p of a .SEQUENTIAL target is started, made or given up on before all prerequisites in front of p are made |
| Runs.OneIsOver | make.c:489-600 | ... and when such a line starts, every line ever run below those prerequisites is over, and their recipes have succeeded |
| Runs.QuitIsFinal | quit.c:34-82 | after Quit() nothing starts and nothing passes |
| Runs.QuitHasCause | sysintf.c:891-945 | when dmake gives up, some line failed that may not, or some cell below .ROOT cannot be made |
| Runs.RecipeDecided | make.c:724-847 | for every made cell: if its file is older than 1 or than the newest prerequisite every line of its recipe was run and succeeded, otherwise none was started |
| Runs.TimesInOrder | sysintf.c:949-1042 | with a clock that is never behind and recipes that leave no old file, no made target is older than a prerequisite |
| Runs.LeftBehind | sysintf.c:1000-1012 | a recipe that leaves its file older than a prerequisite gets the target that older time stamp |
| Runs.ReadBehind | sysintf.c:979-999 | a phony target, or one that has no file after its recipe, gets the last reading of the clock; it is older than a prerequisite if that reading is, and older than its newest one only with a clock that is not good |
| Runs.FilesLeftAlone | make.c:724-756 | where the files are settled no line of a file target is started, and a file target keeps the time of its file |
| Runs.RunSettles | sysintf.c:949-1042 | after a run with such a clock and such recipes no file of a made target is older than a file further down that it depends on, whatever is in between: phony targets, or targets without a recipe and a file |
| Runs.VirtualTime | sysintf.c:989-1012 | a target without a recipe is as new as its newest prerequisite, or as a file of its own that is newer |
| Runs.SecondRun | make.c:724-756 | in a second run a cell with nothing phony below it, where every target that lives as a file has one with a time stamp of 2 or more, starts no line and gets the time stamp of the first run |
| BuildState.ValidBounds | unix/runargv.c:870-948 | the number of valid slots, and when it is none or all of them |
| BuildState.StartIsAllowed | unix/runargv.c:871-948 | from the invariants: the line that starts is the next line of its recipe, its target is out of date with all prerequisites made, the queue is free, and a process is used unless the line is internal |
| BuildState.StartKeepsCore | unix/runargv.c:871-948 | starting a line keeps the slot accounting: count, owners, processes and what they run, order, log |
| BuildState.StartKeepsFlow | unix/runargv.c:871-948 | ... and the conservation of lines: what is submitted is what is started followed by what is queued, line by line |
| BuildState.ReapKeepsCore | unix/runargv.c:740-829 | collecting a child, whatever it did to its file, keeps the accounting |
| BuildState.FinishKeepsCore | unix/runargv.c:952-985 | vacating a slot keeps the accounting |
| BuildState.FinishGivesVacated | unix/runargv.c:952-985 | behind the vacated slot the rest of the recipe is still queued, line by line |
| BuildState.PopGivesStartable | unix/runargv.c:993-1020 | the entry taken from the queue is the next line of its target, with its command, and goes into the vacated slot |
| BuildState.AttachKeeps | unix/runargv.c:1076-1108 | queueing behind a running line keeps accounting and conservation |
| BuildState.MadeKeepsCore | sysintf.c:949-1042 | setting F_MADE and ce_time keeps accounting, order and time stamps |
| BuildState.OwnerIsUnique | unix/runargv.c:1055-1072 | no target owns two valid slots |
| BuildState.StillRunning | unix/runargv.c:740-845 | a line that is not over keeps its slot and process, whatever is handled meanwhile |
| BuildState.SteadyTrans | unix/runargv.c:702-845 | interference of the scheduler with other targets composes: submitted counts, flags and idle cells are left alone |
| RunArgv.Scheduler.constructor | unix/runargv.c:462-698 | an engine with no process, all slots free, an empty log |
| RunArgv.Scheduler.Runargv | unix/runargv.c:462-698 | submits exactly one line: queued behind the running line of its target, or started with its own command, from _finished_child in the vacated slot; 0 says that it is over; other targets get no line |
| RunArgv.Scheduler.StartLine | unix/runargv.c:520-697 | the line is started with its own command, as a forked process unless it is empty, noop or an echo outside a shell |
| RunArgv.Scheduler.AddChild | unix/runargv.c:871-948 | the line goes into the vacated slot, or the first free one; a line to wait for is over on return |
| RunArgv.Scheduler.FindFree | unix/runargv.c:905-930 | a free slot exists when one is searched, and the vacated one is reused |
| RunArgv.Scheduler.AttachCmd | unix/runargv.c:1076-1108 | the line is appended to the queue of the running target and inherits its wait attribute |
| RunArgv.Scheduler.WaitForChild | unix/runargv.c:702-845 | -1 iff there is nothing to wait for; else at least one line is collected and the number of running and queued lines drops; a line with the wait attribute is over on return |
| RunArgv.Scheduler.HandleOne | unix/runargv.c:740-829 | one child is collected, its wait() status is recorded for the line that it ran, and a failure that is not ignored ends the build |
| RunArgv.Scheduler.FinishedChild | unix/runargv.c:952-1051 | the line is over with that status; it fails and the build ends, or it passes and the next queued line starts in the same slot; after the last line the target is made |
| RunArgv.Scheduler.FinishTarget | unix/runargv.c:1025-1049 | after its last line the target is made with the time stamp that the rules of Update_time_stamp give |
| RunArgv.Scheduler.Running | unix/runargv.c:1055-1072 | the slot that runs a line of the target, or -1 |
| RunArgv.Scheduler.HandleResult | sysintf.c:891-945 | the build ends iff the wait() status is not 0 and not ignored (or it was ending) |
| RunArgv.Scheduler.Quit | quit.c:34-82 | for a recorded reason: all children are collected, nothing is started, and it ends |
| RunArgv.Scheduler.NewTimeStamp | sysintf.c:962-1012 | the clock for phony targets and for missing files of recipes, the file's own time where there is a recipe, and for virtual targets the newest of prerequisites and file |
| RunArgv.Scheduler.UpdateTimeStamp | sysintf.c:949-1042 | F_MADE is set with that time stamp, and a warning is given iff it is behind the least acceptable one and the target is not .SILENT |
| MakeState.RunIsComplete | make.c:239-248 | with .ROOT made, everything below it is made, each recipe was run iff its target was out of date, no line has failed, and the files are as the log says |
| MakeState.RunIsInOrder | sysintf.c:949-1042 | ... and with a good clock and good recipes no ce_time is behind that of a prerequisite |
| MakeState.AllBelowMade | make.c:608-617 | everything on a walk below a made target is made |
| MakeState.VisitedRunsOrIsMade | make.c:475-617 | as long as a scheduled target is not made, something is running |
| MakeState.NoFailures | sysintf.c:891-945 | as long as dmake goes on no line has failed that may not |
| Make.DoCmnd | sysintf.c:249-316 | one line is handed over; with one queue, or for a sequential target, it is over on return |
| Make.ExecCommands | make.c:1257-1462 | all lines of a recipe are submitted, in order; 0 says that the target is made |
| Make.StatCell | make.c:385-421 | the target is given the time of its file; the build ends iff there is no rule, no file and no prerequisite |
| Make.Newest | make.c:608-640 | whether all prerequisites are made, and the newest of their time stamps, at least 1 |
| Make.Update | make.c:725-847 | an out-of-date target gets its least acceptable time, and its whole recipe is submitted; without a recipe it is made at once, or the build ends where there is nothing to go by |
| Make.MakeTarget | make.c:720-880 | the whole recipe is submitted iff the target is older than its newest prerequisite, and otherwise it counts as made with the time of its file |
| Make.MakePrerequisites | make.c:475-601 | the walk over the prerequisites; it stops early or leaves one unmade only if something runs or was newly scheduled; for a .SEQUENTIAL target each newly scheduled cell is below a prerequisite in front of which all are made, and the walk stops once something was left running |
| Make.Make | make.c:263-940 | a pass that leaves its target unmade has something running or scheduled a new cell; with one process queue one pass makes the target |
| Make.MakeTargets | make.c:239-248 | for every order in which children finish the loop ends: by quitting iff some line failed that may not or some cell below .ROOT cannot be made, and otherwise with the run complete |
| Make.Dmake | make.c:210-258 | Test_circle and the whole build: refused iff circular, else ended as above |
| Make.DmakeTwice | make.c:724-756 | after a complete run with a good clock and good recipes an immediate second run starts no line of a target with nothing phony in or below it whose recipes left files (of time 2 or more), and gives it the time stamp that it had; targets without a recipe may have a file of any age or none |
| HeapState.CutKeepsStructure | dbug/malloc/malloc.c:224-286 | cutting a block keeps the chain ordered, linked both ways, tiling and ending at malloc_end |
| HeapState.MergeKeepsStructure | dbug/malloc/malloc.c:304-341 | ... so does merging a block with the next one |
| HeapState.GrowKeepsStructure | dbug/malloc/malloc.c:133-157 | ... and a new block at the end of the arena |
| HeapState.MarkKeepsStructure | dbug/malloc/malloc.c:167-180 | ... and handing a block out or taking it back |
| HeapState.CutAndNeighbours | dbug/malloc/malloc.c:224-286 | which neighbouring blocks may both be free after a cut |
| HeapState.MergeAndNeighbours | dbug/malloc/malloc.c:304-341 | ... and after a merge |
| HeapState.EvolvesKeepsStore | dbug/malloc/realloc.c:116-176 | an operation that evolves the heap leaves the memory of all other blocks as it was |
| HeapSteps.JoinFree | dbug/malloc/free.c:120-137 | joining a free block with a free next one leaves no two free neighbours there |
| HeapSteps.TrimKeeps | dbug/malloc/malloc.c:224-286 | a split keeps the chain, the coalescing and all bytes up to the cut |
| HeapSteps.TrimGives | dbug/malloc/malloc.c:224-286 | a split happens iff more than M_SIZE + M_RND is left, and the cut-off part reaches to the old end of the block in a free block |
| HeapSteps.HandKeeps | dbug/malloc/malloc.c:160-190 | the second half of malloc() on any free block that is large enough |
| HeapSteps.FreeKeeps | dbug/malloc/free.c:100-149 | two-sided coalescing: the block's bytes end in a free block full of M_FREE_FILL, no two free neighbours |
| HeapSteps.ResizeKeeps | dbug/malloc/realloc.c:151-176 | realloc() in place keeps the first min(old, new) bytes, fills the rest, and gives back what is more than M_SIZE + M_RND too much as a free block behind |
| Malloc.FaultsAreExact | dbug/malloc/free.c:50-98 | the pointer checks accept exactly pointers to live blocks; the test for bad connections never fires |
| Malloc.Tiled | dbug/malloc/malloc.c:82-157 | every address of the arena is in exactly one block, headers included |
| Malloc.HandDone | dbug/malloc/malloc.c:133-190 | the block is the lowest that fits, or new at the end of the arena if none does; it was not in use; nothing else changes |
| Malloc.ChainStep | dbug/malloc/mlc_chn.c:60-130 | following the chain goes upwards and skips no block |
| Malloc.NeverDisconnected | dbug/malloc/mlc_chn.c:60-130 | the structural alarms never go off |
| Malloc.WriteInside | dbug/malloc/mlc_chn.c:140-175 | a write inside the recorded size changes that byte of the client's memory only and is not reported |
| Malloc.WriteOutside | dbug/malloc/mlc_chn.c:140-175 | a write that changes a fill byte, behind a live block's bytes or in a free block, makes malloc_chain_check() count exactly this block more |
| Malloc.Allocator.GrowthMoves | dbug/malloc/realloc.c:120-149 | after malloc(7) more than 8000 bytes are free behind the block, and realloc() to 100 bytes moves it all the same |
| Malloc.ReallocInPlace | dbug/malloc/realloc.c:151-176 | a block that is large enough keeps its bytes, records the request plus one, is filled behind, and gives back the rest exactly if it is large enough for a block of its own |
| Malloc.MovedCopy | dbug/malloc/realloc.c:125-147 | up to the copy a moved block has its first min(old, new) bytes, and no other block has changed |
| Malloc.Allocator.constructor | dbug/malloc/malloc.c:41-62 | an empty arena |
| Malloc.Allocator.MallocMemset | dbug/malloc/malloc.c:376-387 | exactly the bytes from ptr on are filled; a length below 1 fills none |
| Malloc.Allocator.MemCpy | dbug/malloc/memory.c:92-124 | the copy is right for overlapping areas too |
| Malloc.Allocator.MallocJoin | dbug/malloc/malloc.c:304-341 | a free block swallows a free next one that it touches; with the override nothing is joined |
| Malloc.Allocator.MallocSplit | dbug/malloc/malloc.c:224-286 | writing the new header before linking it is the same as cutting first and joining then |
| Malloc.Allocator.FirstFit | dbug/malloc/malloc.c:82-130 | the lowest free block that is large enough, or none |
| Malloc.Allocator.Extend | dbug/malloc/malloc.c:131-157 | a new free block in a whole number of M_BLOCKSIZE bytes at the end |
| Malloc.Allocator.Malloc | dbug/malloc/malloc.c:41-195 | first fit or growth; the new block is filled with M_FILL and was nobody's; all other memory is as before |
| Malloc.Allocator.Free | dbug/malloc/free.c:38-149 | a good pointer is taken back, a bad one changes nothing; an overrun is reported iff a fill byte was changed |
| Malloc.Allocator.Move | dbug/malloc/realloc.c:125-149 | a moved block keeps its first min(old, new) bytes, fill follows, and the old block is free |
| Malloc.Allocator.Realloc | dbug/malloc/realloc.c:47-178 | in place iff the block is large enough as it is, else moved; the first min(old, new) bytes kept, fill behind, and what is no longer needed in a free block; a bad pointer changes nothing |
| Malloc.Allocator.MallocChainCheck | dbug/malloc/mlc_chn.c:34-188 | returns the number of blocks whose fill was written over, so 0 iff there is none |
| Malloc.Allocator.Serve | dbug/malloc/mlc_chn.c:34-188 | for every sequence of malloc, free (also of bad pointers), realloc and writes inside blocks the client sees an ideal memory, and malloc_chain_check() returns 0 after each request |
| Percent.BuildDfa | percent.c:154-217 | the state table of a pattern, and an error iff it has more than one % |
| Percent.ShiftAtNul | percent.c:221-251 | no machine runs past the terminator, and none accepts before it |
| Percent.ScanIsRest | percent.c:221-251 | from any point of the scan a machine accepts iff what is left is blocks followed by the suffix |
| Percent.Language | percent.c:43-251 | a pattern accepts iff the text is prefix, stem, suffix with a stem made of blocks, each a prefix of the suffix and one character that does not continue it; [pstart, pend) is that stem |
| Percent.PlainStem | percent.c:221-251 | a text without the first character of the suffix is always a stem |
| Percent.DoubledDot | percent.c:221-251 | `%.o` does not match "a..o" |
| Percent.DottedStem | percent.c:221-251 | `%.o` matches "a.b.o" |
| Percent.StemIsUnique | percent.c:43-117 | a pattern matches a text with one stem only |
| Percent.MatchingIsExact | percent.c:43-117 | the list has each matching rule once, with its stem, ordered by state number and then by position backwards |
| Percent.Nfa.MatchDfa | percent.c:43-117 | the lockstep run gives the list of running each machine alone, whatever earlier names left behind, and resets all machines |
| Percent.Nfa.AddNfa | percent.c:136-150 | a new pattern becomes the first one |
| Infer.DfaSubset | infer.c:584-657 | the loops over the stack compute the cut, set by set |
| Infer.CutExactly | infer.c:584-657 | a rule is cut iff an earlier set that is included in the matches has it with a count of PREP or more |
| Infer.OldestCounts | infer.c:622-632 | a rule that is left has one more than its count in the oldest of the sets that count it |
| Infer.CutAtZero | infer.c:584-657 | with PREP 0 no earlier set is included in what is left |
| Infer.CutAtOne | infer.c:584-657 | with PREP 1 an earlier set that is included in what is left had not been counted |
| Infer.MetAgain | infer.c:584-657 | ... and a set met again has |
| Infer.NeverIncluded | infer.c:584-657 | PREP 0: along a chain no set is included in a later one |
| Infer.NeverThrice | infer.c:584-657 | PREP 1: no set occurs three times on a chain |
| Infer.ChainIsBounded | infer.c:584-657 | a chain on which the search goes on has at most (PREP+1)(2^n - 1) steps for n rules, however long the names get |
| Infer.SearchNeedNotEnd | infer.c:622-632 | for each PREP of 2 or more there are rules for which the search is at chains of every length and never has an answer |
| Infer.LayersBound | infer.c:584-657 | for rules in layers a chain on which the search goes on has at most one step for each layer, whatever PREP is |
| Infer.FeedsByLast | percent.c:221-251 | what a rule asks for is only matched by a rule whose pattern ends in the same character, unless one of the two ends in % |
| Infer.StepFollowsRule | infer.c:325-541 | each step of a chain is a rule whose target pattern matches the name, and the next name is its prerequisite with the same stem for % |
| Infer.StepExactly | infer.c:364-520 | the steps from a name are exactly the applications of the rules in its set that lead to another name with not too many dots |
| Infer.BuildAround | infer.c:545-560 | the stem is put in the place of % and the rest of the pattern is kept |
| Infer.NextName | infer.c:427-438 | a rule with target `x%y` and prerequisite `a%b` leads from x stem y to a stem b, another name with not too many dots |
| Infer.AnswerExactly | infer.c:325-541 | the admissible chains are exactly those whose last name exists or has a recipe, whose other names do not, and whose rules allow inference |
| Infer.CandidatesOffered | infer.c:364-520 | the candidates for a name are exactly the edges of the matched rules that are allowed |
| Infer.NextLevel | infer.c:92-161 | a level without answer gives the next level, complete |
| Infer.SolutionIsFound | infer.c:92-161 | every answer of a length is found at its level |
| Infer.Inference.RulesFor | infer.c:344-362 | the rules that the automata report, cut against those of the ancestors |
| Infer.Inference.DerivePrerequisites | infer.c:325-541 | exactly the answers that continue a chain, and, if there are none, exactly the open chains |
| Infer.Inference.Deepen | infer.c:92-110 | the same for all chains of one length |
| Infer.Inference.InferRecipe | infer.c:60-321 | for PREP 0 and 1, and for rules in layers with any PREP, the search ends; it finds a chain iff an admissible one (Infer.AnswerExactly) exists, which ends in a name that exists or has a recipe; no admissible chain is shorter, and one that ends in an existing file is preferred |
| Path.CleanIsNormal | path.c:159-285 | no empty part, no "." but a kept leading one, no name in front of "..", at most two root slashes |
| Path.CleanTwice | path.c:159-285 | cleaning a cleaned path changes nothing |
| Path.SlashesAtHead | path.c:208-216 | three or more slashes at the head count as one; one or two are kept |
| Path.DotAtHead | path.c:240-246 | "./" in front of a name is dropped, except in OOODMAKEMODE |
| Path.CleanedAlready | path.c:159-285 | exactly the paths with at most two root slashes and directory parts in normal form are left alone, whatever the last component is |
| Path.CleanIsNotLonger | path.c:159-285 | a cleaned path is no longer |
| Path.CleanKeepsMeaning | path.c:159-285 | from every directory the cleaned path leads to the same directory and names the same last component; the root is kept |
| Path.MoveDown | path.c:200-215 | the rest of the string is moved down with its terminator |
| Path.CleanRest | path.c:195-283 | the pointer loop ends and leaves the reduced components in the buffer |
| Path.CleanPath | path.c:159-285 | the buffer holds the cleaned path, for every string |
| Prefix.BuiltLeads | path.c:98-155 | a built relative path leads where its parts led |
| Prefix.Navigates | make.c:1005-1071 | so many levels up and down the other path: from every directory the cleaned result leads there |
| Prefix.RelativePath | make.c:944-1071 | equal paths give "", unrelated ones pat itself; between related ones the result leads to where pat leads if pfx has no "." and "..", and where pat has none only if; the result is a cleaned path |
| Prefix.DotsMislead | make.c:944-1071 | from "/a/.", that is "/a", the result for "/a/b" does not lead to "/a/b" |
| GetInp.RunItems | getinp.c:507-596 | at any depth, nested conditionals leave the nesting as it was and return exactly the lines of the branches taken |
| GetInp.RunCloses | getinp.c:507-596 | a run without message that ends outside all groups has read well-nested lines |
| GetInp.Conditionals | getinp.c:248-271 | reading goes well iff the lines are well nested within the depth limit, and then the lines of the first true or else branches are returned |
| GetInp.TakenAllTheWay | getinp.c:507-596 | where lines are not skipped, no enclosing branch is skipped |
| GetInp.Reader.HandleConditional | getinp.c:507-596 | action[] and ifcntl[] step as the stack of levels does, with the same messages |
| GetInp.Reader.ReadFile | getinp.c:248-271 | the lines returned up to the end of the file, or the message |
| Condition.ParseComplex | getinp.c:608-719 | for every token sequence the pointer loop ends and reads what the recursive reading does |
| Condition.ReadIsValue | getinp.c:608-719 | wherever a well-formed condition is ahead, its value is read up to its end, operators from left to right |
| Condition.TwoTerms | getinp.c:672-679 | `a && b` is true iff both are, and of `a`, `b` joined by the other operator iff one is |
| Condition.NoComplaints | getinp.c:676-702 | three ill-formed shapes: an operator in front of `)` is passed over, a parenthesis that is not closed ends with the line, and a `)` too many ends the reading |
| Expand.CircularIsEndless | expand.c:789-822 | expansion reports a circular macro iff plain substitution never comes to an answer, and otherwise yields what it yields |
| Expand.StuckExactly | expand.c:117-147 | Expand() loops for ever iff its scan comes to a carriage return, or to a macro use whose name or value gets stuck |
| Expand.ValueStuck | expand.c:780-822 | ... where a name with a `$` and a value that is not yet expanded are scanned in turn |
| Expand.NeverStuck | expand.c:99-156 | it does not loop if neither the text nor any value still to be expanded has a carriage return |
| Expand.LetterUse | expand.c:641-790 | `$A` is the value of A, `$$` a dollar, and `$` in front of white space nothing |
| Expand.BracketUse | expand.c:641-790 | `$(name)` and `${name}` are the value of name, which is expanded first if it has a `$` |
| Expand.NestedUse | expand.c:641-790 | with brackets inside the name the closing one belongs to the first |
| Expand.PlainValue | expand.c:789-812 | an undefined macro is empty, one with plain text is that text, and a marked one is circular |
| Expand.PlainInFront | expand.c:519-637 | plain text is copied |
| Expand.Expander.Turn | expand.c:117-147 | one turn of the loop: at a carriage return it leaves position, result and macros as they were, and elsewhere it goes on |
| Expand.Answered | expand.c:789-822 | an expansion that is not circular is plain substitution, deep enough |
| Expand.NoAnswer | expand.c:789-822 | a circle that is entered has no answer at any depth |
| Expand.Expander.Expand | expand.c:99-156 | comes to a verdict for every table: the text with every mark restored, a circular macro, a syntax error, or a turn of the loop that changes nothing |
| Expand.Expander.ScanToken | expand.c:519-637 | a token with its macros expanded |
| Expand.Expander.ScanMacro | expand.c:641-822 | one macro use with its name expanded first |
| Expand.Expander.Evaluate | expand.c:789-822 | the value of a macro, marked meanwhile |
| Expand.ScanName | expand.c:641-720 | the name behind a `$`, up to the bracket that closes it |

## Left out

* Real processes, signals, file descriptors, shells and temporary files: `wait()` is
  any running child, `stat` and the clock are arbitrary, and Fatal() ends the build.
  A recipe line may leave any time stamp on the file of its own target and changes no
  other file. Messages are left out; that a time stamp is worth a warning is a result.
* The -k option with A_ERROR, USE_SPAWN and CreateProcess, .REMOVE, shell escapes,
  and the allocation of _procs when it is first used.
* .SETDIR, .LIBRARY, .UPDATEALL, `::`, `:!`, dynamic prerequisites, group recipes,
  the options -n, -q, -t and -u, Force, and the state file. In the walk,
  prerequisites are as parsed; inference is a model of its own.
* Cells are records numbered in the graph, and their changing fields are kept by
  number; that two list entries share a cell is the equality of their numbers.
* Prolog's part in the build (a recipe and A_SEQ for .ROOT) is a condition on the
  root of the graph.
- Make.MakeTargets: the root is sequential, as Make_targets() and Prolog set it up; other graphs are not considered.
- Infer.Inference.InferRecipe: for PREP of 2 or more rules that are not in layers are excluded, because there the search need not end (Infer.SearchNeedNotEnd). Which of several equally short chains of the same kind is taken, and the warnings about them, are not stated.
* In inference: .SETDIR, names with a `$` in them, and patterns with more than one %.
* In the allocator: sbrk() that fails or is not contiguous, overflow of sizes,
  headers written over or forged by the client, malloc_check_data(), the
  handling of warnings, and the chain check inside malloc().
- Malloc.Allocator.Serve: the client writes inside its blocks only; what malloc_chain_check() says of other writes to data areas is Malloc.WriteOutside.
* Drive letters, Cygwin paths, and DirSepStr other than "/".
* Build_path() works in a static buffer; its result is the function `Prefix.Built`.
- Prefix.RelativePath: of two related paths that both have "." or ".." components, where the result may or may not lead to the second, nothing is stated.
- Make.DmakeTwice: nothing is said of a target that is phony or depends on a phony one, or of one whose recipe left no file: these take the time of the clock and may be made again. A time stamp of 1 is excluded, because it is also that of having no prerequisite.
* How a single term is compared (partcomp()) is a parameter, and the value of
  the condition on a line that is skipped is taken as read.
- Condition.ParseComplex: the line is read as tokens; white space around them is not kept.
- Condition.NoComplaints: shows three shapes; for every other text Condition.ParseComplex says that it is read as the recursive reading does.
* Macro modifiers, functions, `{...}` products and `<+...+>`: the outcome is `Unmodelled`.
* dmstring.c, hashing, rule and macro parsing, Push_macro, Pop_macro,
  Add_prerequisite, memory release, options and dumping.
