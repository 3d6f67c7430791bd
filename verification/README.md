# Paren: the collector, the evaluator and the reader, modelled and proved

Paren is a small Lisp interpreter in C. This project models its three hard parts and proves what they are for.

**The collector** (`memory.c`, `memory.h`, `dlist.c`, the write barrier of `node.c`) reclaims cells by reference
counts and, one small step per call, by tracing with three colours. `GcState`, `Collector`: the heap as a value and
every operation as a function on it; which element of a list a step takes is a parameter, so that results hold for
every order of the lists. `Safety`, `Mutator`, `Runs`: an invariant that every operation keeps, and safety over all
interleaved runs. `Reuse`, `Loss`: what goes wrong when a cell is reused that still had a count, in one run and in
general. `Cycles`: termination and exactness of collection cycles. `Wakes`: what puts the collector to sleep and what
wakes it up. `Acyclic`: reference counting suffices without link cycles. `Asserts`: why the collector's own assertions
hold. `Memory`: the class whose fields and loops are those of the original, each method proved to act as the functions
say; its ghost field `view` is the heap that the fields stand for. `Rings`, `Headers`: the six lists as sequences with a
sentinel index and owners. `DList`, `Pointers`: the circular doubly linked lists on the heap, proved to act as these
sequences, all six of them together. `Search`: the debugging search for paths.

**The evaluator** (`eval.c`, `frame.c`, `environ.c`) is one loop over labels with an explicit stack of saved locals.
`Eval`: the recursive evaluator that the comments of the original describe, with the flag word that decides where a
call binds, and with fuel because programs need not end. `Machine`: the loop as steps. `Refinement`, `Adequacy`: the
two agree in both directions as long as no continuation is made or resumed. `EvalLoop`, `EnvironHeap`, `FrameStack`:
the same in place, with the loops of the original, and with the recursive evaluator's outcome as the result.
`Arguments`: argument lists as cells that are linked in place. `Environ`, `Binding`: lookups and parameter binding.
`Laws`: what each kind of expression means, with arguments and parameters by position and names by what they look up
to. `TailCalls`, `Names`: what a chain of tail calls costs, and where it departs from lexical scoping. `Frames`: all
saved frames, also those inside continuations, fit their labels and were pushed by an earlier step of this or an
earlier evaluation, so that resuming a continuation resumes the caller of that step. `CallCc`: call/cc hands out the
frames of its own expression, so that using what it hands out returns from there.

**The reader and the printer** (`token.c`, `parse.c`, the printer of `node.c`, the number routines of
`libc_custom.c`). `Numbers`, `Token`, `Reader`, `Printer`: specification functions, and methods with the loops and
recursion of the original, with the texts on which the loops do not end. `Divergence`, `Pushdown`: where the reader
does not return, as a property of its recursion and as one of the tokens, and how it ends otherwise. `RoundTrip`,
`Strings`: what printing and reading gives back, exactly. `Lexing`, `Texts`: what texts mean, with characters by their
codes and elements of lists by position.

`Sums` and `Options` hold general helpers.

What the proofs found about the code:

- `memory_request` may hand out a swept cell that half-swept cyclic garbage still counts links to; its count restarts
  at zero (memory.c:299) and the check that would notice is commented out (memory.c:317). `Runs.ReuseNeedsCleanCell`
  shows that this check is exactly what safety needs. `Loss.DirtyReuseLoses`: after every such reuse the program can
  go on so that the cell is about to be freed although a locked root links to it. `Reuse.DirtyReuseLosesReached` is a
  whole run of that kind with a collector step behind every operation, as in the default build. `Acyclic` shows three
  ways to meet the condition: reuse after a swap, allocation outside of a sweep, and acyclic heaps.
- After two cycles in which no reference was dropped the collector sleeps until one is (memory.c:567-573). Tracing an
  unlocked root takes it off the roots (memory.c:504-544) without counting as a change, so that nodes that link to each
  other can lose their last root in this way while the collector falls asleep on them: `Wakes.SleepsOnGarbage` is a run
  in which two such nodes stay for as long as the program drops nothing. `Wakes.MadeGarbageIsFreed`: garbage that an
  operation of the program makes always wakes the collector up, and two cycles free it.
- `fmt_s64` takes a negative remainder for negative values (libc_custom.c:144-147) and prints a bare `-`. A symbol
  whose name `strtoll_custom` consumes, such as `+` or `0x`, reads as a number. `RoundTrip` states the round trip as
  an equivalence with these two exceptions; `RoundTrip.LostExamples` are instances.
- The tokenizer does not always come back: a comment that the input ends in is skipped for ever, and so is the rest
  of an atom of 32 or more characters at the end of input, which counts as an atom character. `Token.ChompHangs`
  says that these are all the texts it hangs on, `Token.SkipsForEver` and `Token.DiscardsForEver` that the loops
  really have no end there. The quote character is never consumed, and nothing else is not consumed
  (`Reader.QuoteExact`), so that a list with a quote for an element is read for ever. `Pushdown.DivergesOnTrap`
  combines the two: the reader does not come back if and only if it meets one of them with an expression still open.
  A text without quotes that ends in a newline is always read (`Pushdown.NewlineReads`).
- `if` marks a tail call also in an activation without an environment frame of its own (eval.c:291), so that a lambda
  called in its branch binds its parameters in the caller's frame. `TailCalls.CallScope` says which names this
  affects, `TailCalls.IfOverwritesCaller` is an instance.
- A missing value of def! or set! makes eval return in the middle of its loop without a result (eval.c:339), whatever
  frames are left. `Adequacy.QuitExact` and `Adequacy.QuitsWhenMissing` say exactly when, `Adequacy.DefWithoutValue`
  is an instance.
- Almost every syntax error makes the reader drop a node that is missing (parse.c:82, parse.c:162), which in the
  default build looks for the memory manager in front of address zero (node.c:149-153). The one thing, besides the end
  of the input, that is reported is an outermost list that is not closed behind its dotted tail
  (`Pushdown.EndsWhereFinished`).
- Argument lists are linked in place while frames hold on to them. A continuation from within an argument that is used
  a second time relinks them, so that a continuation from within a later argument may then apply the function to the
  wrong values, and to fewer of them. `Arguments.IntactIs` and `Arguments.CallGetsMeant` say when the values are
  right, `Arguments.ReentryMixes` is an instance.

Characters are C's signed chars as integers, input a sequence of them, and -1 the end of input, also when it is read
as a character. Cells, bindings and environment handles are numbers. Operations of the running program are allowed
on cells that the roots reach, which is what the memory manager needs of its callers.

## Model

| member | source | states |
|---|---|---|
| Collector.NewLinksDo | memory.c:412-443 | advising new links raises the count of each cell by the number of links to it, moves the unprocessed ones among their targets to the boundary list, and changes nothing else |
| Collector.StaleLinksDo | memory.c:445-480 | dropping links lowers each count by the number of links to the cell, but not below zero; a cell whose last reference goes awaits freeing if it is neither locked nor free; the count of clean cycles restarts unless all the links are null; nothing else changes |
| Collector.FreeCellDoes | memory.c:591-592 | freeing a cell puts it on the free list with its link slots kept, uncounts each of its links once, those to itself included, and restarts the count of clean cycles if it had any |
| Collector.TryMovesDo | memory.c:504-544 | tracing links moves to the boundary just the targets that are unprocessed or unlocked roots |
| Collector.ScanDoes | memory.c:603-631 | tracing a cell puts it among the processed ones and moves its link targets as above, and changes nothing else |
| Collector.NewNodeDoes | node.c:176-189 | a new node is an unlocked, unreferenced root with the given links; their targets are counted up and the unprocessed ones moved to the boundary |
| Collector.PatchAgain | node.c:191-217 | overwriting the only slot of a cell with the link that it holds leaves counts and places as they were, since the new link is advised before the old one is dropped |
| Safety.NewLinkKeeps | memory.c:412-443 | a new link to a live cell keeps the invariant, with the link as a count that runs ahead of the heap until the slot is written |
| Safety.StaleLinkKeeps | memory.c:445-480 | dropping a counted link keeps the invariant, finds a positive count, and can only shrink the live set |
| Safety.FreeCellKeeps | memory.c:578-601 | a cell outside the live set that no traced cell links to can be freed, self-links and duplicate links included |
| Safety.PendingUnlinked | memory.c:588-591 | a cell that awaits freeing is linked from no cell that is not free |
| Safety.TracedAreLive | memory.c:633-646 | when tracing has run out of work, the traced cells alone are closed under links, so every unprocessed cell is garbage |
| Safety.ScanKeeps | memory.c:504-544 | tracing a boundary cell or a root keeps the invariant and leaves no link from a traced cell to an unprocessed one |
| Safety.FreeAreClean | memory.c:661-677 | when the swap is due, every free cell has count zero and no cell that is not free links to a free one |
| Safety.SwapKeeps | memory.c:661-677 | moving the sentinel and swapping the coloured lists keeps the invariant |
| Mutator.ReachedIsLive | memory.c:418-432 | whatever the roots reach lies in the live set, so that callers may link to it |
| Mutator.RequestKeeps | memory.c:305-343 | handing out an unreferenced cell, or a new one, keeps the invariant |
| Mutator.NewNodeKeeps | node.c:176-189 | allocating a node with its links keeps the invariant |
| Mutator.PatchKeeps | node.c:191-217 | overwriting a link slot, with retain before store before release, keeps the invariant |
| Mutator.LockKeeps | memory.c:372-389 | locking a live cell keeps the invariant |
| Mutator.UnlockKeeps | memory.c:391-410 | unlocking a root, referenced or not, keeps the invariant |
| Runs.CollectKeeps | memory.c:553-685 | every collector step in every phase keeps the heap safe |
| Runs.ApplyKeeps | memory.c:412-685 | every allowed operation keeps the heap safe, provided that a cell handed out again is unreferenced |
| Runs.ReuseNeedsCleanCell | memory.c:314-317 | the disabled check at allocation is exactly what is needed: the heap is safe after an allowed operation if and only if a reused cell had count zero |
| Runs.SafeProtectsReached | memory.c:418-432 | no cell that a root reaches is free or about to be freed |
| Runs.FreedIsGarbage | memory.c:578-659 | the cell that a step frees is reached from no root, locked or not |
| Runs.CollectFreesOnlyGarbage | memory.c:553-685 | a step changes nothing about what locked roots reach, frees at most the one cell it works on, only if no root reaches it, and takes no cell off the free list |
| Runs.RunIsSafe | memory.c:553-685 | every run that interleaves allocation, linking, unlinking, locking, unlocking and collector steps ends in a safe heap, if its reuses are clean |
| Runs.RunNeverLosesReached | memory.c:553-685 | in no such run is a cell that the roots reach free or about to be freed |
| Runs.RunKeepsCounts | memory.c:588-612 | in every such run a count equals the number of link slots of non-free cells that point at the cell, and locks and counts match the lists |
| Reuse.DirtyReuseLosesReached | memory.c:294-317 | without the check there is a run of the default build, with a collector step behind every operation that node.c makes, after which a cell that a locked root links to is about to be freed |
| Loss.ReuseIsDirty | memory.c:294-317 | whenever a free cell that is handed out still had a count, some unprocessed or pending garbage cell links to it, and the trace has not claimed that cell |
| Loss.DoomedLoses | memory.c:578-601 | from a heap in which a locked root and an unclaimed garbage cell both link to a cell that counts one reference, a run goes on to a heap in which that cell awaits freeing under the locked root |
| Loss.DirtyReuseLoses | memory.c:294-317 | every reuse of a cell that is not clean has a continuation of allowed operations after which that cell is about to be freed although a locked root links to it |
| Cycles.StepDropsWeight | memory.c:578-659 | every step that does not end the cycle strictly lowers a weight, self-linked roots included |
| Cycles.CycleBound | memory.h:109-110 | a collection cycle takes at most five steps for each cell that is not free, and one more |
| Cycles.CycleEndsFresh | memory.c:661-677 | with a quiescent program a cycle that was not suspended ends in a swap, with every cell free, an unprocessed root or unprocessed |
| Cycles.CycleIsQuiet | memory.c:553-685 | a cycle without the program keeps the heap safe and makes no cell a root |
| Cycles.CycleSpares | memory.c:553-685 | no cycle frees what a locked root reaches, and what a locked root reached it still reaches |
| Cycles.FreshCycleFrees | memory.h:109-110 | a cell that is not free after a cycle that started with nothing marked was reached from a root, locked or not |
| Cycles.TwoCyclesBounds | memory.h:109-110 | whichever roots are locked, two cycles from any safe heap spare what locked roots reach, and leave nothing that no root reached |
| Cycles.TwoCyclesExact | memory.h:109-110 | two cycles from any safe heap, also from the middle of a cycle, leave a cell not free if and only if the roots reached it: cyclic and floating garbage is gone, nothing else is |
| Cycles.NoRootsFreesAll | paren.c:146-156 | with no roots left two cycles free every cell |
| Acyclic.NothingToSweep | memory.c:633-659 | on a heap without link cycles the sweep branch is never selected |
| Acyclic.AllocationBetweenSweeps | memory.c:305-317 | a program that does not allocate half way through a sweep always reuses unreferenced cells |
| Acyclic.CycleEndsClean | memory.c:661-677 | after any swap, whatever happened in mid-sweep, free cells have count zero, a link that leads to a free cell is one that a free cell keeps in its slots, and all other cells are unprocessed |
| Acyclic.FreeSlotsDangle | memory.c:588-592 | a concrete safe heap in which a free cell keeps a link to a free cell |
| Acyclic.AcyclicRun | memory.c:474-479 | a run whose link graph stays acyclic never sweeps, reuses only unreferenced cells, and is safe without further assumptions |
| Asserts.NewNodeAsserts | memory.c:431-432 | the assertions about new links cannot fail while a node is made |
| Asserts.PatchAsserts | memory.c:465-466 | the assertions about new and stale links cannot fail while a slot is overwritten |
| Asserts.FreeAsserts | memory.c:588-591 | the assertions on the way to freeing a cell cannot fail |
| Asserts.ReuseAsserts | memory.c:316 | the assertion that a reused cell is not locked cannot fail in a safe heap |
| Asserts.ScanAsserts | memory.c:519-522 | the assertions in the tracing callback cannot fail |
| Rings.OwnerTells | memory.c:94-119 | the owner pointer decides which list a cell is on |
| Rings.MoveShows | memory.c:135-145 | moving a cell to the end of another list keeps every cell on exactly one list and changes the place of that cell alone |
| Rings.MoveRootShows | memory.c:121-133 | the same for insertion before or behind the sentinel of the roots list |
| Headers.RingTells | dlist.h:49-62 | a list is empty if and only if no cell has its place, and its first node has it |
| Headers.SentinelTells | memory.c:620-621 | the sentinel is first if and only if no root is unprocessed |
| Headers.WorkTells | memory.c:578-659 | the list headers select a phase whose conditions the heap meets |
| Headers.SwapShows | memory.c:661-672 | the move of the sentinel and the swap of the list references is the swap of the heap's places |
| Headers.NotFreeCount | paren.c:146-156 | the cells that are not free are as many as all cells less the length of the free list |
| Memory.MemoryState.constructor | memory.c:189-225 | a new manager has no cells, and counters at zero |
| Memory.MemoryState.AdviseNewLink | memory.c:412-443 | the fields change as the heap does when a link is made |
| Memory.MemoryState.AdviseStaleLink | memory.c:445-480 | the fields change as the heap does when a link is dropped |
| Memory.MemoryState.TryMoveBoundary | memory.c:504-544 | the fields change as the heap does when a link is traced |
| Memory.MemoryState.GcLock | memory.c:372-389 | locks, and makes a root of a cell that is none |
| Memory.MemoryState.GcUnlock | memory.c:391-410 | unlocks, moves to the boundary or the pending list by the count, and restarts the clean count; `Wakes.UnlockDoes` says it field by field |
| Memory.MemoryState.Release | memory.c:155-166 | the cell joins the end of the free list and the free count goes up by one |
| Memory.MemoryState.MemoryRequest | memory.c:305-343 | takes the first free cell, which is not locked if the heap is safe, else a new one, and makes it an unlocked root without count or links |
| Memory.MemoryState.NodeNew | node.c:176-189 | the node and its links are those of the model, whatever cell the free list hands out, and the heap stays safe if and only if that cell was unreferenced |
| Memory.MemoryState.PatchLink | node.c:191-217 | the barrier protocol is the patch operation of the model, and keeps the heap safe |
| Memory.MemoryState.Iterate | memory.c:553-685 | one call is one step in the phase that the lists select, with the work of all earlier phases done; it reports exactly the end of a cycle or a suspended collector, keeps safety and updates all counters |
| Memory.MemoryState.GcCycle | memory.h:109-110 | the loop ends within five steps per non-free cell plus one |
| Memory.MemoryState.CollectAll | node.c:104-108 | the two cycles keep what locked roots reach; unless the collector was suspended, what is live was reached from a root, and is exactly that if all roots are locked |
| Memory.MemoryState.LeakCheck | paren.c:146-156 | the difference of the two counters is the number of cells that are not free, roots or not, and is zero if no roots were left |
| Memory.MemoryState.DropRoot | node.c:142-153 | giving up a root is unlocking it and one collector step, which leaves the collector awake |
| Memory.MemoryState.DropLastRoot | paren.c:146-156 | after the last root is given up the check finds no leak, however long the collector had been asleep |
| Wakes.LockDoes | memory.c:372-389 | locking changes the lock of that cell and makes it an unprocessed root unless it is a root, and changes nothing else, the clean count included |
| Wakes.UnlockDoes | memory.c:391-410 | unlocking clears the lock, sends the cell to the pending list if its count is zero and to the boundary otherwise, and restarts the clean count; nothing else changes |
| Wakes.PatchDoes | node.c:191-217 | overwriting a slot changes that slot, one count up and one down, and restarts the clean count if and only if a link was overwritten |
| Wakes.GarbageWakes | memory.c:566-573 | an operation of the program that takes a cell out of the reach of the roots leaves the collector awake |
| Wakes.MadeGarbageIsFreed | memory.c:566-573 | so two cycles free that cell, however long the collector had been asleep |
| Wakes.UnlockThenCycles | memory.c:391-410 | two cycles behind the unlocking of a root leave only cells that the roots reached, whatever the clean count was |
| Wakes.UnlockKeepsAwake | node.c:142-153 | the collector step right behind an unlocking is never the end of a cycle |
| Wakes.SleepsWithoutPending | memory.c:566-573 | in every run the collector sleeps only when no cell awaits freeing and none has been traced |
| Wakes.AsleepStays | memory.c:566-573 | a cycle of a suspended collector changes nothing |
| Wakes.SleepsOnGarbage | memory.c:504-544 | a concrete run, with a collector step behind every operation, after which the collector sleeps although two cells that no root reaches are not free, and no cycle frees them |
| Memory.MemoryState.Reset | memory.c:227-269 | every allocated cell is given back exactly once and all lists are empty |
| Search.LeadsByLinks | memory.c:697-721 | a search from an unmarked cell succeeds exactly if the cell is the target or one of its links leads there with the cell marked |
| Search.ReachableHelper | memory.c:697-721 | the search sets found exactly if an unmarked path leads to the target, and leaves all marks as they were |
| Search.MemcellReachable | memory.c:723-745 | with clear marks the answer is whether the roots reach the cell, and the marks are clear again |
| DList.Insert | dlist.c:17-29 | insertion between two neighbours is insertion into the sequence of the ring, and keeps it a ring of one owner |
| DList.Remove | dlist.c:46-56 | removal is removal from the sequence and leaves the node without an owner |
| DList.RingsApart | dlist.h:32-33 | rings of different lists share no node, as the owner shows |
| DList.MoveLast | memory.c:135-145 | moving a node between lists changes just these two sequences |
| DList.DlList.constructor | dlist.c:58-62 | a new list is an empty ring |
| DList.DlList.InsertLast | dlist.h:58-59 | appends to the sequence |
| DList.DlList.InsertFirst | dlist.h:55-56 | prepends to the sequence |
| DList.DlList.Take | dlist.c:46-56 | takes one node out of the sequence, and the node is then on no list |
| DList.DlList.First | dlist.h:49-50 | the first node of the sequence, or the header |
| DList.DlList.Last | dlist.h:52-53 | the last node of the sequence, or the header |
| DList.DlList.IsEmpty | dlist.h:61-62 | whether the sequence is empty |
| Pointers.Heads.PlaceTells | memory.c:94-119 | the partition in pointers: a cell's node is on a list if and only if it names the list as its owner, and that list is the one that the cell's place says |
| Pointers.Heads.Detach | dlist.c:46-56 | removing a node takes it out of the ring it is on, whichever of the six that is, and out of no other |
| Pointers.Heads.MoveTo | memory.c:135-145 | removing a cell's node and inserting it at the end of another list acts as the layout says on all six rings of pointers at once |
| Pointers.Heads.MoveToRoots | memory.c:121-133 | the same for insertion before or behind the sentinel |
| Pointers.Heads.AdvanceSentinel | memory.c:661-672 | moving the sentinel from the front of the roots to their end, with the coloured lists swapped |
| Pointers.Heads.NewCell | memory.c:330-343 | a new cell's node joins the roots before the sentinel |
| Pointers.Init | memory.c:189-225 | six empty rings, and the sentinel on the roots |
| Numbers.StrRev | libc_custom.c:67-81 | reverses the characters before the limit and changes no others |
| Numbers.DigitsDenote | libc_custom.c:88-95 | the digits denote the number and have no leading zero |
| Numbers.DigitsBound | libc_custom.c:83-102 | every 64-bit value has at most 20 decimal or 16 hexadecimal digits |
| Numbers.FmtU64d | libc_custom.c:102-120 | for every 64-bit value the buffer holds its decimal digits and a terminator within 21 bytes |
| Numbers.FmtU64 | libc_custom.c:83-100 | for every 64-bit value the buffer holds its hexadecimal digits and a terminator within 17 bytes |
| Numbers.FmtS64 | libc_custom.c:137-158 | within 21 bytes; decimal digits for values from zero up, just a sign for negative ones |
| Numbers.LowSignedNegative | libc_custom.c:144-150 | the leading digit of a negative value is written as a terminator, since the remainder is negative |
| Numbers.ScanPrefix | libc_custom.c:21-39 | finds sign and base |
| Numbers.ScanDigits | libc_custom.c:41-50 | consumes the longest run of digits of the base, and the value is what they denote, wrapped around to 64 bits, although each step wraps around |
| Numbers.StrtollCustom | libc_custom.c:15-58 | value, up to wrap-around, and end of the number at the start of a text |
| Numbers.StrtollInvertsDigits | libc_custom.c:15-58 | parsing the decimal text of a number gives the number back, up to wrap-around, and consumes all of the text |
| Numbers.DigitValues | libc_custom.c:3-13 | digits count from zero, letters of both cases from ten, no other character is a digit |
| Numbers.DigitChars | libc_custom.c:60-65 | numbers are written with decimal digits and small letters |
| Numbers.DenotesFirst | libc_custom.c:41-50 | the first of several digits counts for the power of the base that the digits behind it make up |
| Numbers.NumeralReads | libc_custom.c:15-58 | a sign or none, a prefix and digits of base 8, 10 or 16 read as what the digits denote with that sign, up to wrap-around, and are consumed up to the first character that is no such digit |
| Numbers.WrittenReads | libc_custom.c:15-58 | every number written in base 8, 10 or 16, with a plus, a minus or no sign, reads as itself or its negative, up to wrap-around, and all of the text is consumed |
| Numbers.SignedRoundTrip | libc_custom.c:137-158 | formatting and parsing gives the number itself if it is not negative and zero otherwise |
| Token.ChompLeft | token.c:78-203 | a token never gives input back |
| Token.Tokenizer.constructor | token.c:15-28 | an unprimed tokenizer in front of its input |
| Token.Tokenizer.AdvanceStream | token.c:59-76 | takes one character, or marks the end |
| Token.SkipsForEver | token.c:140-151 | skipping blanks has no result just if the loop condition holds after every number of rounds |
| Token.DiscardsForEver | token.c:182-187 | discarding the rest of an atom has no result just if its loop condition holds after every number of rounds |
| Token.BlankUpcoming | token.c:140-151 | that is so just if the text is blanks and comments and the last comment is not ended; otherwise just these are skipped |
| Token.AtomHangs | token.c:170-187 | and for atoms just if the text is nothing but atom characters and at least 32 of them |
| Token.OverlongIs | token.c:170-187 | the same, character by character |
| Token.ChompHangs | token.c:78-203 | the tokenizer never comes back just outside of strings, in front of a text that behind blanks and comments is in an unended comment or is such an atom |
| Token.CommentHangs | token.c:140-151 | instances: a number sign and anything without a newline |
| Token.LettersHang | token.c:182-187 | an instance: 32 letters |
| Token.Tokenizer.TokenChomp | token.c:78-203 | the next token in plain and string mode; reports that the original loops for ever exactly for the texts above |
| Token.Tokenizer.ChompString | token.c:91-138 | one character of a literal, escapes decoded |
| Token.Tokenizer.ChompBlank | token.c:140-151 | skips blanks and comments, or reports a text that ends in a comment |
| Token.Tokenizer.ChompAtom | token.c:170-199 | at most 32 characters of an atom, as a number if all of them are one, or reports an overlong atom that nothing ends |
| Lexing.CharClasses | token.c:45-57 | blanks are just the six white-space characters, and names end just at these, parentheses, dots and quotes |
| Lexing.BlanksLaw | token.c:140-151 | any blanks in front of a text change nothing about the next token |
| Lexing.CommentLaw | token.c:140-151 | nor does a comment, from a number sign to the end of the line |
| Lexing.NameLaw | token.c:170-199 | a name of any length in front of a character that ends it is one token, a symbol of at most 32 characters or a number, and that character comes next |
| Lexing.LastNameLaw | token.c:170-199 | so is a name of less than 32 characters at the end of the input |
| Lexing.NumberLaw | token.c:188-199 | a signed number in base 8, 10 or 16 is a literal with its value |
| Lexing.MarkLaw | token.c:153-169 | parentheses and dots are tokens, a double quote opens a list of characters, and behind the text is the end of the input |
| Lexing.UnclosedLaw | token.c:111-116 | a string that is not closed ends with the input, within an escape by a backslash |
| Lexing.NamesLaw | token.c:78-203 | names that are set apart by blanks, whichever and however many, are read as these names one after the other |
| Texts.AtomLaw | parse.c:13-33 | a symbol is read as its name up to the first terminator, a literal as its value |
| Texts.CStringLaw | parse.c:13-33 | this is the longest prefix of the name without a terminator |
| Texts.NilLaw | parse.c:107-124 | parentheses with nothing between them are nil |
| Texts.ListLaw | parse.c:38-151 | a list is read as a tree whose i-th element is the i-th expression, with the expression behind a dot in place of the last cdr |
| Reader.QuoteExact | token.c:54-57 | a token other than the end consumes nothing if and only if it is in front of a quote outside of a string |
| Reader.StuckForEver | token.c:54-57 | in front of a quote every further token is the same zero and leaves the tokenizer where it is |
| Reader.ReadAtomNode | parse.c:13-33 | the atom, and on to the next token |
| Reader.ReadSexpr | parse.c:91-164 | status, tree and tokenizer of one expression, errors included, and whether dropping a missing node on the way out faults |
| Reader.ReadList | parse.c:38-89 | status, tree and tokenizer of the rest of a list, dotted tails, errors and faults included |
| Reader.Read | parse.c:166-179 | primes the tokenizer on the first call only |
| Divergence.ParseExact | parse.c:38-164 | an outcome is the reader's if and only if the recursion of the original, with some bound on its depth, ends with it |
| Divergence.DivergesExact | parse.c:38-164 | the reader diverges if and only if that recursion ends at no depth |
| Pushdown.DivergesOnTrap | parse.c:38-164 | it does so if and only if the tokens before some place leave an expression open, and there the tokenizer hangs, or a quote is next in a list whose dot has not come |
| Pushdown.ParseDiverges | parse.c:166-179 | the same from the start of the input |
| Pushdown.EndsWhereFinished | parse.c:38-164 | otherwise it ends just where a pushdown automaton over the tokens, with one bit for each open list, is finished: without an error if and only if that is behind the expression, with each of the three errors that are reported if and only if that is the end of the input, or the outermost list is not closed behind its dotted tail, by the end of the input or by another token, and with a fault in all other cases |
| Pushdown.FaultExample | parse.c:155-163 | an instance of the fault: a closing parenthesis where an expression should start |
| Pushdown.NewlineReads | parse.c:166-179 | a text without a quote that ends in a newline is always read, and so is what is left of it |
| Pushdown.BenignReads | parse.c:166-179 | the same from any tokenizer state in front of such a text |
| Pushdown.EndlessDiverges | parse.c:166-179 | a text on which the tokenizer hangs makes the reader diverge |
| Pushdown.QuoteDiverges | parse.c:38-89 | instances: an opening parenthesis, a quote and anything |
| Printer.OutStream.PrintPretty | node.c:543-594 | writes exactly the text of the tree |
| Printer.OutStream.PrintShorthand | node.c:530-541 | writes the rest of a list without inner parentheses |
| Printer.OutStream.PutString | node.c:590-595 | writes a string up to its terminator |
| Texts.AtomText | node.c:543-594 | the texts of nil, symbols and numbers |
| Texts.ListText | node.c:530-569 | a list is printed between parentheses with its elements in their order, and what is in place of the last cdr behind a dot unless that is nil |
| RoundTrip.ReadbackIsIdentity | node.c:590-595 | a tree is what it reads back as if and only if it has no negative value and no name that looks like a number |
| RoundTrip.PrettyReads | parse.c:91-164 | whatever follows, a printed tree reads as one tree, and the reader stops at the first token behind it |
| RoundTrip.LexHangs | token.c:78-203 | on text that does not contain the character -1 the tokenizer hangs if and only if the rest of the text is endless |
| RoundTrip.PrintThenRead | node.c:543-569 | printing and reading gives the tree back if and only if it has no negative value and no name that looks like a number |
| RoundTrip.LostExamples | node.c:543-569 | instances: the names + and 0x and the number -1 all read back as zero |
| RoundTrip.PrintAllThenReadAll | parse.c:166-179 | a printed list of trees is read back up to the end of input, the same list if and only if all its trees survive |
| RoundTrip.Echo | node.c:543-569 | printer, tokenizer and reader in a row give the tree back if and only if it survives |
| Strings.LiteralReads | token.c:91-138 | a string literal reads as the list of its decoded characters, with nil for an empty one |
| Strings.Items | token.c:106-136 | every terminated literal is a row of plain characters and escapes, octal ones as long as possible |
| Strings.LiteralIsCodeList | parse.c:107-151 | a terminated literal reads as the list of its character codes, and, if these fit 64 bits, the parenthesised list of the codes reads the same if and only if none of them is negative |
| Environ.AddLookup | environ.c:22-26 | a new binding is what its name looks up to, and no other name is affected |
| Environ.PatchLookup | eval.c:358-366 | set! changes what every environment sees that finds this binding, and nothing else |
| Environ.SnapshotKeeps | frame.c:55-70 | a captured environment sees no later definition, push or pop |
| Environ.PushPop | environ.c:12-20 | a pushed frame hides nothing, and popping it restores everything |
| Environ.FindFirst | environ.c:34-62 | a search finds the most recent binding in the innermost frame that has the name, and nothing only if no frame has it |
| FrameStack.FrameHandle.Push | frame.c:9-25 | saves all locals as a new top frame and gives them new values |
| FrameStack.FrameHandle.Pop | frame.c:27-43 | loads the locals from the top frame and drops it |
| FrameStack.FrameHandle.Restore | frame.c:45-53 | continues with a snapshot of the frame list |
| FrameStack.FrameHandle.AddElem | frame.c:55-70 | one entry more in a new top frame |
| EnvironHeap.EnvHeap.FindKeyval | frame.c:72-112 | the loops over frames and entries find the innermost, most recent binding, or look at the top frame only |
| EnvironHeap.EnvHeap.Lookup | environ.c:74-83 | the value of that binding |
| EnvironHeap.EnvHeap.Add | environ.c:22-26 | a binding in front of the top frame, which is made if there is none |
| EnvironHeap.EnvHeap.BindParameters | eval.c:12-71 | the loop over parameters and arguments is the recursive binding function, with all its errors |
| Binding.LambdaBindLookup | eval.c:12-71 | after a successful binding every parameter and the dotted rest name look up to their arguments, every other name to what it was |
| Binding.LambdaBindSucceeds | eval.c:26-53 | binding succeeds if and only if the parameters are names and the arguments match them in number |
| Binding.LambdaBindDistinct | eval.c:55-61 | however often parameters are bound into a frame, it has one entry for each name |
| Binding.CallIsLexical | eval.c:431-453 | a call that is not a tail call sees its arguments and behind them what the lambda captured, and nobody else sees a difference |
| Laws.ArgumentsInOrder | eval.c:396-405 | the list that a call passes has the value of the i-th argument as its i-th element, and ends there |
| Laws.GivenByPosition | eval.c:12-71 | the i-th of different parameter names is given the i-th value, a dotted name the list of all values behind those |
| Laws.ParametersByPosition | eval.c:438-462 | behind a call with different parameter names the i-th parameter looks up to the i-th value, a dotted name to a list whose elements are the further values in order, and any other name to what it did where the lambda was made, or, behind a tail call, to what it did there |
| Laws.StatusByPosition | eval.c:12-71 | what lambda_bind reports for parameter lists of any shape: the names in front of the first thing that is none, and what that is, decide between success and each of the errors |
| Laws.DefLaw | eval.c:354-369 | def! makes the name look up to the value, changes no other name and nothing that others have captured, and gives the symbol |
| Laws.SetLaw | eval.c:354-369 | set! succeeds if and only if the name is bound in some frame of the environment, and gives the symbol; the name then looks up to the value, no other name changes, and an environment sees the change if and only if it finds the same binding |
| Laws.AtomLaw | eval.c:182-237 | a symbol has the value that it looks up to or is an error; other atoms are their own values |
| Laws.CalleeError | eval.c:182-241 | an error in the function position, or something dotted behind it, is the outcome of the call |
| Laws.IfLaw | eval.c:247-293 | an if whose test has a value is evaluated as its second or third element, by whether that value is other than nil, in the environments that the test has left; missing branches are errors |
| Laws.QuoteLaw | eval.c:304-312 | quote gives its only argument as it stands; more arguments are an error |
| Laws.LambdaLaw | eval.c:295-302 | lambda captures the environment of its place, with its first element for parameters and the others for a body |
| Laws.AssignLaw | eval.c:326-369 | def! and set! take their first argument as it stands and the value of the second; what is no name is an error |
| Laws.ArgsLaw | eval.c:377-406 | arguments are evaluated from left to right, each in the environments that those before it have left |
| Laws.ArgsErrorLaw | eval.c:390-395 | the first argument with an error ends that with its error |
| Laws.ForeignLaw | eval.c:428-431 | a foreign function gets a list with the values by position, the environments that the arguments have left and the handle, and its status, result and environments are those of the call |
| Laws.DefinedLaw | eval.c:411-420 | defined? gives one if the value of its first argument is a symbol that some frame of the environment binds |
| Laws.EvalLaw | eval.c:421-424 | eval evaluates the value of its first argument in place of the call |
| Laws.UnknownLaw | eval.c:503-507 | what is no function cannot be called, and is the result with the error |
| Laws.BodyLaw | eval.c:464-499 | the expressions of a body are evaluated in order, each in the environments that those before it have left, and the last one is a tail call |
| Laws.CallLaw | eval.c:377-499 | the call of a lambda as a whole: function, arguments, parameters, body, and the last expression in place of the call |
| Laws.CallErrorLaw | eval.c:456-462 | a lambda whose parameters do not fit is the result of its call, with the status of the binding |
| Refinement.ActivationRefines | eval.c:182-553 | whatever the frames, if the recursive evaluator has an outcome, the machine reaches it with the same frames, status, result and environments, errors included |
| Refinement.InnerRefines | eval.c:230-237 | pushing a frame, evaluating and popping is a recursive call: the machine is back at the label with its locals and the outcome |
| Refinement.IfRefines | eval.c:247-293 | an if reaches what the recursive evaluator says, missing branches included |
| Refinement.BranchRefines | eval.c:256-293 | the same for what follows the test |
| Refinement.AssignRefines | eval.c:326-369 | def! and set! reach what the recursive evaluator says, errors included |
| Refinement.ArgsRefines | eval.c:377-406 | the arguments are evaluated from left to right, and then the call reaches what the recursive evaluator says |
| Refinement.CallRefines | eval.c:408-462 | a call of any function but a continuation reaches what the recursive evaluator says |
| Refinement.BodyRefines | eval.c:464-499 | a body reaches what the recursive evaluator says, its last expression as a jump with the same frames |
| Refinement.EvalRefines | eval.c:172-182 | eval from an empty frame list halts with the recursive evaluator's outcome |
| Adequacy.ActivationStuck | eval.c:182-553 | where the recursive evaluator has no value within n calls, the machine has not halted within n steps, and it returns from the middle with the environments that the recursive evaluator says, or not at all within them |
| Adequacy.ReturnsOutcome | eval.c:120-562 | whenever the machine has returned and the recursive evaluator has an outcome, the machine returned that outcome |
| Adequacy.EnoughSteps | eval.c:120-562 | if the recursive evaluator has an outcome there is a number of steps that suffices |
| Adequacy.EvalExact | eval.c:120-562 | without continuations eval ends with an outcome if and only if the recursive evaluator has it |
| Adequacy.QuitExact | eval.c:337-340 | without continuations eval returns from its middle, leaving some environments, if and only if the recursive evaluator comes to a def! or set! without a value, with these environments |
| Adequacy.QuitsOutcome | eval.c:337-340 | whenever the machine has returned and the recursive evaluator comes to that, the machine returned from the middle |
| Adequacy.QuitsWhenMissing | eval.c:337-340 | in every run, with continuations or without, eval has returned from its middle if and only if an earlier step came to a def! or set! with a name and no value |
| Adequacy.DefWithoutValue | eval.c:337-340 | an instance: def! and a name only |
| EvalLoop.Evaluator.constructor | eval.c:172-180 | no frames, and the expression and environment in the locals |
| EvalLoop.Evaluator.FramePush | eval.c:231-236 | saves the locals with the label to resume at and starts on an inner expression |
| EvalLoop.Evaluator.FramePop | eval.c:549-552 | restores the locals of the top frame |
| EvalLoop.Evaluator.AtRestart | eval.c:182-237 | dispatch on the kind of expression |
| EvalLoop.Evaluator.AtPostFunc | eval.c:237-349 | what each special function does once it has been recognised, the direct return at eval.c:339 included |
| EvalLoop.Evaluator.AtPostTest | eval.c:256-293 | the branch of an if |
| EvalLoop.Evaluator.AtPostValue | eval.c:349-369 | the assignment of def! and set! |
| EvalLoop.Evaluator.AtPostArg | eval.c:390-405 | an argument joins the list |
| Arguments.ArgumentsExact | eval.c:396-405 | the cells that are linked in place are those that the frame means if and only if each cell's most recent successor is the next one |
| Arguments.IntactIs | eval.c:396-405 | that is so if and only if no argument was added behind a cell of the list since the list went on from there |
| Arguments.CallGetsMeant | eval.c:396-405 | then the call gets the values that the frame means |
| Arguments.ReentryMixes | eval.c:396-405 | an instance where it does not: continuations from within two arguments, and the call gets two values instead of three |
| Arguments.Conses.AddArg | eval.c:396-405 | a new cell, linked in place behind the last one that the frame has |
| Arguments.Conses.Read | eval.c:396-405 | the values that the links lead to |
| EvalLoop.Evaluator.AtApply | eval.c:408-441 | applying each kind of function |
| EvalLoop.Evaluator.CallForeign | eval.c:428-431 | a foreign function is passed the environment handle and may read and change environments |
| EvalLoop.Evaluator.CallLambda | eval.c:431-462 | a call binds in a frame of its own, or in the current one behind a tail call |
| EvalLoop.Evaluator.AtBodyLoop | eval.c:464-492 | the next expression of a body |
| EvalLoop.Evaluator.AtFinish | eval.c:517-526 | pops the environment frame that the activation added |
| EvalLoop.Evaluator.AtReturn | eval.c:529-553 | resumes the saved label, or ends |
| EvalLoop.Evaluator.Advance | eval.c:182-553 | one round of the loop is one step of the machine |
| EvalLoop.EvalExpression | eval.c:120-562 | eval with a limit on its steps ends just if the machine returns by then; status, result and environments are then those of the recursive evaluator whenever that has an outcome, and there is no result whenever that comes to a def! or set! without a value |
| TailCalls.EvaluateKeeps | eval.c:484-499 | an inner evaluation keeps every environment handle there was, but for entries in front of top frames; without def! frames with one entry per name stay so |
| TailCalls.RoundKeeps | eval.c:431-453 | an activation adds at most one frame, and none behind a tail call |
| TailCalls.ChainFrames | eval.c:469-484 | however many tail jumps, the frame list at each is the one at the start |
| TailCalls.ChainSpace | eval.c:442-461 | however many tail jumps, at most one environment frame is added, on top of what the lambda that added it captured and with new bindings only, existing environments do not get deeper, and without def! the added frame has one entry for each name it has, all of them symbols of the program |
| TailCalls.ChainBound | eval.c:442-461 | in numbers: the current environment is one frame deeper than what that lambda captured, and its top frame has at most as many entries as the program has symbols |
| Names.RunExtends | eval.c:431-453 | every binding that a run has made has the name of a parameter of a lambda that it has applied, of a def!, or of a binding that a foreign function has made |
| Names.BoundInIs | eval.c:431-453 | these names are just those that single steps of the run bind |
| Names.ChainNames | eval.c:442-461 | so the frame that a chain of tail calls has added only has such names, each once, and no more entries than there are such names |
| TailCalls.TailCallScope | eval.c:442-458 | behind a tail call a name is lexically scoped if and only if it is a parameter or both environments agree on it, and the caller's name survives if and only if it gets no new value |
| TailCalls.CallScope | eval.c:431-461 | for any call: lexical scoping of a name fails, and the caller's binding of it changes, exactly behind a tail call and under the conditions above |
| TailCalls.IfOverwritesCaller | eval.c:289-293 | a concrete inner if expression that overwrites a variable of its caller |
| Frames.StepSane | eval.c:182-553 | every step, resuming a continuation included, keeps frames fit for their labels, in the frame list and in all values |
| Frames.FramesAreTyped | eval.c:529-553 | in every run no assertion about the machine's own frames fails, and what it leaves behind is fit for the next evaluation, continuations of earlier evaluations included |
| Frames.Origin | eval.c:314-324 | frames that a run has newly saved were pushed by one of its steps, or left by a foreign function that one of its steps has called |
| Frames.ContinuationResumes | eval.c:433-436 | applying a continuation to any value, at any time, in any machine, resumes the context that pushed its top frame: label, locals, frames, value, and the current environments less the frame that the application had added |
| Frames.ContinuationEnds | eval.c:433-436 | applying a continuation without frames ends the evaluation with the value |
| Frames.ContinuationOfInner | eval.c:314-324 | a continuation made anywhere inside an inner evaluation and applied any number of steps later resumes that evaluation's caller with the value, as if the evaluation had returned it |
| CallCc.HandsOutFrames | eval.c:314-324 | call/cc of a lambda or other function value applies that value to just one argument, the continuation that holds the frames of the call/cc expression itself, with these frames and its environment in place |
| CallCc.HandedOutReturns | eval.c:314-324 | whenever in the run the value that call/cc has handed out is applied, at any step and with whatever frames there are then, the evaluation that the call/cc expression was the end of returns to its caller with the argument |
| CallCc.CallCcReturns | eval.c:314-324 | (call/cc (lambda (k) (k v))) evaluated anywhere returns v to the place where its evaluation was begun |
| Frames.ContinuationMeaning | eval.c:314-324 | in every run, whatever earlier evaluations have left in the environments, each continuation that is applied, to whatever value and however often, fits the label of its top frame and goes on there with its frames, the value and the current environments; it was saved by an earlier evaluation, by an earlier step, or by a foreign function that this run called |
| Frames.ResumesCaller | eval.c:433-436 | if a step pushed its frames for an inner expression, it goes on as that step's caller does when the expression has this value |
| Frames.SessionMeaning | builtin_load.c:131-150 | in a program of many forms, each a call of eval on the environments so far, every continuation that is applied was saved by a step of this or an earlier form |
| Frames.EvalIsKnown | builtin_load.c:165-168 | a foreign function that evaluates only leaves continuations that can be resumed, so that all this holds with it |

## Left out

- Streams, file mapping, dynamic loading, tracing, state printing and the main program: input and output only; text is a sequence in, and a growing sequence out.
- `builtins.c`, `foreign_common.c`, `environ_utils.c`: thin wrappers; a foreign function is any function from its argument list, the environments and the handle to a status, a result and new environments, so it keeps no state of its own.
- The build without a free list, `freemem_cache.c`, finalizers, the `active` flag and raw layout of cells: default build only, cells have no bytes.
- Counters and environment sizes are unbounded; wrap-around of counters is not modelled. Numbers that are read wrap around to 64 bits, as two's complement does, although C leaves signed overflow undefined.
- The collector's class keeps one sequence per field of the cells, and lists as sequences with the sentinel as an index; that rings of nodes act as these lists, all six together, is proved in `Pointers` on its own.
- Node operations are single steps of a run, since the original runs the collector only behind them; any number of collector steps may come between two operations.
- `dlnode_move` (dlist.c:31-44) is not used by the memory manager.
- Interpreter values are immutable trees, except for bindings and environment handles; how the evaluator's own nodes are allocated and collected is not composed with the collector.
- The evaluator's saved locals are a record, so that their number is a matter of type; the loops that save and load them are modelled on their own in `FrameStack`.
- EvalLoop.Evaluator.AtPostArg: the argument list under construction is a sequence, which is what each frame means; what the cells that the original links in place show instead is stated in `Arguments` on its own, and also when the two are the same.
- Frames.ContinuationMeaning: the argument list among the resumed locals is this sequence.
- Reader: the original is taken to stop where it reads in front of address zero.
- `defined?` leaves the last result in place when the name is unknown (eval.c:411-420); modelled so.
- Improper argument lists, and empty or malformed bodies, run into assertions or missing nodes in the original; they stop the machine in one failure state, and the recursive evaluator has no value for them.
- EvalRefines: continuations are outside of the recursive evaluator; what they do is stated on the machine in `Frames`.
- A symbol of 32 characters fills the name field of its node and leaves no room for a terminator there (node.h:67, node.c:302); the model takes its 32 characters for the name.
- Reader.WorkLeft: has no counterpart; it lets the methods notice that nothing was consumed where the original would recurse for ever.
- Printer.OutStream.PrintPretty: numbers, symbols, nil and lists only; lambdas, special functions, continuations, handles and blobs, and verbose printing, have no text that reads back.
- PrintThenRead: names are those that the tokenizer takes as one atom of at most 31 characters; non-ASCII text is not considered, except that the character -1 must not occur.
