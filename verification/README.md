# Models of sdb, libmini and elftool

A Dafny model of three parts of the 2019 Advanced UNIX Programming homework, with proofs:

* **sdb** (hw4/sdb.h), a debugger with ten software breakpoints. Memory is bytes, `PTRACE_PEEKTEXT` and
  `PTRACE_POKETEXT` move little-endian 64-bit words, a breakpoint is one byte 0xCC. The traced program is
  arbitrary: any processor whose instruction lengths are determined by the instruction's own bytes, over text it
  neither reads nor writes as data (`Machine`, `Ptrace`). The debugger is a class (`Sdb.SDB`) whose methods are
  proved equal to functions on a state value (`Debugger`); the theorems are about those functions.
* **setjmp/longjmp** (hw3/libmini.c), instruction by instruction on a register, stack and memory machine with the
  kernel's signal mask (`Setjmp`), the program `jmp1` built on them (`Trampoline`), and the 64-bit signal sets of
  hw3/libmini.h (`SignalSets`).
* **elftool** (hw4/elftool.c): the lazily loaded, cached tables of an ELF handle over an allocator that may fail
  (`ElfTables`, `ElfTool`), and the symbol decode inside one shared buffer (`ElfSymbols`). The string
  and symbol tables a handle has loaded are at all times those the file holds: `ElfTool.Handle.Valid`.

## The debugger's main results

*Transparency* (`Runs.SessionFollows`, `Sessions.Session`): over any sequence of start, run, cont, si, break, delete
and disasm, including restarts after exit, the live process is a state of the undisturbed program under 0xCC at
exactly the armed sites, with rip at none of them, every saved word native, and at most one used site disarmed;
masking the armed bytes with the debugger's own saved words gives the program's text back
(`Runs.MaskedStateIsNative`); and the index of that state never falls within one process. Moreover each command does
what it is for (`Commands.Performed`): run and cont arrive at the first stop ahead, si goes one native step, break and
delete add and remove exactly their site, and disasm prints exactly what `Listings.Shown` says.

*No missed and no spurious stop* (`Runs.ContStops`, `Runs.RunStops`): run and cont come back exactly when a later
native state is at a used site or the end of the program, and then they are at the first such state, one slot matching.

*Listings* (`Listings`): chunked listings are consecutive pieces of one linear sweep, of the text when running and of
the file when not, and the two agree inside a section loaded verbatim. Sections at overlapping addresses are allowed,
as every linked file has them at address 0 (`Listings.SampleSections`, for hw4/sample/hello64).

What the sessions assume, and where each assumption is stated:

* Used sites are at least eight bytes apart, mapped, hold no 0xCC of their own, and are never strictly inside an
  instruction the program executes: `Simulation.Placed`, `Machine.Sited`, `Transparency.Spaced`.
* The program itself never faults and never executes a trap of its own: `Machine.WellBehaved`. (A stop that matches no
  slot is waited on for ever: `Debugger.WaitReturns`.)
* From a used site under rip the next instruction leads to no used site (`Simulation.Calm`; for run and cont, to no
  later slot's site, `Simulation.CalmLater`), and si does not end on an armed byte (`Runs.Allowed`).
* The table has a free slot when break is given (with a full table the program uses an unset pointer).
* delete is given at load bias 0, that is, not for an ET_DYN file: it uses addresses unconverted. So does disasm,
  which at another bias keeps the process in step if none of the unconverted addresses is mapped, but lists the traps.
  Starting, patching, run, cont, si and break are proved for any fixed bias.

`Scenario` exhibits programs and sessions that meet all of them. Module `Limits` states, for the distance of sites, for
a 0xCC of the program's own at a site or executed, for faults, for the steps off and onto sites and for the load bias,
what happens without them, and `Breakpoints.PatchUntilUnmapped` does for sites that are not mapped. No such theorem is
given for sites inside an instruction, or for a full table.

The code was followed where it does less than one might expect:

* Re-arming keeps the process in step exactly when the step off a site leads to no used site
  (`Limits.PatchKeepsIff`), for run and cont exactly when it leads to no later slot's site (`Limits.ContinuePatchIff`).
  Breakpoints on two instructions in a row are enough to lose the program (`Scenario.NeighboursDerail`).
* Eight bytes are saved for one byte changed. disasm's ascending pokes restore the text exactly when no later slot's
  word covers an earlier slot's site; descending pokes always would (`Unpatching`). With sites one to seven bytes apart
  a deleted breakpoint's trap can come back with no slot to answer for it (`Limits.SpacingNecessary`).
* delete and disasm lift an armed trap exactly when the load bias is 0 (`Limits.DeleteLiftsIff`,
  `Limits.DisasmLiftsIff`).
* At a 0xCC of the program's own nothing is saved, and the word left over in the slot is poked into the text instead
  (`Limits.NativeTrapKeepsIff`).
* longjmp blocks the saved mask on top of the present one instead of setting it, so the mask is restored exactly when
  nothing outside the saved mask is blocked (`Setjmp.RoundTrip`); hw3/jmp2.c tests a case where it is. It also tests
  all 64 bits of the register that holds an int (`Setjmp.IntResultIff`).
* elf_close leaves the blocks of symbols in use, and failed loads lose what was under construction: at most two
  blocks a call, none if nothing fails and the sections lie within the file (`ElfTool.Handle.Use`, `ElfTool.Lifetime`).
* The strtab field of a fresh symbol table record is never cleared. The record names the string table its section
  links to exactly when the linked section is a string table, whatever the field held; otherwise the field keeps what
  it held, and the load fails only if that was NULL (`ElfTables.NamesIff`, `ElfTool.Handle.GetInternal`).

## Model

| member | source | states |
|---|---|---|
| Words.StoreOfTrapWord | hw4/sdb.h:278-284 | peeking a word, replacing its low byte by 0xCC and poking it changes exactly one byte of memory |
| Words.StoreOfLoad | hw4/sdb.h:278-287 | a word peeked from one memory and poked into another copies eight bytes and nothing else |
| Words.LoadIsLittleEndian | hw4/sdb.h:278 | the word peeked has the bytes of memory as its digits to base 256, lowest address first |
| Words.TrapByLowByte | hw4/sdb.h:279 | the armed test on the word is a test of the byte at the address |
| Machine.StepUnderOverlay | hw4/sdb.h:273 | away from armed bytes, patched text steps as the program's own text does |
| Machine.NativeStep | hw4/sdb.h:698 | a step of the patched process from a native state is the native run's next state, or its exit |
| Ptrace.Continue | hw4/sdb.h:344-345 | executing step by step reaches the one event PTRACE_CONT and waitpid report |
| Ptrace.ResumeIs | hw4/sdb.h:344-345 | that event does not depend on how many steps one is prepared to wait |
| Breakpoints.PatchMemory | hw4/sdb.h:261-288 | a process that survives the pass has a trap at every used site and no other byte changed, wherever rip was and however the words overlap |
| Breakpoints.PatchWords | hw4/sdb.h:278-281 | each saved word is what memory held at its site when its turn came, earlier traps included |
| Breakpoints.PatchPrefix | hw4/sdb.h:261-288 | turns of slots whose sites rip is not at leave the process where it is |
| Breakpoints.PatchPast | hw4/sdb.h:270-276 | the slot under rip costs exactly one step of the process |
| Breakpoints.PatchTwice | hw4/sdb.h:259-290 | with rip at no used site, overlaps allowed: every used site armed, nothing else touched, and a second pass changes neither memory nor any slot |
| Breakpoints.PatchUntilUnmapped | hw4/sdb.h:278-287 | the first used site that is not mapped ends the pass: earlier sites are armed, its slot's word is the -1 of the failing peek, later slots stay as they are |
| Breakpoints.PatchGone | hw4/sdb.h:278-287 | without a process the first used slot's word becomes -1 and nothing else changes |
| Unpatching.AscendingRestoresIff | hw4/sdb.h:551-560 | disasm's pokes give fresh patched text back if and only if no later slot's word covers an earlier slot's site |
| Unpatching.LaterWordLeavesTrap | hw4/sdb.h:551-560 | for every such pair a trap is left at the earlier slot's site |
| Unpatching.DescendingRestores | hw4/sdb.h:551-560 | the same pokes in descending order always give the text back |
| Simulation.PatchSyncs | hw4/sdb.h:259-290 | the pass is one native step if rip is at a used site and none otherwise, and leaves every used site armed over a native word |
| Simulation.PatchSavesNative | hw4/sdb.h:278-281 | with spaced sites every saved word is the program's own |
| Continuing.RunToStop | hw4/sdb.h:344-349 | over the traps the process runs natively up to the first state at a site, and stops one byte behind it, or exits |
| Continuing.HaltsIff | hw4/sdb.h:344-346 | an undisturbed run over the traps ends if and only if the native run meets a site or its end |
| Continuing.HitRestores | hw4/sdb.h:352-360 | at a hit exactly one slot matches, its trap alone is lifted, and rip is back on the site |
| Continuing.AwaitStops | hw4/sdb.h:344-390 | the wait loop comes back if and only if a native stop lies ahead, and then at the first one |
| Transparency.StopsExactly | hw4/sdb.h:341-390 | patching and continuing from native state n returns if and only if a later state is at a used site or the end, and ends at the first such state |
| Runs.ContStops | hw4/sdb.h:335-391 | cont returns if and only if a later native state is at a used site or the end, and is then at the first such state, with one slot matching and only its site disarmed, or with the process gone |
| Runs.RunStops | hw4/sdb.h:393-475 | run on a program that is not running does the same from its beginning |
| Runs.RunIsCont | hw4/sdb.h:422-475 | run on a running program is cont |
| Transparency.StartKeeps | hw4/sdb.h:292-322 | a started process is in step with the native run, at its beginning or one step into it |
| Transparency.EndKeeps | hw4/sdb.h:357-390 | where run and cont end the invariant holds with only the site hit disarmed |
| Transparency.StepKeeps | hw4/sdb.h:692-704 | si advances the native run by one |
| Transparency.OccupiedPlaced | hw4/sdb.h:654-664 | break adds exactly that site to the used ones and keeps the table sound |
| Transparency.ReleasedPlaced | hw4/sdb.h:687 | delete removes exactly that site from the used ones and keeps the table sound |
| Transparency.BreakKeeps | hw4/sdb.h:642-668 | break advances a running process by one native step if rip is at a used site, the new one included, else by none, and leaves every used site armed |
| Transparency.DeleteKeeps | hw4/sdb.h:679-690 | delete removes the trap of that slot and of no other, and does not move the process |
| Transparency.LiftAll | hw4/sdb.h:551-560 | with spaced sites the pokes before a listing make memory the program's text again |
| Transparency.DisasmKeeps | hw4/sdb.h:549-572 | disasm has the same side effect as break: one native step from a used site, none otherwise, every used site armed |
| Commands.DeleteFrees | hw4/sdb.h:679-690 | in any state, process or not: the index of a used slot frees that slot alone, any other changes nothing; of memory at most the eight bytes of its word change, if the first is a trap |
| Runs.CommandKeeps | hw4/main.c:31-90 | every command does what it is for in terms of native states, sites and table (first stop ahead, one step, one site more or less, re-armed, cursor only), keeps the invariant, and the native index never falls unless a new process begins |
| Runs.SessionFollows | hw4/main.c:31-90 | a whole debugging session is a stuttering simulation of the native run, each command doing what it is for |
| Runs.LoadedIsSystem | hw4/sdb.h:152-157 | a freshly loaded program satisfies the invariant whatever the slots still hold |
| Runs.MaskedStateIsNative | hw4/sdb.h:259-290 | registers are native and memory, its armed bytes replaced from the saved words, is the program's text |
| Limits.PatchKeepsIff | hw4/sdb.h:270-276 | with rip at a used site the pass keeps the process in step if and only if the step off it leads to no used site |
| Limits.ContinuePatchIff | hw4/sdb.h:270-276 | for run and cont: if and only if it leads to no later slot's site |
| Limits.PatchTrapsItself | hw4/sdb.h:270-276 | if it leads to a later slot's armed site, the pass itself executes that trap and leaves rip one byte behind it |
| Limits.StepKeepsIff | hw4/sdb.h:698-703 | si is one native step, onto armed bytes too, and keeps the process in step if and only if it does not end on one |
| Limits.OwnTrapHangs | hw4/sdb.h:346-383 | a program that executes a trap of its own before it is at a used site: cont does not come back |
| Limits.FaultIsWaitedOn | hw4/sdb.h:346-383 | a process at an instruction it cannot execute: si leaves it there, and the wait of run and cont ends if and only if a used site is one byte before |
| Limits.DeleteLiftsIff | hw4/sdb.h:682-685 | an armed trap is lifted if and only if the load bias is 0; otherwise it stays with no slot to answer for it |
| Limits.DisasmLiftsIff | hw4/sdb.h:551-569 | an armed trap is lifted for the listing if and only if the load bias is 0; otherwise, raw addresses unmapped, the listing is that of the patched text |
| Limits.NativeTrapKeepsIff | hw4/sdb.h:278-281 | a breakpoint on a 0xCC of the program's own leaves the slot's old word in place, and the next listing keeps the text if and only if that word is the text's own |
| Limits.SpacingNecessary | hw4/sdb.h:278-287 | break at a+k and a, 1 <= k <= 7, delete the first, hit the second: the trap at a+k is back and matches no slot |
| Listing.SweepIsLinear | hw4/sdb.h:574-589 | the lines printed from a window are a piece of the linear sweep of what the window shows |
| Listing.SweepStopsLate | hw4/sdb.h:574-589 | a piece ends short of its limit only where the sweep ends or fewer than 15 bytes of window are left |
| Listing.LinearSweepJoins | hw4/sdb.h:508-520 | a sweep goes on where an earlier piece of it ended |
| Listing.SweepsAgree | hw4/sdb.h:574-589 | windows that agree on their first t bytes list the same instructions within them |
| Listings.LiveListFrom | hw4/sdb.h:549-586 | running: `disasm a` and any number of `disasm` print consecutive, gap-free pieces of the sweep of the text, through all traps |
| Listings.ForemostIff | hw4/sdb.h:531-537 | the section scan finds a section for every address in it if and only if no earlier section shares an address with it |
| Listings.LivePrints | hw4/sdb.h:549-593 | running: a listing is a full piece of the sweep of the text, at a load bias of the patched text: at most ten lines and 64 bytes, ending short only where the sweep ends or fewer than 15 present bytes are left |
| Listings.FileListing | hw4/sdb.h:524-593 | not running: a listing is a full piece, in the same sense, of the sweep of the file's bytes, laid out by the section found |
| Listings.DisasmShows | hw4/sdb.h:505-593 | lines, cursor and state of disasm in every case: no address and no cursor, a live process, one that is gone, a first section that holds the address, and no such section |
| Listings.FileListFrom | hw4/sdb.h:524-586 | not running: `disasm a` and any number of `disasm` print consecutive, gap-free pieces of that sweep, up to and past the section's end, as long as each command starts in the section |
| Listings.LivePieceIsFull | hw4/sdb.h:562-578 | a piece with 64 mapped bytes has ten lines, or 50 bytes of code, or ends with the sweep |
| Listings.ViewsAgree | hw4/sdb.h:524-572 | inside the section found, if it is loaded verbatim, disasm lists the same instructions before start and while running with any breakpoints armed |
| Sdb.SDB.Load | hw4/sdb.h:152-157 | a fresh table, no process and no cursor, the slots' leftovers kept |
| Sdb.SDB.ArmSlot | hw4/sdb.h:263-288 | one turn of the loop is one turn of the patch pass |
| Sdb.SDB.PatchAll | hw4/sdb.h:259-290 | the loop over the table is the patch pass |
| Sdb.SDB.Start | hw4/sdb.h:292-322 | the new state is that of a launched and patched process |
| Sdb.SDB.Hit | hw4/sdb.h:351-383 | the scan finds a slot if and only if one accounts for the stop, and undoes its trap |
| Sdb.SDB.AwaitStop | hw4/sdb.h:343-390 | the wait loop's new state, where it comes back at all |
| Sdb.SDB.Cont | hw4/sdb.h:335-391 | the new state of cont |
| Sdb.SDB.Run | hw4/sdb.h:393-475 | the new state of run, launching a process only if there is none |
| Sdb.SDB.StepInsn | hw4/sdb.h:692-704 | the new state of si |
| Sdb.SDB.SetBreak | hw4/sdb.h:642-668 | the first free slot is taken, and a running process re-armed |
| Sdb.SDB.Delete | hw4/sdb.h:679-690 | the slot is freed, and its trap undone if one is seen at the raw address |
| Sdb.SDB.ReadWindow | hw4/sdb.h:562-569 | the buffer holds up to 64 bytes of memory, cut at the first word that cannot be peeked |
| Sdb.SDB.FindSection | hw4/sdb.h:527-541 | the first section that holds the address, or none |
| Sdb.SDB.PrintLines | hw4/sdb.h:574-593 | at most ten lines, the cursor moved by exactly their size |
| Sdb.SDB.Disasm | hw4/sdb.h:505-594 | the lines printed and the new state, in all its cases |
| Sessions.Execute | hw4/main.c:31-90 | the dispatched method does what the command is for and prints what it should, from any state in step with the native run, and stays in step |
| Sessions.Session | hw4/main.c:25-90 | over a session on a loaded program every command does so, every state is in step with the native run, the index never falling within a process, and at the end masked memory equals the text |
| Scenario.BreakRunCont | hw4/test.c:32-36 | the assumptions hold together: on straight-line programs of any length break, run, cont is admissible, stops at the breakpoint and then exits |
| Scenario.NeighboursDerail | hw4/sdb.h:270-276 | with breakpoints on two instructions in a row, cont from the first executes the second's trap while re-arming and goes on at an address no native state has |
| SignalSets.Cell.Empty | hw3/libmini.h:284-286 | sigemptyset gives the empty set |
| SignalSets.Cell.Fill | hw3/libmini.h:288-290 | sigfillset gives a set with every signal 1..64 |
| SignalSets.Cell.Add | hw3/libmini.h:292-294 | sigaddset adds exactly that signal |
| SignalSets.Cell.Delete | hw3/libmini.h:296-298 | sigdelset removes exactly that signal |
| SignalSets.MemberIsTest | hw3/libmini.h:300-302 | signal s is a member exactly if bit s-1 is set |
| SignalSets.SequenceRefines | hw3/libmini.h:284-302 | after any sequence of additions and deletions sigismember is membership in the mathematical set |
| SignalSets.UnionIsUnion | hw3/libmini.c:250 | or of two mask words is union of the sets |
| SignalSets.UnionIsSecondIff | hw3/libmini.c:250 | the union is the second set if and only if the first adds nothing, equality being of the 64-bit words |
| Setjmp.NewMaskIs | hw3/libmini.c:175-178 | the signals blocked by the new mask word, for each `how`, as a set operation that never takes in signals 9 and 19 |
| Setjmp.Cpu.SigProcMask | hw3/libmini.c:175-178 | the signals blocked after the call, by `how` 0, 1, 2 or any other, and the old-mask object, set or no set |
| Setjmp.Cpu.SaveContext | hw3/libmini.c:273-285 | the jmp_buf records the context the caller will see after the return |
| Setjmp.Cpu.RestoreContext | hw3/libmini.c:251-268 | the recorded context is resumed, with val or 1 in rax |
| Setjmp.Cpu.Setjmp | hw3/libmini.c:271-288 | setjmp returns 0 with the callee-saved registers and the mask unchanged, and records exactly the context it returns with |
| Setjmp.Cpu.Longjmp | hw3/libmini.c:244-269 | longjmp resumes the recorded context across its own pushes and nested call, and blocks the recorded mask as well |
| Setjmp.RoundTrip | hw3/libmini.c:244-288 | control, rsp and the callee-saved registers as just after setjmp returned, val nonzero, the mask the union, and the saved mask if and only if nothing else is blocked |
| Setjmp.IntResultIff | hw3/libmini.c:254-258 | after longjmp the caller, reading 32 bits, gets val, or 1 for 0, if and only if rsi is 0 or its low half is not; and it reads 0 in exactly the other cases |
| Setjmp.MaskLaw | hw3/libmini.c:175-178 | over any sigprocmask calls in between: what they leave as a set, and the saved signals on top, never SIGKILL or SIGSTOP; if all calls only unblock, exactly the signals they name are gone before the jump, and the saved mask is back after it |
| Setjmp.UnblocksRemove | hw3/libmini.c:175-178 | any sequence of unblocking calls removes exactly the signals they name |
| Trampoline.CallFun | hw3/jmp1.c:6-19 | a function of the table never returns: control is behind setjmp, with its number in rax |
| Trampoline.Round | hw3/jmp1.c:23-26 | each pass behind setjmp runs exactly the next function or leaves, the stack pointer and main's frame unchanged |
| Trampoline.RunMain | hw3/jmp1.c:21-28 | for any n: functions 0..n-1 run once each in order, and main returns 0 with registers and mask as they were |
| ElfTables.ListedIds | hw4/elftool.c:179-191 | the list holds every string table section once, with the section's bytes, section numbers strictly decreasing |
| ElfTables.ListedIff | hw4/elftool.c:179-193 | the list is not empty if and only if there are string table sections and all lie within the file |
| ElfTables.LookupIff | hw4/elftool.c:222-227 | a search in the full list succeeds if and only if the index is that of a string table section |
| ElfTables.NamesIff | hw4/elftool.c:222-227 | after the search the record names the string table it links to if and only if that section is one, whatever the field held before |
| ElfTool.Handle.FreeList | hw4/elftool.c:201-210 | exactly the blocks of the list are freed, each in use until then |
| ElfTool.Handle.BuildList | hw4/elftool.c:179-199 | the exact list of string tables, or nothing kept but the record under construction, lost |
| ElfTool.Handle.GetPhdr | hw4/elftool.c:108-138 | a cached table is returned as it is; otherwise there is one exactly when the counts and class allow it and the allocation succeeds |
| ElfTool.Handle.GetShdr | hw4/elftool.c:140-171 | the same for the section headers |
| ElfTool.Handle.GetStrtab | hw4/elftool.c:173-199 | NULL or the exact list; when nothing fails, a list exactly when there are string tables and all lie within the file; at most two blocks are lost, new ones and only on failure, and how many is exact when nothing fails |
| ElfTool.Handle.ReadSymbols | hw4/elftool.c:233-266 | the record's block holds the decode of the section's bytes, entry by entry; or the record is freed and at most the block of symbols lost |
| ElfTool.Handle.GetInternal | hw4/elftool.c:212-266 | nothing failing, it succeeds exactly when the tables and the section can be had; its record holds the section's decode and names the string table it links to exactly when that is one; lost are at most two new blocks, how many is exact when nothing fails |
| ElfTool.Handle.GetSymtab | hw4/elftool.c:268-280 | cached, or built from the first symbol table section exactly when that can be had; losses as for the string tables and the record |
| ElfTool.Handle.GetDsymtab | hw4/elftool.c:282-294 | the same for the first dynamic symbol table section |
| ElfTool.Handle.GetAll | hw4/elftool.c:91-106 | success with the three required tables, exactly when they can be had if nothing fails; or all five pointers NULL and every block freed but the handle's own and the lost ones, which grow by at most two new blocks and the blocks of symbols of the tables dropped |
| ElfTool.Handle.Close | hw4/elftool.c:77-89 | afterwards only lost blocks and the two blocks of symbols are in use |
| ElfTool.Handle.Use | hw4/elftool.c:91-294 | unless elf_load_all fails, what is loaded stays loaded over any later call, pointers, records and symbols; each call adds at most two to the blocks lost or held by symbols |
| ElfTool.Lifetime | hw4/elftool.c:77-294 | over any calls with any failures nothing is freed twice or read after being freed; at the end at most two blocks a call are in use; without failures and with the sections inside the file blocks of symbols only, and at most two of them if elf_load_all can succeed |
| ElfSymbols.StoreSymbol | hw4/elftool.c:240-248 | the nine fields are stored, and no byte of padding or of another symbol changes |
| ElfSymbols.ConvertAll | hw4/elftool.c:251-257 | every symbol is the decode of its raw entry, and the raw bytes at the tail are never overwritten |
| ElfSymbols.LoadSymbols | hw4/elftool.c:233-257 | as many symbols as whole entries, each the decode of its entry's bytes as read behind the room for them |
| ElfSymbols.DecodeOfLayout | hw4/elftool.c:239-249 | decoding an entry laid out as in the gABI, chapter 4, Symbol Table, gives every field's value back; bind and type are the two halves of info, visibility the low two bits of other |
| ElfSymbols.TableRoundTrip | hw4/elftool.c:233-257 | converting a section that holds any sequence of such entries, and perhaps part of another, gives every entry's values back in order |

## Left out

- Parsing of commands and of `/proc/<pid>/maps`, all printing, `vmmap`, `get`, `set`, `getregs`, `dump`, `list`: text input and output, or one-branch reads and writes. The printed breakpoint line of run and cont, which indexes the decoded instructions with the slot number, is output too.
- fork, execlp, ptrace, waitpid, capstone and libelf: replaced by a process value, an arbitrary deterministic processor, an arbitrary decoder of lengths, and a sequence of section headers. Failure of fork or exec is not modelled. Input the program reads is part of its context.
- Programs that read or write their own text as data, threads, and signals other than the traps: outside the traced process of the model.
- `set rip` and other register changes while debugging, which leave the native run by design.
- Addresses are natural numbers: wrap-around at 2^64 is not modelled. The registers of `Setjmp` are integers, not 64-bit patterns, apart from the result register's halves in `Setjmp.IntResultIff`.
- The exact stack use of compiled code: calls may use 256 bytes below rsp, setjmp and longjmp 512, and a jmp_buf must not lie there.
- `errno`, the other system call wrappers, `sigaction`, `signal`, alarms and the assembly stubs: easy members or decided by the kernel.
- ElfTool.Handle.GetPhdr: the field-by-field copying of program headers (and of section headers in GetShdr) is not modelled, only when the tables exist and who owns them.
- ElfTool.Handle.GetStrtab: malloc of an empty section's data is taken to give a block.
- Listings.FileListFrom: only while every listing starts in the one section; beyond it the program looks the address up again.
- Debugger.Patch: at a load bias other than 0 the program does not survive converting an address once the process is gone (it reads a maps file that is not there). This happens when cont, run, break or disasm is given after si has ended the process, or when the pass itself steps the process to its end with a used slot still to come. The model lets these passes go on and change nothing.
- Runs.ContStops: at a load bias other than 0, holds of the program only outside the case just named; so do Runs.RunStops and Runs.SessionFollows.
- Runs.SessionFollows: the commands are those that drive the process; loading another program in mid-session only starts a new session.
- Entry 0 of the section header table, which elf_load_shdr never fills: the model takes the table as it stands in memory, and exactness of the string table list is relative to that. Integer truncation of sizes and counts, and big-endian files, are not modelled.
- Sections of type SHT_NOBITS: `Listings.ViewsAgree` asks that the section found is loaded verbatim.
- ElfTool.Lifetime: which blocks are lost when an allocation or a read fails is bounded, not fixed, since the failure may come at any point.
- hw1 and hw2: scanning, filtering and logging with no invariant to prove.
