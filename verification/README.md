# Verified models of an instrumentation and scheduling catalogue

This project models the hard algorithms of the repository — a GPU helper-call protocol, code
transformations on PTX, eBPF and x86 text, a fair-share scheduler, a checkpoint format, and a few
exact bookkeeping algorithms — and proves what they guarantee for every input, every interleaving or
every run.  `dafny verify dfyconfig.toml` checks everything.
Lemmas carry `{:induction false}`: each is proved by its body alone, and inductions are written out.

| module | what it models |
|---|---|
| `Mailbox` | the lock, flags and histories of the device-to-host helper call, any number of threads and one host |
| `PayloadCopy` | the unrolled copy loops into the mailbox, and the mailbox layout |
| `RegisterGuard`, `GuardTexts`, `RegisterTypes` | the register-guard pass over PTX lines: collection, slots, inserted blocks, streaming over functions; the pass on whole texts; the PTX register types and what of them is kept |
| `GuardMachine`, `EarlyReturns`, `GuardLimits` | a machine that runs guarded and unguarded bodies, the refinement between them, its exact condition when returns are predicated, and registers wider than their slot |
| `ProbeSplice`, `KernelPieces`, `ProbeHooks` | kernel search by brace matching and the splice, target after target; the same seen as kernels and the text between them; where the probe's calls are |
| `MemCapture` | the generated eBPF prologue that builds a string, its execution, and the character filter |
| `FairShare`, `HandOff` | the Jain-index selection loop and whole runs of it; the grant cell and its interleavings |
| `TextRewrite`, `SyscallHook` | the in-place system call rewrite; sled, jump, handler and default hook |
| `Checkpoint`, `CheckpointFormat`, `Restore` | the checkpoint file, written and read; the format in its bytes; one-shot and chunked restoration |
| `PersistentKernel` | the work partition of a persistent kernel |
| `ExperimentVersions`, `HashUpdates`, `HashEvidence` | content hashes of the experiment catalogue: check and update; what an update's writes amount to; what the hash covers and what check, update and its records see |
| `TracePairing` | the operator bitmap and start/end event pairing |
| `Bytes`, `Decimal`, `Common` | little-endian integers, decimal numerals and what else several modules share |

Where a property the documentation or the shape of the code suggests does not hold, the project says
exactly when it does:

* Payload bytes are copied, one by one, before the lock is taken.  They are intact in every interleaving
  exactly when at most one thread calls, or any two calls put the same byte wherever both put one
  (`Mailbox.AlwaysIntactIff`): two lookups when one key is the beginning of the other
  (`Mailbox.LookupsIntactIff`), lookup, update and delete of one key always (`Mailbox.SameKeyIntact`).
* The unrolled copy equals a copy of the old source bytes exactly when the destination does not start
  inside the source (`PayloadCopy.CopyIsExactIff`).
* The restore block runs in front of a predicated return even when that return is not taken.  A guarded
  function that saves anything keeps its meaning, under every instruction semantics that ignores the scratch
  registers, exactly when no control path runs an instruction, passes a predicated return and falls on to an
  instruction that can still go on (`EarlyReturns.KeepsMeaningIff`).
* A declared register is saved exactly when no earlier collected declaration shadows it
  (`RegisterTypes.SavedIff`); `%r` after `%r<1>` is one that is lost (`RegisterTypes.NeighbourIsLost`).
* A guarded register returns to its entry value exactly when that value fits the width it was saved
  with (`GuardMachine.RegistersBack`); the 128-bit type `.f64x2` is saved as eight bytes
  (`GuardLimits.WideRegisterIsCut`).
* A probe edits only the named kernel as long as the scan from its header meets no other header; in a
  balanced text that is exactly when the header has a body of its own (`KernelPieces.OwnSectionIff`).  A
  header without one takes the next kernel (`KernelPieces.BodylessTakesNext`).
* The generated prologue builds the string exactly for lines of at most 32768 bytes in which no byte
  above 127 is followed, in its eight-byte group, by anything but 0xff (`MemCapture.BuildsIff`).
* The grant cell releases no more than was granted exactly when waiters have distinct nonzero pids
  (`HandOff.ConservesIff`).  A grant can still be lost (`HandOff.GrantCanBeLost`): after a history of writes
  into an empty cell, a write can lose one exactly when it finds one in the cell (`HandOff.WriteLosesIff`).
* The checkpoint round trip is exact if and only if the name and register lists fit their 32-bit
  length fields (`Checkpoint.RoundTripIff`).
* A full hash update makes check pass, whatever the hash function, exactly when no index that has entries is
  also the metadata of an entry (`HashUpdates.AlwaysRepairsIff`).
* The tracer reports every non-nesting interleaving of a set of threads exactly when there are at most eight
  (`TracePairing.PairsForIff`).

## Model

| member | source | states |
|---|---|---|
| `Mailbox.EveryRunIsSafe` | papers/egpu/artifact/attach/nv_attach_impl/trampoline_ptx.h:73-98 | in every interleaving of any threads with a contract-obeying host: one holder at a time, both flags down while the lock is free, the i-th request served is the i-th raised with the ids its raiser stored, the host took the overlay of the bytes copied by then, and the i-th return carries the i-th answer to its own raiser |
| `Mailbox.StepKeepsInv` | papers/egpu/artifact/attach/nv_attach_impl/trampoline_ptx.h:73-98 | every begin, byte, device and host step keeps the invariant that fixes flags, ids, response, payload and histories by the holder's program point |
| `Mailbox.HostKeepsInv` | papers/egpu/artifact/runtime/include/bpf_attach_ctx.hpp:69-95 | the host's side of the flag contract (see flag1, clear it, read, answer, set flag2) keeps the same invariant |
| `Mailbox.ReachableIsSafe` | papers/egpu/artifact/attach/nv_attach_impl/trampoline_ptx.h:73-98 | every reachable state is safe |
| `Mailbox.LoadDelivers` | papers/egpu/artifact/attach/nv_attach_impl/trampoline_ptx.h:95-98 | the loaded value is the host's answer: whole with `ld.u64`, sign-extended with `ld.s32`, low half when widths differ |
| `Mailbox.NoDeadlock` | papers/egpu/artifact/attach/nv_attach_impl/trampoline_ptx.h:73-96 | from every reachable state with a thread inside a call, some continuation returns a call |
| `Mailbox.CallCanComplete` | papers/egpu/artifact/attach/nv_attach_impl/trampoline_ptx.h:73-96 | that continuation has at most 22 steps and one for each byte still to copy, none of them a spin |
| `Mailbox.AgreeingCallsKeepPayload` | papers/egpu/artifact/attach/nv_attach_impl/trampoline_ptx.h:138-179 | as long as the calls under way put the same byte wherever two of them put one, every request is served with all the bytes of its call |
| `Mailbox.OverlapLosesPayload` | papers/egpu/artifact/attach/nv_attach_impl/trampoline_ptx.h:138-179 | any two threads with any two calls that put different bytes at some offset have a run in which one is served with the other's byte there |
| `Mailbox.AlwaysIntactIff` | papers/egpu/artifact/attach/nv_attach_impl/trampoline_ptx.h:138-179 | for any set of threads and calls, every run, down to single bytes, serves every request with its own bytes if and only if there is at most one thread or any two calls agree on every offset both write |
| `Mailbox.LookupsIntactIff` | papers/egpu/artifact/attach/nv_attach_impl/trampoline_ptx.h:116-179 | concurrent lookups of two keys, in the same map or not, are served intact in every run if and only if one key is the beginning of the other |
| `Mailbox.SameKeyIntact` | papers/egpu/artifact/attach/nv_attach_impl/trampoline_ptx.h:216-332 | calls that look one key up, update it and delete it agree wherever two of them write, so they may overlap in any number of threads |
| `Mailbox.SameKeyServed` | papers/egpu/artifact/attach/nv_attach_impl/trampoline_ptx.h:116-349 | in every run of such calls the host sees request 1, 2 or 3 with the map id and the key at offset 24, with every update the value at 1073741848 and the flags at 2147483672, and each lookup returns the answered eight bytes, each update and deletion the answered int, signed |
| `Mailbox.UpdateServed` | papers/egpu/artifact/attach/nv_attach_impl/trampoline_ptx.h:216-349 | whatever else runs, an update served intact is request 2 with key, value and flags in their three fields, and returns the sign-extended int |
| `Mailbox.LookupServed` | papers/egpu/artifact/attach/nv_attach_impl/trampoline_ptx.h:116-197 | a lookup served intact is request 1 with its key at offset 24 and returns the whole answered word |
| `Mailbox.DeleteServed` | papers/egpu/artifact/attach/nv_attach_impl/trampoline_ptx.h:368-449 | a deletion served intact is request 3 with its key at offset 24 and returns the sign-extended int |
| `Mailbox.OthersServed` | papers/egpu/artifact/attach/nv_attach_impl/trampoline_ptx.h:495-634 | helper 14, which loads eight bytes, returns the whole answered word; helpers 6 and 501, which load four, the sign-extended int |
| `PayloadCopy.CopyFours` | papers/egpu/artifact/attach/nv_attach_impl/trampoline_ptx.h:138-152 | the four-bytes-a-turn loop does what the byte-by-byte loop does, and ends |
| `PayloadCopy.CopyRest` | papers/egpu/artifact/attach/nv_attach_impl/trampoline_ptx.h:153-169 | the remainder loop completes the copy |
| `PayloadCopy.CopyUnrolled` | papers/egpu/artifact/attach/nv_attach_impl/trampoline_ptx.h:121-169 | for every signed size the two loops together equal the byte copy, and sizes below one copy nothing |
| `PayloadCopy.CopyFrame` | papers/egpu/artifact/attach/nv_attach_impl/trampoline_ptx.h:138-169 | bytes outside the destination are untouched |
| `PayloadCopy.CopyIsExactIff` | papers/egpu/artifact/attach/nv_attach_impl/trampoline_ptx.h:138-169 | the destination holds the old source bytes in every memory if and only if it does not start inside the source |
| `PayloadCopy.FillUpdate` | papers/egpu/artifact/attach/nv_attach_impl/trampoline_ptx.h:216-320 | helper 2 leaves key and value in their fields, every other field and all memory outside the mailbox unchanged, for sizes up to 2^30 |
| `PayloadCopy.FilledAt` | papers/egpu/artifact/attach/nv_attach_impl/trampoline_ptx.h:216-320 | in addresses: the key is at offset 24 of the mailbox and the value at offset 1073741848 |
| `PayloadCopy.FieldsAreAt` | papers/egpu/artifact/runtime/include/bpf_attach_ctx.hpp:44-95 | flags, lock, ids, update flags and response are at bytes 0, 4, 8, 12, 16, 2147483672 and 2147483680 |
| `PayloadCopy.ControlFieldsAreClear` | papers/egpu/artifact/runtime/include/bpf_attach_ctx.hpp:44-95 | flags, lock, ids and response lie clear of both payload fields at the offsets the PTX uses |
| `RegisterGuard.CollectRegisters` | papers/egpu/artifact/attach/nv_attach_impl/nv_attach_impl_register_guard_patcher.cpp:98-208 | the collection loop with its skip and name-conflict rules |
| `RegisterGuard.GuardedRegisters` | papers/egpu/artifact/attach/nv_attach_impl/nv_attach_impl_register_guard_patcher.cpp:104-207 | every saved register is declared and guardable; with distinct base names exactly the declared ones are saved |
| `RegisterTypes.SkippedIff` | papers/egpu/artifact/attach/nv_attach_impl/nv_attach_impl_register_guard_patcher.cpp:125-139 | a declaration is skipped exactly when its type is none of the sixteen listed ones or its name is one of the two stack pointers or the two scratch registers |
| `RegisterTypes.SavedIff` | papers/egpu/artifact/attach/nv_attach_impl/nv_attach_impl_register_guard_patcher.cpp:98-208 | a register is saved if and only if a line declares it that no earlier collected line with the same base name, and a count or none alike, shadows; a count of one or zero passes for none |
| `RegisterTypes.NeighbourIsLost` | papers/egpu/artifact/attach/nv_attach_impl/nv_attach_impl_register_guard_patcher.cpp:143-158 | with `.reg .b32 %r<1>` before `.reg .b64 %r` the register `%r` is declared and not saved |
| `RegisterTypes.KeptLimit` | papers/egpu/artifact/attach/nv_attach_impl/nv_attach_impl_register_guard_patcher.cpp:23-52 | of a register of each type, as many bits are kept as the PTX type has, except that `.f64x2` keeps 64 of its 128 |
| `Decimal.NumeralIsCanonical` | papers/egpu/artifact/attach/nv_attach_impl/nv_attach_impl_register_guard_patcher.cpp:160-184 | the number in a register name is the decimal numeral without leading zeros |
| `RegisterGuard.SlotsAreGood` | papers/egpu/artifact/attach/nv_attach_impl/nv_attach_impl_register_guard_patcher.cpp:125-207 | every slot is one to eight bytes wide and never one of the pass's two scratch registers, numbered names included |
| `RegisterGuard.SlotsDisjoint` | papers/egpu/artifact/attach/nv_attach_impl/nv_attach_impl_register_guard_patcher.cpp:244-259 | the slots of a function do not overlap and end inside the declared area |
| `RegisterGuard.TotalBytes` | papers/egpu/artifact/attach/nv_attach_impl/nv_attach_impl_register_guard_patcher.cpp:244-253 | the computed total is eight bytes per slot |
| `RegisterGuard.BuildSave` | papers/egpu/artifact/attach/nv_attach_impl/nv_attach_impl_register_guard_patcher.cpp:275-320 | the save block addresses slot after slot |
| `RegisterGuard.BuildRestore` | papers/egpu/artifact/attach/nv_attach_impl/nv_attach_impl_register_guard_patcher.cpp:322-380 | the reverse walk from the last offset produces the restore block |
| `RegisterGuard.RestoreMatchesSave` | papers/egpu/artifact/attach/nv_attach_impl/nv_attach_impl_register_guard_patcher.cpp:288-376 | each register is restored from the offset, and with the type, its save used |
| `RegisterGuard.GuardFunction` | papers/egpu/artifact/attach/nv_attach_impl/nv_attach_impl_register_guard_patcher.cpp:384-546 | brace search, insertion points and emission loop give the guarded function: copied head, inserted block, every return guarded, or the function unchanged when its brace is not found |
| `RegisterGuard.EmittedShape` | papers/egpu/artifact/attach/nv_attach_impl/nv_attach_impl_register_guard_patcher.cpp:479-520 | the emission loop's output in one piece |
| `RegisterGuard.GuardText` | papers/egpu/artifact/attach/nv_attach_impl/nv_attach_impl_register_guard_patcher.cpp:71-98 | the line-by-line automaton guards exactly the closed functions, one by one, and copies everything else and an unclosed last function |
| `GuardTexts.EveryFunctionIsGuarded` | papers/egpu/artifact/attach/nv_attach_impl/nv_attach_impl_register_guard_patcher.cpp:71-98 | in every text of whole functions and other lines exactly the functions are guarded, each where it stands |
| `GuardTexts.OpenFunctionIsCopied` | papers/egpu/artifact/attach/nv_attach_impl/nv_attach_impl_register_guard_patcher.cpp:71-98 | a header without a brace, or whose body is not closed, is copied with all that follows |
| `GuardTexts.GuardedIs` | papers/egpu/artifact/attach/nv_attach_impl/nv_attach_impl_register_guard_patcher.cpp:384-520 | the save block stands before the first line after the opening brace that is no declaration, comment or empty line, and the restore block before every return |
| `GuardTexts.GuardDeclares` | papers/egpu/artifact/attach/nv_attach_impl/nv_attach_impl_register_guard_patcher.cpp:255-272 | a guarded function declares a save area of eight bytes a register, and at least eight, and the two scratch registers |
| `RegisterGuard.OnlyInserts` | papers/egpu/artifact/attach/nv_attach_impl/nv_attach_impl_register_guard_patcher.cpp:79-97 | for any text, deleting what was inserted gives back the input lines in order |
| `GuardMachine.SaveRuns` | papers/egpu/artifact/attach/nv_attach_impl/nv_attach_impl_register_guard_patcher.cpp:284-316 | running the save steps puts every register's bytes in its slot and changes only the address scratch register |
| `GuardMachine.RestoreRuns` | papers/egpu/artifact/attach/nv_attach_impl/nv_attach_impl_register_guard_patcher.cpp:344-376 | running the restore steps brings each saved register back, cut to its first slot's width, and changes nothing else |
| `GuardMachine.FindSame` | papers/egpu/artifact/attach/nv_attach_impl/nv_attach_impl_register_guard_patcher.cpp:479-520 | branches in the guarded body reach the lines they reached in the original |
| `GuardMachine.Lockstep` | papers/egpu/artifact/attach/nv_attach_impl/nv_attach_impl_register_guard_patcher.cpp:418-520 | from corresponding lines both bodies end alike, the guarded one at most a restore block later and only if the original does |
| `GuardMachine.GuardKeepsMeaning` | papers/egpu/artifact/attach/nv_attach_impl/nv_attach_impl_register_guard_patcher.cpp:210-382 | for every function with only unconditional returns, every instruction semantics that ignores the scratch registers and every entry state: the guarded function ends exactly when the original does, with the same memory, saved registers restored and others as the original leaves them |
| `GuardMachine.RegistersBack` | papers/egpu/artifact/attach/nv_attach_impl/nv_attach_impl_register_guard_patcher.cpp:23-52 | a saved register is back at its entry value if and only if that value fits its slot's width |
| `RegisterTypes.TypedRegisterBack` | papers/egpu/artifact/attach/nv_attach_impl/nv_attach_impl_register_guard_patcher.cpp:23-52 | when guarded code that ends as the original does returns, a register declared once has its entry value if and only if that value is below 2^8, 2^16, 2^32 or 2^64, by its type, and below 2^64 for `.f64x2` |
| `RegisterTypes.EveryTypeIsKept` | papers/egpu/artifact/attach/nv_attach_impl/nv_attach_impl_register_guard_patcher.cpp:23-52 | a function with unconditional returns gives back every value of every declared register of the fifteen types other than `.f64x2` |
| `EarlyReturns.KeepsMeaningIff` | papers/egpu/artifact/attach/nv_attach_impl/nv_attach_impl_register_guard_patcher.cpp:479-520 | a guarded function ends exactly when the original does and the same way, under every semantics that ignores the scratch registers and from every state, if and only if it saves nothing or no path runs an instruction, passes a predicated return and falls on to an instruction from which control can do something else than run off the end |
| `EarlyReturns.EitherEnds` | papers/egpu/artifact/attach/nv_attach_impl/nv_attach_impl_register_guard_patcher.cpp:479-520 | without such a path, from related states, if one of the two runs ends both do, and alike, predicated returns included |
| `EarlyReturns.BodyBreaks` | papers/egpu/artifact/attach/nv_attach_impl/nv_attach_impl_register_guard_patcher.cpp:511-519 | every such path has a semantics that ignores the scratch registers under which the guarded body faults and the original does not |
| `GuardLimits.GuardBreaksEarlyReturn` | papers/egpu/artifact/attach/nv_attach_impl/nv_attach_impl_register_guard_patcher.cpp:511-519 | every function with a saved register that starts with an instruction, a predicated return, a different instruction and a return: under some meaning of the two the original and the guarded function store different values |
| `GuardLimits.EarlyReturnIsHazard` | papers/egpu/artifact/attach/nv_attach_impl/nv_attach_impl_register_guard_patcher.cpp:511-519 | every function that starts with an instruction, a predicated return, an instruction and a return has such a path |
| `GuardLimits.WideRegisterIsCut` | papers/egpu/artifact/attach/nv_attach_impl/nv_attach_impl_register_guard_patcher.cpp:33-35 | a `.f64x2` register with an entry value of 2^64 or more comes back cut to 64 bits, where the original keeps it |
| `ProbeSplice.ScanBody` | papers/egpu/artifact/attach/nv_attach_impl/nv_attach_impl_patcher.cpp:298-310 | the brace-stack loop ends where the recursive scan does |
| `ProbeSplice.ScanFindsMatch` | papers/egpu/artifact/attach/nv_attach_impl/nv_attach_impl_patcher.cpp:298-311 | the scan stops at `e` if and only if `e` is just past the brace matching the first one |
| `ProbeSplice.BalancedTextScans` | papers/egpu/artifact/attach/nv_attach_impl/nv_attach_impl_patcher.cpp:298-311 | in a balanced text the scan succeeds from every top-level position that has a brace after it |
| `ProbeSplice.FindKernels` | papers/egpu/artifact/attach/nv_attach_impl/nv_attach_impl_patcher.cpp:273-297 | the search loop lists every header once, in order |
| `ProbeSplice.EditSection` | papers/egpu/artifact/attach/nv_attach_impl/nv_attach_impl_patcher.cpp:324-341 | the replacement loop computes the edit of a section, which `ProbeHooks.EditHooksExactly` describes lexeme by lexeme |
| `ProbeHooks.EditHooksExactly` | papers/egpu/artifact/attach/nv_attach_impl/nv_attach_impl_patcher.cpp:324-341 | an entry probe puts exactly a line break, its call and a line break behind every opening brace on `.reg` or `.shared`, a return probe its call and the white space in front of every `ret;` after white space, and nothing else changes |
| `ProbeHooks.CallsAdded` | papers/egpu/artifact/attach/nv_attach_impl/nv_attach_impl_patcher.cpp:324-341 | the edit adds as many calls of the probe function as there are such places |
| `ProbeSplice.EditKeepsLexemes` | papers/egpu/artifact/attach/nv_attach_impl/nv_attach_impl_patcher.cpp:324-341 | the edit only inserts: every lexeme survives in order with its inserted ones right before it |
| `KernelPieces.EditedWellFormed` | papers/egpu/artifact/attach/nv_attach_impl/nv_attach_impl_patcher.cpp:324-341 | an edited kernel is again a kernel with a balanced body and no header inside |
| `ProbeSplice.PatchTarget` | papers/egpu/artifact/attach/nv_attach_impl/nv_attach_impl_patcher.cpp:272-350 | one target, on any text in which the headers up to the first of that name scan: nothing without a header of that name, else the first such section edited in place and the compiled probe prepended |
| `ProbeSplice.PatchedScans` | papers/egpu/artifact/attach/nv_attach_impl/nv_attach_impl_patcher.cpp:342-348 | after a splice and prepend the search for any target still scans every header it comes to |
| `KernelPieces.SpliceIsStructural` | papers/egpu/artifact/attach/nv_attach_impl/nv_attach_impl_patcher.cpp:342-348 | the splice at offsets found in the flat text is the structural edit of the first kernel of that name and of nothing else |
| `KernelPieces.Parsed` | papers/egpu/artifact/attach/nv_attach_impl/nv_attach_impl_patcher.cpp:273-311 | every text in which each named header scans to a section without another header is made of those kernels and plain text |
| `KernelPieces.OwnSectionIff` | papers/egpu/artifact/attach/nv_attach_impl/nv_attach_impl_patcher.cpp:298-311 | in a balanced text with its headers outside braces a header's section holds no other header if and only if the header has a body of its own |
| `KernelPieces.BodylessTakesNext` | papers/egpu/artifact/attach/nv_attach_impl/nv_attach_impl_patcher.cpp:298-347 | in any text, a probe on a header without a body edits the next kernel exactly as a probe on that kernel would, with a call in front of each of its returns that the pattern finds |
| `ProbeHooks.TurnCallsProbe` | papers/egpu/artifact/attach/nv_attach_impl/nv_attach_impl_patcher.cpp:308-348 | a turn on a text whose first kernel of that name is given: the probe compiled for `__probe_func__` or `__retprobe_func__` and the name comes in front, that function is called at every hooked place of the kernel, and all else is as it was |
| `ProbeSplice.PatchAll` | papers/egpu/artifact/attach/nv_attach_impl/nv_attach_impl_patcher.cpp:262-352 | on any text in which the scans the patch makes end: each target's turn finds and scans the kernels of the text the previous turn left, so no offset is stale, and no later scan runs off the text |
| `KernelPieces.PatchIsStructural` | papers/egpu/artifact/attach/nv_attach_impl/nv_attach_impl_patcher.cpp:262-352 | across all targets only the first kernel of each name is edited, and the probes put in front, if each named header has a section of its own |
| `MemCapture.BuildWord` | papers/egpu/artifact/attach/nv_attach_impl/nv_attach_impl_patcher.cpp:211-218 | the word built from signed characters: each byte in place until one above 127 turns the rest to ones |
| `MemCapture.Prologue` | papers/egpu/artifact/attach/nv_attach_impl/nv_attach_impl_patcher.cpp:180-245 | the generator loop emits the setup and one load/store group per eight bytes |
| `MemCapture.RunPrologue` | papers/egpu/artifact/attach/nv_attach_impl/nv_attach_impl_patcher.cpp:188-242 | running the prologue leaves r1 at the bottom of the reserved region and memory as the stored words give it |
| `MemCapture.BuildsIff` | papers/egpu/artifact/attach/nv_attach_impl/nv_attach_impl_patcher.cpp:183-242 | in every memory the region then holds the line and a terminator, and nothing outside it changed, if and only if the line is short and 7-bit enough |
| `MemCapture.LongLineSpoils` | papers/egpu/artifact/attach/nv_attach_impl/nv_attach_impl_patcher.cpp:236-241 | past 32768 bytes an offset wraps and memory below the region is overwritten |
| `MemCapture.FilterUnprintable` | papers/egpu/artifact/attach/nv_attach_impl/nv_attach_impl.cpp:524-544 | the filter keeps the printable characters in order up to the last closing brace |
| `MemCapture.KeptExactly` | papers/egpu/artifact/attach/nv_attach_impl/nv_attach_impl.cpp:524-540 | the bytes kept are those at the positions of tab, newline and 0x20 to 0x7e, all of them and in order |
| `MemCapture.FilteredTextIsCaptured` | papers/egpu/artifact/attach/nv_attach_impl/nv_attach_impl.cpp:524-544 | every short stretch of filtered text is captured as its own NUL-terminated string, nothing outside the region touched |
| `FairShare.Totals` | papers/egpu/artifact/example/cuda-scheduler/cuda_scheduler.c:89-93 | the accumulated sum and sum of squares |
| `FairShare.Select` | papers/egpu/artifact/example/cuda-scheduler/cuda_scheduler.c:88-110 | no grant without processes, else the pid of the first entry with the least count |
| `FairShare.Search` | papers/egpu/artifact/example/cuda-scheduler/cuda_scheduler.c:94-106 | the strict-improvement loop returns the first least count for any score that falls as the count rises |
| `FairShare.LookaheadOrder` | papers/egpu/artifact/example/cuda-scheduler/cuda_scheduler.c:97-101 | a larger lookahead value is exactly a smaller count |
| `FairShare.LookaheadIsJain` | papers/egpu/artifact/example/cuda-scheduler/cuda_scheduler.c:97-101 | the lookahead is Jain's index of the counts after the grant |
| `FairShare.JainIs` | papers/egpu/artifact/example/cuda-scheduler/cuda_scheduler.c:97-101 | the index is the square of the sum over the number of counts times the sum of squares |
| `FairShare.JainIsOneIff` | papers/egpu/artifact/example/cuda-scheduler/cuda_scheduler.c:66-112 | the index is at most one, and one exactly when all counts are equal |
| `FairShare.FirstLeastMaximisesJain` | papers/egpu/artifact/example/cuda-scheduler/cuda_scheduler.c:96-106 | the chosen grant gives the largest index of any single grant |
| `FairShare.RoundsMaximiseJain` | papers/egpu/artifact/example/cuda-scheduler/cuda_scheduler.c:66-112 | after any number of rounds from any counts the index is at least that of every other way to hand out as many grants |
| `FairShare.RoundsAreLevelled` | papers/egpu/artifact/example/cuda-scheduler/cuda_scheduler.c:66-112 | whoever was granted anything ends at most one above everybody, and the grants add up |
| `FairShare.SpreadNeverGrows` | papers/egpu/artifact/example/cuda-scheduler/cuda_scheduler.c:66-112 | the spread never exceeds its starting value, or one |
| `FairShare.EventuallyEven` | papers/egpu/artifact/example/cuda-scheduler/cuda_scheduler.c:66-112 | after enough rounds to lift everybody to the tallest start, counts differ by at most one for good |
| `HandOff.StepKeepsInv` | papers/egpu/artifact/example/cuda-scheduler/cuda_scheduler.bpf.c:72-83 | every step keeps releases plus grants still owed within the grants written |
| `HandOff.ConservesIff` | papers/egpu/artifact/example/cuda-scheduler/cuda_scheduler.bpf.c:72-83 | in every interleaving no pid is released more often than written, if and only if the waiters have distinct nonzero pids |
| `HandOff.GrantCanBeLost` | papers/egpu/artifact/example/cuda-scheduler/cuda_scheduler.bpf.c:77-82 | a run in which a slow clear erases another process's grant |
| `HandOff.PoliteRunsLoseNothing` | papers/egpu/artifact/example/cuda-scheduler/cuda_scheduler.bpf.c:72-83 | if every write is of a real pid into an empty cell, every grant written is taken up, about to be, or in the cell, in every run |
| `HandOff.PoliteKeepsAllIff` | papers/egpu/artifact/example/cuda-scheduler/cuda_scheduler.bpf.c:72-83 | that holds for all such runs if and only if the waiters have distinct nonzero pids |
| `HandOff.WriteLosesIff` | papers/egpu/artifact/example/cuda-scheduler/cuda_scheduler.c:107-109 | after such a history a write can lose a grant, with the waiters alone moving on, if and only if it finds one in the cell |
| `TextRewrite.RewriteSegment` | papers/egpu/artifact/attach/text_segment_transformer/text_segment_transformer.cpp:133-156 | the in-place sweep computes the rewrite |
| `TextRewrite.SweepIs` | papers/egpu/artifact/attach/text_segment_transformer/text_segment_transformer.cpp:133-156 | the sites swept follow one another as the decoder reports them, up to the end or to bytes that do not decode |
| `TextRewrite.SameBoundaries` | papers/egpu/artifact/attach/text_segment_transformer/text_segment_transformer.cpp:138-156 | a sweep of the result visits the same boundaries, with every system call but the tracer's own turned into an ordinary instruction |
| `TextRewrite.SyscallsBecomeCalls` | papers/egpu/artifact/attach/text_segment_transformer/text_segment_transformer.cpp:146-154 | each such system call becomes `ff d0` |
| `TextRewrite.OtherBytesStay` | papers/egpu/artifact/attach/text_segment_transformer/text_segment_transformer.cpp:146-154 | every other byte is unchanged |
| `TextRewrite.RewriteIsIdempotent` | papers/egpu/artifact/attach/text_segment_transformer/text_segment_transformer.cpp:133-156 | a second rewrite changes nothing |
| `SyscallHook.SetupPage` | papers/egpu/artifact/attach/text_segment_transformer/text_segment_transformer.cpp:205-236 | the page holds 512 nops and then the thirteen-byte jump to the handler |
| `SyscallHook.SledReachesHandler` | papers/egpu/artifact/attach/text_segment_transformer/text_segment_transformer.cpp:205-236 | from every sled entry control reaches the handler with the number pushed and only rax changed |
| `SyscallHook.CallArrives` | papers/egpu/artifact/attach/text_segment_transformer/text_segment_transformer.cpp:205-236 | the rewritten call arrives for every number below 512, whatever the registers hold |
| `SyscallHook.HookGetsTheCall` | papers/egpu/artifact/attach/text_segment_transformer/text_segment_transformer.cpp:57-85 | the hook is called on a 16-byte aligned stack with the number and six arguments in the order of section 3.2.3 of the System V AMD64 ABI |
| `SyscallHook.OriginalReissues` | papers/egpu/artifact/attach/text_segment_transformer/text_segment_transformer.cpp:87-100 | the default hook puts its seven arguments back in the system call registers |
| `SyscallHook.SyscallRoundTrip` | papers/egpu/artifact/attach/text_segment_transformer/text_segment_transformer.cpp:57-113 | end to end with the default hook: sled, handler and hook ask the kernel for the call the program made, and whatever memory the kernel writes outside two frame slots, hook and handler return its result to the caller with rsp, rbp and callee-saved registers as they were |
| `SyscallHook.CallerResumes` | papers/egpu/artifact/attach/text_segment_transformer/text_segment_transformer.cpp:83-85 | after any hook that keeps rbp, the callee-saved registers and the sixteen bytes of the handler's frame the caller resumes with its rsp and rbp, the hook's result and all memory the hook wrote |
| `SyscallHook.HookedIff` | papers/egpu/artifact/attach/text_segment_transformer/text_segment_transformer.cpp:59-63 | the hook is called exactly for numbers other than 15 |
| `Checkpoint.Save` | papers/egpu/artifact/attach/nv_attach_impl/gpu_state_manager.cpp:395-489 | the writer produces the format's bytes |
| `Checkpoint.Load` | papers/egpu/artifact/attach/nv_attach_impl/gpu_state_manager.cpp:497-628 | the section loop computes the parser that `CheckpointFormat` describes in bytes |
| `CheckpointFormat.LoadedIff` | papers/egpu/artifact/attach/nv_attach_impl/gpu_state_manager.cpp:497-628 | the loader accepts exactly the byte strings made of a header, sections and the end marker, whatever follows, and returns what the sections set, later ones over earlier ones |
| `CheckpointFormat.SignatureRead` | papers/egpu/artifact/attach/nv_attach_impl/gpu_state_manager.cpp:507-519 | it answers a bad magic number exactly when there are eight bytes and the first four are not 47 4B 50 43, and a bad version exactly when they are and the next four are not 01 00 00 00 |
| `CheckpointFormat.UnknownIff` | papers/egpu/artifact/attach/nv_attach_impl/gpu_state_manager.cpp:537-614 | it refuses a section exactly when after a header and well-formed sections the next tag is none of 1 to 5 and not FF FF FF FF |
| `CheckpointFormat.SavedIsFile` | papers/egpu/artifact/attach/nv_attach_impl/gpu_state_manager.cpp:395-489 | the writer writes the file of the state's five sections, in order, then the end marker |
| `CheckpointFormat.FileLayout` | papers/egpu/artifact/attach/nv_attach_impl/gpu_state_manager.cpp:406-426 | signature, time, grid, block and name length are at bytes 0, 8, 16, 28 and 40, least significant byte first |
| `Checkpoint.LoadAfterSave` | papers/egpu/artifact/attach/nv_attach_impl/gpu_state_manager.cpp:395-628 | with the same flag, into any state and whatever follows the end marker, loading gives back everything the format can hold |
| `Checkpoint.RoundTripIff` | papers/egpu/artifact/attach/nv_attach_impl/gpu_state_manager.cpp:395-628 | the round trip is exact if and only if name and register counts fit in 32 bits |
| `Restore.ImmediateRestore` | papers/egpu/artifact/attach/nv_attach_impl/gpu_state_manager.cpp:102-126 | success, and the memory, in terms of the driver calls' outcomes |
| `Restore.IncrementalRestore` | papers/egpu/artifact/attach/nv_attach_impl/gpu_state_manager.cpp:142-170 | the chunk loop ends with the one-shot result and nothing else changed; when a chunk fails exactly the preceding prefix is restored |
| `PersistentKernel.BlocksPartitioned` | papers/neutrino/artifact/examples/zero_persistent.py:7-18 | program and turn visit a block if and only if they are its remainder and quotient by the stride and it is in range |
| `PersistentKernel.NoIdleProgram` | papers/neutrino/artifact/examples/zero_persistent.py:19-27 | there are as many programs as blocks or multiprocessors, whichever is less, and each has work |
| `PersistentKernel.ElementsPartitioned` | papers/neutrino/artifact/examples/zero_persistent.py:7-18 | every element below the size is stored by exactly one lane of one turn of one program, and none at or past it |
| `PersistentKernel.Program` | papers/neutrino/artifact/examples/zero_persistent.py:7-18 | one program zeroes exactly its blocks below the mask |
| `PersistentKernel.ZeroPersistent` | papers/neutrino/artifact/examples/zero_persistent.py:19-27 | the launch zeroes exactly the first elements of the buffer |
| `ExperimentVersions.HashIgnoresItself` | scripts/experiment_versions.py:54-67 | writing a hash into a document does not change its hash, and is what is then stored |
| `HashEvidence.CanonicalIff` | scripts/experiment_versions.py:54-67 | two documents have the same hashed content if and only if they agree on entries, changes and every field but `content_hash` |
| `ExperimentVersions.AllStatesMember` | scripts/experiment_versions.py:70-104 | inspection lists exactly the entries of the indexes |
| `ExperimentVersions.Catalogue.Inspect` | scripts/experiment_versions.py:70-104 | the inspection loop, failing exactly on a missing or broken file |
| `ExperimentVersions.Catalogue.Check` | scripts/experiment_versions.py:143-175 | code 0 exactly when the catalogue is clean, which `HashEvidence.CleanMeans` says of the files |
| `HashEvidence.CleanMeans` | scripts/experiment_versions.py:107-175 | clean: every file is there, and every entry repeats the hash its metadata file stores, which is the digest of the rest of that file |
| `HashEvidence.EveryEditIsSeen` | scripts/experiment_versions.py:107-216 | in a clean catalogue, with a digest without collisions, replacing the metadata of any experiment leaves check satisfied if and only if nothing changed, and otherwise a full update selects that experiment |
| `ExperimentVersions.Choose` | scripts/experiment_versions.py:180-213 | refused exactly for an unknown paper, ids in several papers or an unknown id; otherwise the stale experiments the arguments name |
| `HashEvidence.SelectedIff` | scripts/experiment_versions.py:180-213 | an experiment is selected exactly when it is of the paper and among the ids asked for, if any, and not current |
| `HashEvidence.RefusedIff` | scripts/experiment_versions.py:180-207 | update refuses exactly a paper of no index, ids from several papers when none is named, and an id nothing in scope has |
| `ExperimentVersions.FreePath` | scripts/experiment_versions.py:256-262 | the suffix loop ends with the first record name that is free |
| `ExperimentVersions.Catalogue.WriteGroup` | scripts/experiment_versions.py:225-263 | the writes for one index, and a record, named by time and ids, that overwrites no file |
| `HashEvidence.RecordTells` | scripts/experiment_versions.py:225-242 | every change in a record is of a selected experiment of that index, with its id, uid and path, the hash its file stored before and the hash of its content |
| `HashEvidence.EverythingIsRecorded` | scripts/experiment_versions.py:218-263 | every selected experiment is in a record |
| `HashEvidence.JoinedIds` | scripts/experiment_versions.py:256-262 | in a record's name ids are joined by hyphens, in order |
| `HashEvidence.RecordNames` | scripts/experiment_versions.py:257-261 | the first record name has no number, the next ones count from one |
| `ExperimentVersions.Catalogue.Update` | scripts/experiment_versions.py:178-267 | return codes; codes 1 and 2 write nothing; code 0 has written, in the source's order, the chosen metadata, each index as it was loaded with the new hashes, and one record per index in a file that did not exist |
| `HashUpdates.FullUpdateRepairs` | scripts/experiment_versions.py:178-267 | after an update without ids and paper, check passes |
| `HashUpdates.SecondUpdateIdle` | scripts/experiment_versions.py:202-216 | the same update again is accepted or refused alike and has nothing to write |
| `HashUpdates.OnlyChosenEntries` | scripts/experiment_versions.py:208-242 | an index entry changes only for a chosen experiment, and only in its hash |
| `HashUpdates.OnlyChosenFiles` | scripts/experiment_versions.py:227-232 | otherwise a file changes only as a chosen experiment's metadata, and only in its hash |
| `HashUpdates.WroteIsUpdated` | scripts/experiment_versions.py:218-242 | the writes, group by group, make exactly the chosen hashes current if no index they rewrite is an entry's metadata |
| `HashUpdates.AlwaysRepairsIff` | scripts/experiment_versions.py:218-242 | a full update makes check pass whatever the hash function, if and only if no index that has entries is also the metadata of an entry |
| `TracePairing.BuildMap` | papers/profinfer/artifact/Linux/trace_llama.py:315-327 | the two words select exactly the operators whose slot is listed |
| `TracePairing.BitsOfMap` | papers/profinfer/artifact/Linux/trace_llama.py:315-327 | bit k of the low word is set exactly when operator k is listed, and of the high word exactly when operator 64 + k is |
| `TracePairing.Activate` | papers/profinfer/artifact/Linux/trace_llama.py:318-327 | the configured list, or all 128 operators when it is empty or the whole structure is traced, is what the words select |
| `TracePairing.DefaultSelectsAll` | papers/profinfer/artifact/Linux/trace_llm.c:219-221 | with that default every called operator is selected |
| `TracePairing.SelectsListed` | papers/profinfer/artifact/Linux/trace_llm.c:219-221 | for operators below 128 the probe's test is membership in the list; above, membership of the alias |
| `TracePairing.Probes.ForwardStart` | papers/profinfer/artifact/Linux/trace_llm.c:187-236 | the start probe's update of flag table and events |
| `TracePairing.Probes.ForwardEnd` | papers/profinfer/artifact/Linux/trace_llm.c:316-331 | the end probe's event, only under the thread's flag |
| `TracePairing.Probes.Replay` | papers/profinfer/artifact/Linux/trace_llm.c:187-331 | any interleaving of probe hits gives the specified tracer state |
| `TracePairing.PairsExactly` | papers/profinfer/artifact/Linux/trace_llm.c:56-234 | in every interleaving of at most eight threads with non-nesting calls, each thread's events are one begun/ended pair per selected call, in order |
| `TracePairing.ReportAlternates` | papers/profinfer/artifact/Linux/trace_llm.c:187-331 | those events alternate, begun first |
| `TracePairing.ListedCallsAreReported` | papers/profinfer/artifact/Linux/trace_llm.c:187-331 | with the map built from a list, exactly the calls whose operator is listed are reported |
| `TracePairing.NinthThreadLosesItsEnd` | papers/profinfer/artifact/Linux/trace_llm.c:55-57 | a run of nine threads in which the ninth one's selected call is begun and never ended |
| `TracePairing.PairsForIff` | papers/profinfer/artifact/Linux/trace_llm.c:56-331 | every non-nesting interleaving of a set of threads is reported exactly, whatever is selected, if and only if there are at most eight |

## Left out

- CUDA, NVRTC, capstone and libbpf calls: foreign code; they appear as outcomes passed in (`Restore`) or as an arbitrary byte-determined decoder (`TextRewrite`).
- The host side of the mailbox: its loop is not part of the files modelled; it follows the flag contract of `CommSharedMem`.
- Weak memory order and floating-point rounding: steps are sequentially consistent and arithmetic is exact and unbounded (`FairShare` uses reals for the doubles and naturals for the 64-bit sums).
- Helpers 6 and 501: their copy loops and field layouts, which repeat those of helpers 1 to 3; the protocol covers their requests.
- Mailbox.AlwaysIntactIff: a copy goes byte by byte, lowest offset first, and the host's read of the whole payload is one step; a call that writes an offset twice, as helper 6 can with a format of more than 1000 bytes, is taken to write only the last byte there.
- RegisterGuard.TotalBytes: does not model `int` overflow once a function has more than 2^28 - 1 guarded registers; sizes are unbounded.
- GuardMachine.GuardKeepsMeaning: returns the pass does not recognise (`ret.uni;`, `@!%p ret;`) are not instructions of the machine; predicated ones, which can break the guard, are the subject of `EarlyReturns`; using a register before its declaration, which happens when a declaration follows the leading ones, is not an error of the machine; a body ends at its first bare closing brace, as it does for the pass.
- The `{` at end of input alternative of the entry-probe pattern, which cannot match inside a section that ends in `}`; the version-header filter after the splices; and the compilation of the probe, which is a function to text without entry headers.
- EarlyReturns.KeepsMeaningIff: return predicates are registers the guard does not save, as `.pred` registers are, saved registers start with values of their width, and the save area fits the address space.
- ProbeSplice.PatchAll: a header with its parameter list is one lexeme; a text in which the scan from a header the search comes to does not end is left out, because the source then reads past the end of the text.
- MemCapture.FilterUnprintable: needs a closing brace in its input, because without one the source pops an empty string.
- The 512-byte eBPF stack limit and the write to r10, which a kernel verifier would refuse.
- The kernel-entry counting and timing of the scheduler's probes; the hand-off starts where a process begins to wait.
- TextRewrite.RewriteSegment: the decoder reports system calls as two bytes, so prefixed encodings are not modelled.
- SyscallHook.CallArrives: needs 256 bytes of address space below rsp, as do HookGetsTheCall, SyscallRoundTrip and CallerResumes; a stack that wraps around address zero is not modelled.
- SyscallHook.SyscallRoundTrip: the compiled `syscall_hooker_cxx` between handler and hook is taken to enter the hook with its own arguments; the red zone, the caller-saved registers and the rt_sigreturn branch are not claimed, because the handler does not preserve them.
- Checkpoint.Load: on a file that ends early the source goes on with indeterminate values and the model answers `Truncated`; compression is the identity, as in the source.
- Checkpoint capture, live migration, lazy and selective restoration, the daemon and the kernel tracer: placeholders or thin wrappers.
- ExperimentVersions.Catalogue.Update: entries have an id, uid and path, and paths are compared as written; JSON text, git and the staged variant of check are parameters or left out; failing writes and the record's reason and timestamp are not modelled.
- HashUpdates.FullUpdateRepairs: for one given hash function the condition that no rewritten index is metadata is enough and not always needed; over all hash functions AlwaysRepairsIff states the exact one.
- RING_BUFFER and TARGET_N_ITER builds of the tracer, and lost perf events.
- `scripts/validate_metadata.py` and `scripts/generate_graph.py`, plotting and benchmark drivers: lists of independent field checks, and user interface.
