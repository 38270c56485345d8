# Verified model of the corus dump engine

corus writes an ELF core of the running process without stopping it for longer than necessary. A lister thread, cloned
into the process, attaches every sibling with ptrace, captures their registers, forks a copy-on-write child (or stays
put), lets the siblings go, and the child (or the lister) writes the core. This project models that engine, the Rust
code of `corus-core`, in Dafny and proves what it promises. Verify everything with `dafny verify dfyconfig.toml`.

The kernel appears as small contracts that leave open what the kernel leaves open: short and interrupted reads and
writes, failing calls, page readability, who exists and who runs. Numbers of interruptions and directory reads are
finite but arbitrary. Memory is a function from addresses to bytes; a fork is a copy of it.

## What is proved

**Freeze, snapshot, resume** (`Lister`, `ListerSafety`, `ListerResult`, `Snapshot`, `ListerWitness`, `ListerProgram`). A
transition system whose runs interleave the lister, siblings that spawn, write and exit, a snapshot child, the user's
pre-dump callback, failing system calls and a crash at any step. Inductive invariants over all runs give: the recorded
threads are distinct siblings and the passes are at most one more than they are; every exit that is not a crash leaves
nobody stopped; only threads of the process's own memory are recorded, and whether there is a dump depends on whether
the parent is among them; after a last pass in which no live sibling failed to attach and none exited unstopped, every
live sibling is stopped during the callback; a crash leaves stopped exactly the threads that `LeftByCrash` names; the
dump shows the state at the capture point, which is after the user's callback has returned and before the first register
is read; and the caller hears of success exactly when everything succeeded, and otherwise the errno of what failed.
`ListerProgram` holds lister and caller as programs with their loops, array and parameter block, and proves that each
execution is such a run and ends.

**File format** (`Notes`, `NoteReader`, `NoteWriter`, `CoreFile`, `RoundTrip`, `CoreWriter`, `DumpNotes`). The core as a
value, a reader that follows the System V ABI (gABI, chapter 4 "ELF Header", chapter 5 "Program Header" and "Note
Section", with the 4-byte note alignment of Linux) and knows the format by its numbers and not by the writer's names,
the round trip between the two, and the streaming code, which computes offsets first and sends bytes later, proved to
produce exactly that value. The memory it reads is alive: the dumping thread keeps changing its own part of it (stack,
buffers) between any two probes.

**The whole** (`SnapshotFile`, `EndToEnd`, `DumpWitness`). What a reader of the file learns about the stopped process:
every captured thread with its registers of the capture point; every listed mapping outside the dumping thread's own
memory, kept or dropped by the rules as applied to the frozen memory; every byte that is not the dumping thread's own,
and every page with something in it, also in mappings it owns in part. Forked and in-line dumps therefore agree on
these, although they choose mappings separately and their own memories differ. `EndToEnd` starts from the answer Ok(0):
after a reliable scan the bytes added to the file are such a dump.

**Size limits** (`Limiter`, `Serialize`, `Alignment`, `Output`). The greedy trimming, characterised completely; the
exact length of a limited file; what every schedule of short, interrupted and failing writes leaves in it; and which
segments keep file offset and address congruent.

**Reading without faulting** (`Probe`, `MapsText`, `MapsReader`, `Mappings`). Memory is copied through a pipe and
`/proc/self/maps` through a buffer; the nested loops equal pointwise specifications, and the pipe is clean between
probes.

## Where the promises end

Some promises hold only under a condition. The condition is part of the statement, or a concrete case shows the failure.

- A sibling that spawns another and exits during the last scan pass leaves the new one running while the process is
  dumped, although nothing failed (`ListerWitness.SpawnAndExitEscapes`; the condition is in `ListerSafety.ScanFixpoint`).
- Two crash windows are real: between attaching a thread and publishing it, and between clearing the crash list and
  resuming (`ListerWitness.WindowsAreReal`; exact in `ListerSafety.CrashSafety`).
- A scan that fails resumes everybody but leaves the crash list armed (`ListerSafety.CrashListAtExit`).
- A crash between announcing the snapshot child and collecting it leaves its pid behind (`ListerResult.StaleAfterCrash`,
  an if-and-only-if), and the next dump, if written in-line, waits for that pid and is reported as failed although it is
  complete (`ListerWitness.StaleChildSpoilsNextDump`; exact in `ListerResult.ResultExactly`).
- The header count is stored in 16 bits (`RoundTrip.HeaderCountNeedsSixteenBits`, an if-and-only-if). The engine's own
  limit of 4096 mappings keeps it in range.
- The limited writer does not count bytes of a write that failed; the limit holds because the engine stops at the first
  failure (`Output.ContractAllowsOverrun` is about the writer's contract).
- With a limit of zero the dump counts as successful even when the mappings cannot be read (`Serialize.RunSerialize`).
- Priority trimming breaks the congruence of file offset and address for segments behind the one in which it ends, unless
  the limit leaves whole pages (`Alignment.TrimmedCongruent`, an if-and-only-if, and `Alignment.TrimmingMisaligns`).
- `p` and `s` in the permission column set the same bit (`MapsText.ParserInvertsPrinter`), although `Perms::private` is
  documented as telling them apart (corus-core/src/proc_parse.rs:66-68).

## Model

| member | source | states |
|---|---|---|
| `ListerSafety.ListSound` | corus-core/src/threads.rs:365-426 | in every reachable state the recorded tids are nonzero, not the lister, pairwise distinct and at most 4096, and the passes begun are at most one more than the recorded threads |
| `ListerSafety.NobodyLeftStopped` | corus-core/src/threads.rs:372-463 | every end without a crash (directory error, overflow, parent not found, complete dump) has exit code 0, 1 or 3 and an empty set of stopped threads |
| `ListerSafety.ScanFixpoint` | corus-core/src/threads.rs:365-440 | given that a thread that lives through a whole pass is listed in it: if in the last pass no live sibling failed to attach and none exited unstopped, then throughout the callback the live siblings, the stopped threads and the list are the same set, and it holds the parent |
| `ListerSafety.CrashSafety` | corus-core/src/threads.rs:129-148 | the exact set of threads a crash leaves stopped in every phase: the unpublished one while scanning, nobody in the callback or while a failed scan is undone, those not yet resumed after the list is cleared; SIGABRT kills exactly the others; the handler takes the list away and exits with 1 for SIGABRT and 2 otherwise |
| `ListerSafety.PublishedIsList` | corus-core/src/threads.rs:352-408 | the crash list covers every stopped thread but the unpublished one, in every phase |
| `ListerSafety.CrashListAtExit` | corus-core/src/threads.rs:376-380 | at an end without a crash the crash list is still armed if and only if the lister failed with exit code 1 |
| `ListerSafety.ParentDecides` | corus-core/src/threads.rs:431-440 | a scan that ends with the parent on the list goes on to the callback, and one that ends without it resumes everybody for exit code 3 |
| `ListerSafety.ParentAtExit` | corus-core/src/threads.rs:411-437 | at an end without a crash exit code 3 means that the parent is not on the list, and exit code 0, like a callback at work, that it is |
| `ListerSafety.OnlyMarkedAttached` | corus-core/src/threads.rs:388-404 | a step that stops a thread looks at a directory entry of that name, the thread has the marker socket, is not the lister, not recorded yet, and there is room for it |
| `ListerSafety.OnlySharersRecorded` | corus-core/src/threads.rs:573-609 | nobody who runs in another memory, such as a forked copy that shows the same marker, is ever recorded |
| `ListerSafety.VetStep` | corus-core/src/threads.rs:404-440 | every step keeps: the flag is set if and only if the parent has been published, it decides what follows the scan, and only threads of the lister's memory are on the list |
| `ListerSafety.StepKeeps` | corus-core/src/threads.rs:300-463 | every step of lister, siblings, child, crash handler and caller keeps the invariants on list, stopped set, crash list, pass count and pass history |
| `ListerSafety.ScanKeeps` | corus-core/src/threads.rs:352-440 | the scan steps keep them |
| `ListerSafety.PassStep` | corus-core/src/threads.rs:367-425 | in a pass that has attached nobody and missed nobody, whoever ran at its start still runs and has not been looked at; at its end this leaves nobody running |
| `ListerSafety.LeaveKeeps` | corus-core/src/threads.rs:442-462 | clearing, resuming one by one and reaping keep them: the stopped threads are always the part of the list not yet resumed |
| `ListerSafety.EnvKeeps` | corus-core/src/threads.rs:365-426 | whatever unstopped siblings do between two steps keeps them |
| `ListerSafety.CrashKeeps` | corus-core/src/threads.rs:129-148 | so does the crash handler |
| `ListerWitness.SpawnAndExitEscapes` | corus-core/src/threads.rs:365-426 | a run in which nothing fails to attach and yet a live sibling is not stopped during the callback |
| `ListerWitness.WindowsAreReal` | corus-core/src/threads.rs:405-410 | runs in which a crash before publishing, and one after clearing, each leave a thread stopped |
| `ListerWitness.CrashLeavesStaleChild` | corus-core/src/dump.rs:732-739 | a run in which a crash leaves the snapshot child's pid behind |
| `ListerWitness.UndisarmedChildActs` | corus-core/src/dump.rs:723-731 | a run in which the child crashes before it has disarmed itself and its handler acts on the inherited list |
| `ListerResult.StaleAfterCrash` | corus-core/src/threads.rs:458-461 | a crash leaves a stale child behind if and only if it comes between announcing the child and collecting it, or an earlier stale child has not been collected yet |
| `ListerWitness.StaleChildSpoilsNextDump` | corus-core/src/threads.rs:458-461 | a run in which a complete in-line dump is reported as failed because it waits for the stale pid |
| `ListerResult.ResultExactly` | corus-core/src/lib.rs:116-135 | for every start, with or without a stale child: the caller gets Ok(0) if and only if its wait succeeded, the lister exited 0, the capture and the serializer (in-line, or in the child, which was reaped) reported success, and an in-line dump found no stale child or reaped it cleanly |
| `ListerResult.ResultSoundness` | corus-core/src/lib.rs:116-135 | starting with no stale child, Ok(0) if and only if wait, lister, capture and serializer succeeded |
| `ListerResult.AnswerIsJudged` | corus-core/src/lib.rs:128-135 | the answer in every case, from how lister, capture, serializer, child and wait ended, with the errno where the engine fixes one |
| `ListerResult.FailureIsReported` | corus-core/src/threads.rs:514-552 | a scan that gives up reaches the caller with the errno of the call that failed, ENOMEM if the list is full, and ECHILD if there is no errno, through every continuation without a crash |
| `ListerResult.CrashIsReported` | corus-core/src/threads.rs:525-552 | after a crash the caller is told EFAULT; only if the handler ran for SIGABRT, the errno of the failure being cleaned up, or ECHILD |
| `ListerResult.WaitFailureIsReported` | corus-core/src/threads.rs:730-742 | a caller that cannot wait for the lister is told why |
| `ListerResult.DecodedByEnding` | corus-core/src/threads.rs:522-552 | what decoding a wait status leaves in the parameter block, by how the process ended, for every status a wait can bring |
| `ListerResult.NoStaleChild` | corus-core/src/threads.rs:458-461 | an end without a crash leaves no snapshot child recorded after a complete run, and what it found after a failed one |
| `ListerResult.StatusRoundTrip` | corus-core/src/threads.rs:525-552 | decoding a wait status recovers whether the process exited and with which code |
| `ListerProgram.WriteCoreDump` | corus-core/src/lib.rs:116-135 | the call as a program, with the parameter block that lister and caller share: it ends with nobody stopped, and the answer folded from block, decoded status and callback result is the one that the way the run ended calls for; success if and only if wait, lister, capture and serializer succeeded and no stale child got in the way |
| `ListerProgram.ListerThread.Reap` | corus-core/src/threads.rs:470-490 | the block after reaping is that of the transition system, for a failed wait, a clean exit, any other end of the child, and a pid that is no child of this dump |
| `ListerResult.ResultStep` | corus-core/src/threads.rs:440-490 | every step keeps the record of capture, serializer, child and parameters consistent with the phase |
| `Snapshot.ConsistentSnapshot` | corus-core/src/dump.rs:312-320 | after a reliable last pass and a successful capture, the threads are exactly those alive at the capture point (after the user's callback returned), each shown once, and every byte written outside the lister's own memory is the byte of that moment; thread number i of the dump has tid number i of the list and, byte by byte, its registers of that moment, but for the requesting thread, which shows its own snapshot with its segment bases in bytes 168 to 183; FP registers are those of that moment where they could be read, and 512 zeros otherwise |
| `Snapshot.CapturePoint` | corus-core/src/dump.rs:312-320 | the moment that a dump shows is when the user's callback returns, with all that it wrote, or without a callback when the scan is over, whatever happens afterwards |
| `Snapshot.CaptureShows` | corus-core/src/dump.rs:323-371 | one captured thread shows tid, registers, call-site frame and FP registers as just said |
| `Snapshot.SnapshotParts` | corus-core/src/dump.rs:323-381 | the captured threads show their registers of the capture point, in the same way, even after an unreliable scan; the bytes are right whenever everybody was stopped then |
| `Snapshot.StrategiesAgree` | corus-core/src/dump.rs:709-746 | two dumps of the same frozen state, forked or in-line, agree on all pids and registers and on every byte outside the listers' memory |
| `Snapshot.DisarmedChildIsHarmless` | corus-core/src/dump.rs:723-731 | a remark, close to the definition of the child's steps: a child that has disarmed its inherited crash list never acts on siblings, however it ends |
| `Snapshot.ReadsFrozen` | corus-core/src/dump.rs:384-404 | whatever siblings do after being resumed, what the serializer can read outside the lister's own memory is the memory of the capture point |
| `Snapshot.SnapStep` | corus-core/src/dump.rs:680-747 | every step keeps captured registers, child memory and written bytes equal to the frozen state |
| `EndToEnd.SuccessMeansFrozenProcess` | corus-core/src/lib.rs:101-135 | the promise of the whole engine: after Ok(0) from a dump that was neither trimmed nor cut and whose last scan pass was reliable, the bytes added to the file read back as the process at the capture point, with exactly the threads alive then, their registers, and the memory of that moment, and with process information, auxiliary vector, caller's notes and file table as given |
| `EndToEnd.FileShows` | corus-core/src/dump.rs:405-477 | the bytes a successful, uncut dump adds to the file read back as the threads it was given and the memory it read, and any memory that agrees with that outside the owned part |
| `EndToEnd.SerializeUncut` | corus-core/src/dump.rs:644-666 | serializing an uncut dump with an exact scan leaves such a file whenever it reports success |
| `EndToEnd.CaptureStays` | corus-core/src/dump.rs:697-746 | once taken, the capture stays as it is to the end of the run |
| `SnapshotFile.DumpShowsFrozenProcess` | corus-core/src/dump.rs:405-477 | every dump the serializer can make of the captured threads and the memory it reads, while that changes inside the lister's own part, reads back: process information, user area, threads (main first, with the registers of the capture point), auxiliary vector and caller's notes in this order with nothing in between; a file table with one row for every segment of a file-backed mapping; every listed mapping outside the lister's memory kept, dropped and stored as the keep rule says of the frozen memory; every byte in the file that is not the lister's own the frozen one, zero where unreadable; and no page with something in it lost from a mapping to store in full, even one that is the lister's own in part |
| `SnapshotFile.StrategiesWriteSameCore` | corus-core/src/dump.rs:709-746 | a forked and an in-line core of one frozen process, each with its own inputs, mapping choices and changing memory, read back with the same pids and registers; for every listed mapping outside both listers' memory, the same presence, header (but for the file offset) and bytes; and equal bytes wherever both hold one that is neither lister's own |
| `DumpWitness.BothStrategiesHappen` | corus-core/src/dump.rs:709-746 | a process of one thread and one page, frozen once, of which both strategies make a dump as the two theorems above suppose |
| `SnapshotFile.DumpShows` | corus-core/src/elfcore.rs:143-251 | the same of any dump, for what it was given and any memory that agrees with the one it read outside the owned part; the PT_NOTE header and every PT_LOAD header are given field by field, and nothing is left over if there is a segment |
| `SnapshotFile.ElfHeaderStored` | corus-core/src/proc_parse.rs:358-366 | the first page of an ELF image that is listed from offset 0, readable and not excluded is in the file |
| `SnapshotFile.FilesOf` | corus-core/src/notes.rs:184-219 | the file table that a reader finds has, in order, one row for each segment of a file-backed mapping: its range, the mapping's offset in pages and its name |
| `DumpNotes.NotesOfDump` | corus-core/src/elfcore.rs:88-128 | a reader that knows note types, sizes and offsets by their numbers finds process information, user area, threads with the main one first, auxiliary vector and the caller's notes, in this order; what follows is the file table |
| `DumpNotes.AuxvNoteIff` | corus-core/src/elfcore.rs:118-121 | apart from the caller's notes there is a note with an auxiliary vector if and only if that is not empty, in its place |
| `DumpNotes.FileTableRows` | corus-core/src/notes.rs:163-214 | the rows are exactly the file-backed mappings, in order, with start, end, offset divided by the page size (`Bytes.QuotRemIsDivMod`), and name |
| `DumpNotes.FileNotesHold` | corus-core/src/notes.rs:184-219 | reading the NT_FILE note gives back page size and rows, and there is no such note if there are no rows |
| `DumpNotes.PageSizeIs` | corus-core/src/dump.rs:416-423 | the page size is the value of the first entry of type 6 if that is a power of two, and 4096 otherwise |
| `DumpNotes.PageSizeWithoutEntry` | corus-core/src/dump.rs:416-423 | and 4096 if there is no such entry |
| `ListerProgram.ListerThread.Run` | corus-core/src/threads.rs:300-463 | the lister as a program, among siblings that spawn, write and exit and a child that does as it likes: it terminates, each execution is a run of the transition system, its exit code is 0, 1 or 3 and nobody is left stopped; unless the scan failed the code is 0 if and only if the parent is in the array of recorded threads |
| `ListerProgram.ListerThread.ScanAll` | corus-core/src/threads.rs:367-426 | the multi-pass scan ends, by the free room in the list, in an empty pass or in a failure with its errno |
| `ListerProgram.ListerThread.ScanPass` | corus-core/src/threads.rs:367-422 | one pass: the list grows by exactly `added`, and the errno of a directory error or overflow is the one reported |
| `ListerProgram.ListerThread.WalkEntries` | corus-core/src/threads.rs:383-420 | one buffer of directory entries |
| `ListerProgram.ListerThread.Examine` | corus-core/src/threads.rs:388-415 | one entry: skipped, attached and recorded, or refused with ENOMEM when the list is full |
| `ListerProgram.ListerThread.AttachAndVerify` | corus-core/src/threads.rs:556-609 | attaches and verifies the entry at hand, or leaves it detached; a thread of another memory never passes, and one of the lister's passes unless a call fails or it is no longer there to stop |
| `ListerProgram.ListerThread.Verify` | corus-core/src/threads.rs:561-608 | the wait and both peeks must succeed, and any failure detaches the thread again; because the word changes between the peeks, only a thread that shares it can pass |
| `ListerProgram.ListerThread.RecordAndPublish` | corus-core/src/threads.rs:404-413 | array, count and crash list grow by the thread, in that order; the flag is set if and only if the parent is in the array |
| `ListerProgram.ListerThread.ResumeAll` | corus-core/src/threads.rs:271-279 | detaches the whole list in order; afterwards nobody is stopped |
| `ListerProgram.ListerThread.CallUser` | corus-core/src/dump.rs:312-320 | the user's callback may write any memory before the capture point, or call the dump off |
| `ListerProgram.ListerThread.Capture` | corus-core/src/dump.rs:312-378 | the user's callback, then the registers of the first 512 threads; stops at the first failure |
| `ListerProgram.ListerThread.DumpCallback` | corus-core/src/dump.rs:680-747 | capture, then fork and publish the child, or write in-line; if every call succeeds, with a child exactly when the caller asked for a snapshot |
| `ListerProgram.ListerThread.Finish` | corus-core/src/threads.rs:428-462 | exit code 0 if and only if the parent is in the array of recorded threads, else 3 |
| `Notes.AlignNote` | corus-core/src/notes.rs:30-32 | the least multiple of four not below its argument |
| `Notes.NotesRoundTrip` | corus-core/src/notes.rs:65-158 | parsing the concatenated notes, which insists on zero padding, gives back exactly the list, for all notes whose fields fit 32 bits |
| `NoteReader.ThreadReadsBack` | corus-core/src/elfcore.rs:98-117 | a thread's pid, registers and FP registers are recovered from its two notes, and all else in the first is zero |
| `NoteReader.UserReadsBack` | corus-core/src/dump.rs:455-463 | a user area decodes to integer registers, a valid flag of 1 and FP registers, with zeros after them |
| `NoteReader.AuxvReadsBack` | corus-core/src/notes.rs:147-157 | for every auxiliary vector the descriptor decodes to it, entry by entry, type before value, with nothing left over |
| `NoteReader.MainFirstIsRotation` | corus-core/src/elfcore.rs:96-117 | each thread is dumped exactly once, the main one first, the others in capture order |
| `NoteReader.FileDescRoundTrip` | corus-core/src/notes.rs:184-219 | the NT_FILE descriptor decodes to the page size, the triples and the NUL-free names it was built from, with nothing left over |
| `NoteWriter.WriteCoreNote` | corus-core/src/notes.rs:65-76 | emits exactly the bytes of the note as the next part of the section, or stops inside the limit |
| `NoteWriter.WriteExtraNote` | corus-core/src/notes.rs:122-141 | the same for a note with its own name |
| `NoteWriter.NtFileSizes` | corus-core/src/notes.rs:163-177 | the number of file-backed mappings and the length of their descriptor |
| `NoteWriter.WriteNtFile` | corus-core/src/notes.rs:184-219 | emits the NT_FILE note of the file-backed mappings, or nothing when there are none |
| `NoteWriter.WriteThreads` | corus-core/src/elfcore.rs:96-117 | emits the thread notes, main thread first |
| `NoteWriter.WriteNotes` | corus-core/src/elfcore.rs:88-128 | emits exactly the section `Section(inp)` |
| `NoteWriter.SectionLength` | corus-core/src/elfcore.rs:268-291 | the length of the section from counts alone |
| `NoteWriter.NoteSectionSizeFor` | corus-core/src/elfcore.rs:268-291 | computes from counts the length of the section of every input with those counts, mappings and notes |
| `CoreFile.ImageLength` | corus-core/src/elfcore.rs:160-191 | headers end where the first segment is declared, and the file is as long as headers and stored sizes together, whatever the segments hold |
| `RoundTrip.CoreRoundTrip` | corus-core/src/elfcore.rs:143-251 | whatever bytes the segments hold, the gABI reader recovers from the file the PT_NOTE header, the exact note list, every PT_LOAD header and each segment's bytes at its declared offset, with nothing left over (but for the padding when there is no segment) |
| `RoundTrip.GapIsZero` | corus-core/src/elfcore.rs:170-204 | between the notes and the first segment there is nothing but zeros |
| `RoundTrip.HeaderReadsBack` | corus-core/src/elfcore.rs:150-156 | all fourteen fields of the file header are those of an x86_64 core with the program headers right behind it and no sections, by their numbers; the header count modulo 65536 |
| `RoundTrip.HeaderCountNeedsSixteenBits` | corus-core/src/elfcore.rs:152-154 | a reader sees the true number of headers if and only if it is below 65536 |
| `CoreWriter.FillChunk` | corus-core/src/elfcore.rs:209-243 | for every pipe capacity of at least 4096, every legal schedule of short reads and faults, and memory that changes inside its owned part between probes, the buffer ends up, outside that part, with the memory byte where the page is readable and zero elsewhere |
| `CoreWriter.CopySome` | corus-core/src/elfcore.rs:213-243 | one probe: progress, or a step over the unreadable rest of a page |
| `CoreWriter.WriteSegment` | corus-core/src/elfcore.rs:206-248 | emits exactly `writeSize` bytes, which outside the owned part are the pointwise image of the segment |
| `CoreWriter.WritePadding` | corus-core/src/elfcore.rs:194-204 | emits the page gap as zeros |
| `CoreWriter.WriteLoadPhdrs` | corus-core/src/elfcore.rs:177-191 | emits one header per mapping with the running offset |
| `CoreWriter.PlanLayout` | corus-core/src/elfcore.rs:151-175 | the offsets computed before writing are those of the layout |
| `CoreWriter.CreateElfCore` | corus-core/src/elfcore.rs:143-251 | the output is the core whose segments depict memory outside its owned part, which may change all the while: all of it on success, a prefix within the limit otherwise; with a reliable file and pipe only the limit can stop it; a failure names the part of the file in which the output ended |
| `Output.CWrite` | corus-core/src/io.rs:131-148 | short and interrupted writes are retried; a count means exactly that prefix, an error a proper prefix |
| `Output.Writer.Write` | corus-core/src/io.rs:188-229 | lets through no more than the limit and accounts for it |
| `Output.Writer.WriteFull` | corus-core/src/io.rs:161-174 | success means all bytes arrived; a short write is reported with what was asked for and what arrived |
| `Output.Writer.Append` | corus-core/src/io.rs:161-174 | the same as the next piece of a larger output |
| `Output.SuccessIsExactPrefix` | corus-core/src/dump.rs:644-666 | an output judged successful, at its end or at the limit, is exactly the stream cut to the limit |
| `Output.ContractAllowsOverrun` | corus-core/src/io.rs:210-225 | the contract of a write after a failed one does not exclude an overrun, by a concrete case |
| `Limiter.TrimTotal` | corus-core/src/dump.rs:511-533 | the limited total is the old one if that fits, else the larger of limit and header; no size grows |
| `Limiter.TrimLargestFirst` | corus-core/src/dump.rs:511-533 | when a segment is trimmed, every larger one, and every equal one before it, is zero |
| `Limiter.OnePartial` | corus-core/src/dump.rs:522-529 | at most one segment is partly trimmed |
| `Limiter.TrimIsOnlyAnswer` | corus-core/src/dump.rs:507-510 | total, order and no growth determine the sizes uniquely |
| `Limiter.Scan` | corus-core/src/dump.rs:513-520 | one scan finds the total and the first largest segment |
| `Limiter.Round` | corus-core/src/dump.rs:512-531 | one turn of the loop shrinks the total or is the last, and keeps the final answer |
| `Limiter.ApplyPriorityLimit` | corus-core/src/dump.rs:511-533 | terminates and leaves the mappings with exactly the trimmed sizes, in place, and the rest of the array alone |
| `Serialize.EstimateHeaderSize` | corus-core/src/dump.rs:491-505 | equals the end offset of the note segment, for every input with these counts |
| `Serialize.ChooseMappings` | corus-core/src/dump.rs:437-451 | the mappings stored are those finalization kept, cut down by priority when asked |
| `Serialize.SerializeDump` | corus-core/src/dump.rs:405-477 | the output is the stream of a dump of memory, whatever the scan pipe does; a listing or pipe failure is reported and leaves no output; a failure of the assembler names the part of the file in which the output ended |
| `Serialize.RunSerialize` | corus-core/src/dump.rs:644-666 | for every write schedule and scan outcome the file never grows by more than the limit, success means it grew by exactly the first `limit` bytes of the stream, as many as the untrimmed dump has or the limit allows, and without errors it succeeds; the error is that of the listing, the pipe or the part of the file that could not be written |
| `Serialize.PriorityLimitedLength` | corus-core/src/dump.rs:479-533 | trimming to a limit leaves min(limit, length) as it was, and when headers and notes fit, less than one page of what is declared is cut off |
| `Serialize.LimitedStreamLength` | corus-core/src/dump.rs:441-451 | the same for whole dumps: length min(limit, untrimmed length) with and without priority, and less than one page of what is declared missing when headers and notes fit |
| `Serialize.LimitedOffsets` | corus-core/src/elfcore.rs:160-175 | trimming moves neither the note section nor the first segment |
| `Serialize.StoredFit` | corus-core/src/elfcore.rs:135-138 | whatever became of the listed mappings, the assembler's demand that every stored size fits its range is met |
| `Alignment.UntrimmedCongruent` | corus-core/src/elfcore.rs:170-189 | without trimming every segment has file offset and address congruent modulo the page size |
| `Alignment.TrimmedCongruent` | corus-core/src/dump.rs:511-533 | after trimming a segment is congruent if and only if nothing or everything had to go, or the bytes the limit leaves for segments are whole pages, or the bytes to give up (largest first) are used up at this segment or a later one; the condition is on sizes, limit and header |
| `Alignment.TrimShape` | corus-core/src/dump.rs:511-533 | trimming ends in exactly one segment, which sizes and limit determine: those before it in order are gone, those after it whole |
| `Alignment.TrimmingMisaligns` | corus-core/src/dump.rs:511-533 | two segments and a limit for which the second is not congruent |
| `Alignment.CongruentIff` | corus-core/src/elfcore.rs:170-189 | congruent if and only if the sizes before it add up to whole pages |
| `Alignment.KeptAligned` | corus-core/src/proc_parse.rs:350-366 | finalized mappings start on pages and store whole pages |
| `Probe.CRead` | corus-core/src/io.rs:110-120 | a read that never reports an interruption |
| `Probe.ClearProbeSlots` | corus-core/src/io.rs:371-392 | empties the pipe without blocking and restores its flags |
| `Probe.ReadMemory` | corus-core/src/io.rs:332-365 | through an idle pipe: copies the readable prefix; after every Ok and every EFAULT the pipe is empty, without leftover slots and with its own flags; EFAULT or a short count only if a page is unreadable |
| `Probe.LeadIsLongest` | corus-core/src/io.rs:394-396 | the lead is the longest prefix of whole pages that are all zero or unreadable |
| `Probe.LongestLeadUnique` | corus-core/src/io.rs:394-396 | and it is determined by that |
| `Probe.LeadingZeros` | corus-core/src/io.rs:410-443 | returns exactly the lead of a range outside the owned part when only EFAULT occurs; passes no page outside the owned part that is neither zero nor unreadable, even in a range owned in part; in any case, even through a disordered pipe, whole pages and never past the end |
| `Probe.LeadAgrees` | corus-core/src/io.rs:410-443 | memories that agree outside the owned part have the same lead there |
| `MapsText.ParserInvertsPrinter` | corus-core/src/proc_parse.rs:188-290 | for every list of printed lines (64-bit fields, any padding, paths without newline or leading space) parsing gives back the mappings up to the capacity, names cut to 255 bytes and then trimmed |
| `MapsText.ParsedSaysPrinted` | corus-core/src/proc_parse.rs:188-303 | field by field, for every list of printed lines: start, end and offset as printed; the bits for read, write and execute; the name is the longest prefix of the first 255 bytes of the path that does not end in a space; a device if and only if that is `/dev/` and something other than `zero`; anonymous if and only if it is empty or begins with a bracket |
| `MapsText.ParsedAreMarked` | corus-core/src/proc_parse.rs:274-303 | of any text that parses: what is a device and what is anonymous is decided by the name in this way |
| `MapsText.LongestNameUnique` | corus-core/src/proc_parse.rs:255-274 | only one name is that prefix |
| `MapsText.NibbleMeans` | corus-core/src/io.rs:306-313 | a character is a digit if and only if it is in the hex alphabet of either case, with its position as value |
| `MapsText.HeadAcceptedIff` | corus-core/src/proc_parse.rs:205-240 | the kept columns of a line are accepted if and only if they have the shape number, dash, number, space, column, space, number, space; the numbers are those of the text modulo 2^64 |
| `MapsText.ScanPrinted` | corus-core/src/io.rs:294-316 | a printed 64-bit number is read back whole, whatever its zero padding |
| `MapsText.PrintedLineReadsBack` | corus-core/src/proc_parse.rs:200-281 | one printed line gives its mapping and leaves the text after it |
| `MapsText.PrintedLineSays` | corus-core/src/proc_parse.rs:200-303 | and that mapping says field by field what the line says |
| `MapsReader.Io.GetChar` | corus-core/src/io.rs:258-278 | hands out the text byte by byte for every split into reads |
| `MapsReader.Io.GetHexFrom` | corus-core/src/io.rs:294-316 | the wrapped 64-bit value and the terminator |
| `MapsReader.Io.GetPerms` | corus-core/src/proc_parse.rs:219-230 | the permission bits, or a failure at the end of the text |
| `MapsReader.Io.GetName` | corus-core/src/proc_parse.rs:255-276 | the rest of the line, cut and trimmed |
| `MapsReader.Io.GetLine` | corus-core/src/proc_parse.rs:206-281 | one line, exactly as the functional parser reads it |
| `MapsReader.ParseSelfMaps` | corus-core/src/proc_parse.rs:188-290 | fills the array with exactly what the functional parser makes of the text, or reports its error, for every split into reads |
| `Mappings.ElfBitsKeepRights` | corus-core/src/proc_parse.rs:72-84 | the conversion to ELF bits keeps read, write and execute and drops the private bit |
| `Mappings.FinalizeOne` | corus-core/src/proc_parse.rs:340-366 | one mapping: dropped, or advanced by whole pages and given its stored size; by exactly its leading zero pages if it lies outside the owned part and the scan is exact |
| `Mappings.Compact` | corus-core/src/proc_parse.rs:338-371 | in place, the front of the array becomes the kept mappings in order |
| `Mappings.FinalizeMappings` | corus-core/src/proc_parse.rs:327-373 | the same for the enriched input, for every scan pipe, and the rest of the array is untouched |
| `Mappings.KeptByIndex` | corus-core/src/proc_parse.rs:338-371 | the result is the order-preserving filter-map of what became of each mapping: increasing source indices, nothing kept missing |
| `Mappings.ExactIsFilterMap` | corus-core/src/proc_parse.rs:338-371 | with nothing owned and an exact scan what becomes of each mapping is determined by memory |
| `Mappings.FinalizedMeetsRule` | corus-core/src/proc_parse.rs:338-371 | seen as memory is, a listed mapping is dropped if and only if it is a device, excluded, unreadable or empty of content; and otherwise kept from its first page with content on, with its end, offset, name and access rights, storing everything if it is anonymous, written to or writable, the first page if it is listed from offset 0 and those four bytes are 7f 45 4c 46, and nothing otherwise |
| `Mappings.RuleIsOnlyAnswer` | corus-core/src/proc_parse.rs:338-371 | this rule leaves no freedom |
| `Mappings.PossibleKeepsFields` | corus-core/src/proc_parse.rs:340-366 | however memory is misread, whatever is kept has those fields, and the size as far as it does not depend on the bytes found |
| `Mappings.KeptInOrder` | corus-core/src/proc_parse.rs:350-366 | ranges stay sorted and disjoint, and every stored size is whole pages and fits its range, for every scan |
| `Mappings.KeptIsTail` | corus-core/src/proc_parse.rs:350-366 | a kept mapping is a non-empty tail of whole pages and stores no more than it covers, for every scan |
| `Mappings.KeptStartsFull` | corus-core/src/proc_parse.rs:350-356 | kept as it should be, it starts with a page that is neither zero nor unreadable |
| `Mappings.PageKept` | corus-core/src/proc_parse.rs:350-366 | a page outside the owned part that is neither zero nor unreadable lies in the stored part of its mapping, if that is one to store in full |
| `Mappings.FinalizedAgrees` | corus-core/src/proc_parse.rs:340-366 | memories that agree outside the owned part finalize a mapping outside it alike |
| `Mappings.DroppedIff` | corus-core/src/proc_parse.rs:344-356 | a mapping is dropped if and only if it is a device, excluded, unreadable, or made of zero and unreadable pages only |
| `Bytes.WordRoundTrip` | corus-core/src/elfcore.rs:152-189 | a stored word is read back unchanged if and only if it fits |
| `Bytes.QuotRemIsDivMod` | corus-core/src/elfcore.rs:170-173 | the subtraction forms of quotient and remainder used for page arithmetic are division and remainder |

## Left out

- `Serialize.RunSerialize`: the page size must not exceed the 4096-byte scratch buffer, as on x86_64, and mappings are whole pages, as the zero-page scan demands of its caller; otherwise the code would index out of range.
- `Serialize.SerializeDump`: as `Serialize.RunSerialize`.
- `Serialize.ChooseMappings`: as `Serialize.RunSerialize`.
- `Probe.ReadMemory`: through a pipe that an earlier error left in disorder it promises no more than a count within bounds; a write that such a pipe would block on forever is not modelled.
- `EndToEnd.SuccessMeansFrozenProcess`: that the serializer's verdict in the protocol is the one `RunSerialize` returns is a premise; the two run in different programs here.
- `SnapshotFile.DumpShowsFrozenProcess`: assumes a scan pipe without errors other than EFAULT, a sorted listing, and sizes that fit their words; file and segment pipe may behave in any way that lets the dump complete.
- `ListerProgram.ListerThread.AttachAndVerify`: which threads share the lister's memory is fixed for a dump; a thread that dies between attach and stop, and the whole process being killed, are not modelled.
- `ListerProgram.ListerThread.CallUser`: the user's callback is a write to memory and a verdict; it starts no threads.
- `ListerSafety.CrashSafety`: counts only what the crash handler does to each thread; that the kernel detaches tracees of a tracer that exits is not used, nor that killing one thread this way ends its whole thread group, so that after SIGABRT the unpublished thread does not live on. The handler's loop is one step.
- `ListerSafety.ScanFixpoint`: that the task directory lists every thread that lives through a whole pass is a premise about the kernel, built into the end of a pass, so it holds in every run considered here.
- `Mappings.FinalizeOne`: the look at the first bytes of a mapping (corus-core/src/proc_parse.rs:377-386) is a plain read. After a scan that broke with an error other than EFAULT it could hit an unreadable page and fault, which is not modelled.
- `RoundTrip.CoreRoundTrip`: assumes a file shorter than 2^64 bytes.
- `SnapshotFile.FilesOf`: assumes that no listed name has a NUL in it, which no path can have.
- More than 512 captured threads: the core shows the first 512 recorded; statements are about those.
- aarch64: payload sizes, register layout and the machine number are those of x86_64.
- MAP_SHARED, MADV_DONTFORK and MADV_WIPEONFORK memory: the snapshot theorems are about private memory.
- The smaps parser: `dontdump` and `has_anon_pages` are a function of the start address given from outside.
- PRPSINFO, auxv and FP registers: where their contents come from; they are payloads of the right size. Which thread is "main" is a parameter.
- NT_FILE offsets after leading zero pages are skipped: the start moves and the offset does not, so that a row gives the offset of the mapping and not of its stored part; no more is claimed.
- Setting up the lister (stack mapping, clone, signal masks, the dumpable flag) and the paths on which that fails before the lister exists; the marker-inode test is one bit of kernel answer.
- `DumpError` details and their errno mapping for the C interface, beyond the stage that failed.
- `SimpleWriter` and `LimitWriter` are one class with an optional limit.
- The C interface, compression, `sanitize_vdso`, `count_auxv` and the system call layer.
