# Verification of the radio link tools and the hostap port

A Dafny model of the repository's hardest code, with proofs. `dafny verify dfyconfig.toml` checks it.

Code that changes state is modelled in place: methods over byte arrays, a linked list edited through a
cursor, context fields, counters. Each such method is proved against a function of the old state, and the
properties are then proved about that function, over all inputs and over all runs. The main operations have,
beside them, a statement of its result in the words of its input and output alone, constants written as
numbers: what a word of the file becomes, when a timer is due, which path a retry takes. Machine integers
are mathematical integers whose width and wrap-around are written out.

1. **Relocation normalizer** (`Bytes`, `Branchi`, `ElfObject`, `ObjectTables`, `Normalizer*`, `PatchLane`,
   `FinalLink`, `LinkMeaning`, `Archive*`, `Inspector*`, `ExampleObject`). The Rust lane rewrites vendor
   relocations of ELF32 objects inside ar archives. The Python patch lane, given the final layout by section
   name, writes the vendor relocations' values. A stock linker, which knows only R_RISCV_32 and
   R_RISCV_NONE, places sections by identity. The main result, `LinkMeaning.SameLinkedBytes`, says for every
   layout and link when both lanes' objects link to the same bytes: exactly when the lane found the linker's
   address at every 48-bit load. `WellFormed` states what an object must satisfy: relocation entries,
   relocated words and the tables that are read do not overlap; `NormalizerExample` gives an object that
   meets it. `NormalizerExact.NormalizesExactly` says for every such object whether it normalizes, from its
   words alone. The other results are the exact frame and counts, the normal form, idempotence, the tiling
   that makes the members of an archive independent and lets it be normalized again, the archive read back
   as it was written, and the exact records of the inspection.
2. **Event loop and recovery** (`TimerQueue`, `TimerTheorems`, `NoStarvation`, `EventLoop`, `Recovery`,
   `ContextTimers`, `Supplicant`, `SupplicantRun`, `JointRun`, `EventRing`, `Deadlines`, `RecoveryPaths`,
   `RecoveryTimes`, `Observations`). The linked timer list refines a queue that stays stably sorted while
   handlers edit it; a timer is due at the time asked for, never runs before it, and is never starved after
   it; recovery is never doubled, goes by the path its inputs call for, and is lost or delayed only by a
   refused registration; over their whole joint life, the loop performs a pending recovery when its timer is
   due; the event ring accounts for every event, and every change of state for its event. In the results
   about the loop, handlers are arbitrary: what the n-th handler call does is a parameter. In those about a
   context's recovery, its own callbacks do what their code does, and everything else, hostap inside those
   callbacks included, does what it likes to the loop except to this context's timers. Upstream hostap is
   what the code reads from it and what it does to the loop, parameters of each call, and what the code
   makes it do, a recorded trace.
3. **ROM patch table** (`RomPatch`, `RomTable`). Encoding long jumps directly and leaving them to the linker
   give the same image exactly when every replacement address is even, and each jump lands on its
   replacement.
4. **Rooted closure** (`RootedClosure`). The worklist terminates with a justified, closed selection.
5. **Freestanding C runtime** (`Printer`, `Formatter`, `Directives`, `Parsers`, `NumeralWriter`,
   `PrintParse`, `ByteSort`). Bounded formatting truncates unbounded formatting, every directive is read as
   it was written, parsers clamp exact values of numerals in every base and undo the printer, and the
   byte-level sort is the stable sort.
6. **Scan filter and driver lifetime** (`ScanFilter`, `DriverLifetime`). The filter's two passes agree; the
   reference count is the number of live handles.

## Where the code falls short of a promise

Each of these keeps the code as it is, names an input, and gives the exact condition.

- The patch lane keeps one address per section name, that of the last line in the link map. For an object
  with two sections of one name, a 48-bit load of the other one gets the wrong immediate; the normalizer's
  lane does not (`LinkMeaning.SameLinkedBytes`, `NormalizerExample.OrderOfLinesDecides`).
- The normalizer does not check that a relocation table lies in the file and does not know types above 61,
  so the inspection of its output can still fail or find something (`Inspector.NoVendorRelocationLeft`,
  `InspectorExample.FarTableExample`, `InspectorExample.UnknownTypeExample`).
- The two ROM patch lanes differ for an odd replacement address: the linker adds its low bit, the direct
  encoder clears it (`RomTable.LanesAgree`, `RomTable.OddReplacementExample`).
- `vsnprintf` counts in 32 bits. Past 2^32 characters it can return a length that is neither right nor an
  error, and leave in the buffer something other than the front of the text (`PrintParse.ReturnedExactly`,
  `Printer.TruncatedExactly`, `PrintParse.WrappedCount`, `PrintParse.WrappedBuffer`).
- `strtol` ends `0xg` at its start, where ISO C ends it after the zero (`Parsers.AgreesWithStandard`).
- Cancel-one reports a wrong time left from 2^31 seconds on, and when its clock read fails, which it takes
  for time zero (`TimerTheorems.RemainingExact`, `TimerTheorems.LongWaitExample`,
  `TimerTheorems.FailingClockExample`).
- A pending recovery whose timer registration is refused stays without a timer until a later registration on
  its behalf is granted, if one comes (`Recovery.HeldExactly`, `Recovery.RefusedThenAnswered`).
- The test in the closure for a member selected before never succeeds, and neither does the uninstall's test
  for an active endpoint when the count is zero (`RootedClosure.NotYetPicked`, `DriverLifetime.EveryRun`).

## Model

| member | source | states |
|---|---|---|
| Branchi.EncodersAgree | crates/hisi-rf-link/python/patch-reloc.py:84-94 | the Rust and the Python encoder accept the same words and displacements and give the same word |
| Branchi.DecodeEncode | crates/hisi-rf-link/src/normalize.rs:447-462 | exactly the even displacements from -512 to 510 are accepted, and a sign-extending decoder returns the displacement |
| Branchi.ImmediatePlaces | crates/hisi-rf-link/src/normalize.rs:447-462 | displacement bits 1 to 5 go to bits 7 to 11 of the word and bits 6 to 9 to its bits 20 to 23; every other bit of the word is kept |
| Branchi.EncodeDecode | crates/hisi-rf-link/src/normalize.rs:447-462 | encoding the displacement a word already holds leaves the word as it is |
| Branchi.LastEncodingWins | crates/hisi-rf-link/src/normalize.rs:447-462 | encoding twice is encoding the second displacement only |
| Branchi.ImmediateAndRestDetermine | crates/hisi-rf-link/src/normalize.rs:447-462 | a word is determined by its displacement and its bits outside the mask 0x00f00f80 |
| ElfObject.ReadHeaders | crates/hisi-rf-link/src/normalize.rs:277-297 | the header loop reads exactly the table that the header fields describe, or fails at the first header outside the file |
| ElfObject.ParseSections | crates/hisi-rf-link/src/normalize.rs:255-319 | the loops of the section parser refine the section list as a function of the file |
| ElfObject.ParseSymbols | crates/hisi-rf-link/src/normalize.rs:321-354 | the loop of the symbol parser refines the symbol list as a function of the file |
| ElfObject.SectionsLocal | crates/hisi-rf-link/src/normalize.rs:255-319 | files that agree on the header, the section table and its names have the same sections |
| ElfObject.SymbolsLocal | crates/hisi-rf-link/src/normalize.rs:321-354 | files that agree on a symbol table and its strings have the same symbols |
| ObjectTables.SectionsRead | crates/hisi-rf-link/src/normalize.rs:255-319 | the section parser succeeds exactly on 32-bit little-endian ELF files whose headers, of at least 40 bytes, and names lie in the file; each section has the fields at their places in its header, and the name that begins where its header says |
| ObjectTables.SymbolsRead | crates/hisi-rf-link/src/normalize.rs:321-354 | the symbol parser succeeds exactly on tables of type 2 whose entries, of at least 16 bytes, and names lie in the file; each symbol has the fields at their places in its entry, and its name |
| Normalizer.PutU32 | crates/hisi-rf-link/src/normalize.rs:235-239 | a word store changes its four bytes in the window and nothing else, or fails and changes nothing |
| Normalizer.RewriteEntry | crates/hisi-rf-link/src/normalize.rs:522-610 | one entry of the rewriting loop: in place, exactly the change or the error that the entry stands for |
| Normalizer.ScanBranchi | crates/hisi-rf-link/src/normalize.rs:471-493 | the first pass collects the target sections of all BRANCHI entries |
| Normalizer.RewriteTable | crates/hisi-rf-link/src/normalize.rs:500-612 | the inner loop is the fold of its entries over one table |
| Normalizer.NormalizeObject | crates/hisi-rf-link/src/normalize.rs:464-614 | the whole pass in place over a window of a buffer: the bytes and counts of the specification, errors included, and nothing outside the window |
| NormalizerFacts.EditsSeparate | crates/hisi-rf-link/src/normalize.rs:494-613 | on objects whose entries and sites do not overlap, no entry stores where another reads or stores |
| NormalizerFacts.ChangeLocal | crates/hisi-rf-link/src/normalize.rs:522-610 | an entry does the same whether it is reached before or after any other entries were rewritten |
| NormalizerFacts.TablesClosed | crates/hisi-rf-link/src/normalize.rs:494-613 | the whole in-place pass equals the simultaneous application of every entry's own change to the original |
| NormalizerTheorems.BranchiExact | crates/hisi-rf-link/src/normalize.rs:471-493 | a section is in the first pass's set if and only if some RELA table has a BRANCHI into it |
| NormalizerTheorems.EntryAfter | crates/hisi-rf-link/src/normalize.rs:530-610 | every entry of the output, word by word, in terms of the input entry |
| NormalizerTheorems.BranchAfter | crates/hisi-rf-link/src/normalize.rs:548-579 | every BRANCHI word of the output decodes to symbol value plus addend minus offset, and the symbol is in the relocated section |
| NormalizerTheorems.CountsExact | crates/hisi-rf-link/src/normalize.rs:494-613 | each of the four counts is the number of entries of that kind |
| NormalizerTheorems.Frame | crates/hisi-rf-link/src/normalize.rs:464-614 | a changed byte is in the offset word of a 48-bit load, the type byte of a converted entry, or the word of a BRANCHI |
| NormalizerTheorems.BranchKeepsOtherBits | crates/hisi-rf-link/src/normalize.rs:447-462 | a BRANCHI word keeps all bits outside its immediate |
| NormalizerTheorems.NormalForm | crates/hisi-rf-link/src/normalize.rs:530-610 | no type 58 to 61 is left; RELAX survives exactly in sections without BRANCHI; symbols and addends are kept |
| NormalizerTheorems.TablesKept | crates/hisi-rf-link/src/normalize.rs:255-354 | sections and symbol tables read the same after normalization |
| NormalizerTheorems.Idempotent | crates/hisi-rf-link/src/normalize.rs:464-614 | a second normalization succeeds, changes nothing and counts nothing |
| NormalizerExact.SlotsExact | crates/hisi-rf-link/src/normalize.rs:494-532 | the entries the passes visit are exactly those of the sections of type 4, table by table, each entry size after the other, 12 bytes where the header says 0 |
| NormalizerExact.NormalizesExactly | crates/hisi-rf-link/src/normalize.rs:464-614 | main result: a well-formed object normalizes if and only if its relocation tables can be read and every entry meets a condition on its own words, by its type: for 58, six bytes that lie in the section and in 32 bits; for 59, a known symbol of the relocated section, the word in the file and an even displacement from -512 to 510; for 61, symbol 0, addend 0 and six bytes in the section; for 60, never; for all others, always |
| NormalizerExact.WordsAfter | crates/hisi-rf-link/src/normalize.rs:530-610 | every entry of the output, word by word and by type number: the offset moves by two for 58 only; 58 becomes 1, 59 and 61 become 0, 51 becomes 0 where the section has a branch; symbol and addend stay |
| NormalizerExact.CountsByType | crates/hisi-rf-link/src/normalize.rs:494-613 | the four counts are the numbers of entries of type 58, 59, 51 in a section with a branch, and 61 |
| PatchLane.PatchEntry | crates/hisi-rf-link/python/patch-reloc.py:345-487 | one entry of the patching loop in place: value, neutralized type, or the counter that is raised |
| PatchLane.PatchObject | crates/hisi-rf-link/python/patch-reloc.py:319-489 | the patch-mode loops over the object refine the lane as a function of object and layout |
| PatchLane.PatchClosed | crates/hisi-rf-link/python/patch-reloc.py:337-489 | when the lane resolves everything, it applies every entry's own step to the original at once |
| LinkMeaning.BasesCancel | crates/hisi-rf-link/python/patch-reloc.py:393-394 | in a branch to a symbol of its own section both section bases cancel, leaving what the normalizer encodes |
| FinalLink.LastLineWins | crates/hisi-rf-link/python/patch-reloc.py:216-238 | the base the lane has for a section name is that of the last map line with the name, lines of address or size zero dropped |
| FinalLink.AddressAgrees | crates/hisi-rf-link/python/patch-reloc.py:276-289 | when section names are distinct, the lane finds the address the linker gave a symbol that the map or the final symbol table tells |
| LinkMeaning.Llui48Words | crates/hisi-rf-link/src/normalize.rs:531-547 | at a 48-bit load the normalized object links to the linker's S + A, and the patch lane wrote its own address plus A, modulo 2^32 |
| LinkMeaning.BranchAgrees | crates/hisi-rf-link/src/normalize.rs:548-579 | a BRANCHI: the word encoded before the link is the word the patch lane encodes after it, whatever layout it read and however the object is linked |
| LinkMeaning.SameLinkedBytes | crates/hisi-rf-link/src/normalize.rs:464-614 | main result: for every layout the lane was given and every link with sections placed by index, linking the normalized object gives the bytes of linking the patched object, outside relocation entries and debug targets, if and only if at every 48-bit load the lane has the linker's address modulo 2^32 |
| LinkMeaning.DistinctNamesSuffice | crates/hisi-rf-link/python/patch-reloc.py:216-289 | with distinct section names and symbols that the map or the final symbol table tells, the layout read back from the link gives those same bytes |
| NormalizerExample.AssumptionsHold | crates/hisi-rf-link/src/normalize.rs:464-614 | a concrete object with a 48-bit load and a branch meets every assumption of the main result: well formed, normalized, and patched for any base |
| NormalizerExample.OrderOfLinesDecides | crates/hisi-rf-link/python/patch-reloc.py:225-238 | an object with two sections of one name: the lanes give the same linked bytes when the load's section is listed last in the link map, and different ones when the other is |
| LinkMeaning.SameRemainingEntries | crates/hisi-rf-link/src/normalize.rs:609-610 | relocations that neither lane declares reach the linker unchanged in both |
| LinkMeaning.PatchCountsExact | crates/hisi-rf-link/python/patch-reloc.py:332-489 | when the lane resolves everything, its counts are the numbers of entries by type: values for 58 and 59 outside debug sections, neutralized entries for these, for 61, and for all that a debug section holds |
| Archive.ArchiveMembers | crates/hisi-rf-link/src/normalize.rs:648-675 | the walk refines the member list as a function of the archive |
| Archive.WalkIsTiling | crates/hisi-rf-link/src/normalize.rs:655-673 | each header is at an even offset, its decimal size is the member's length, and the next header follows rounded up to even, with no gap |
| Archive.MembersOrdered | crates/hisi-rf-link/src/normalize.rs:655-673 | members are in order, disjoint and at least a header apart |
| Archive.LengthKept | crates/hisi-rf-link/src/normalize.rs:464-614 | normalizing keeps the object's length |
| Archive.NormalizeArchive | crates/hisi-rf-link/src/normalize.rs:802-829 | the member loop in place over the whole archive refines the archive pass |
| Archive.ArchiveByMember | crates/hisi-rf-link/src/normalize.rs:819-829 | every ELF member becomes its own normalization, all other bytes are kept, and the counts are the sums |
| ArchiveTheorems.WalkKept | crates/hisi-rf-link/src/normalize.rs:648-675 | rewriting members disturbs no bounds: the walk over the normalized archive succeeds and finds every member where it was, and the same names unless a table of long names is itself an ELF object |
| ArchiveTheorems.ArchiveIdempotent | crates/hisi-rf-link/src/normalize.rs:802-829 | normalizing a normalized archive succeeds, changes nothing and counts nothing |
| ArchiveWriter.SizeRead | crates/hisi-rf-link/src/normalize.rs:616-622 | the size field of every number below 10^10, written by division by ten and padded with spaces, reads as that number |
| ArchiveWriter.ShortRead | crates/hisi-rf-link/src/normalize.rs:624-646 | a name with its slash in the header reads as that name |
| ArchiveWriter.LongRead | crates/hisi-rf-link/src/normalize.rs:624-646 | a slash and a decimal offset read as the name that stands there in the table of long names |
| ArchiveWriter.ReadWritten | crates/hisi-rf-link/src/normalize.rs:648-675 | main result: the archive written from any list of files with short or long names, decimal sizes and payloads padded to even reads as those names with those spans |
| ArchiveWriter.PayloadFound | crates/hisi-rf-link/src/normalize.rs:648-675 | in that archive the span of each member holds its file's payload |
| Inspector.InspectObject | crates/hisi-rf-link/src/normalize.rs:365-445 | the inspection loops refine the list of vendor records, section names and both flags included |
| Inspector.NoVendorRelocationLeft | crates/hisi-rf-link/src/normalize.rs:365-445 | inspecting a normalized object finds nothing if and only if every relocation table lies in the file and no type is above 61 |
| InspectorRecords.RecordsExact | crates/hisi-rf-link/src/normalize.rs:365-445 | main result: a successful inspection lists, in slot order, exactly the entries of type 58 or above, each with its own offset, type and addend, relocation and target section names, symbol name, value and section name, the same-section flag exactly when the two names are equal and the debug flag exactly when the target's name starts with .debug |
| InspectorRecords.HexExact | crates/hisi-rf-link/src/normalize.rs:356-363 | a symbol's section outside the table is shown by its index in lower-case hexadecimal without leading zeroes |
| InspectorRecords.BranchesSaySame | crates/hisi-rf-link/src/normalize.rs:439 | where a well-formed object normalizes, every branch its inspection lists says same section, unless it relocates the null section |
| InspectorExample.FarTableExample | crates/hisi-rf-link/src/normalize.rs:395-400 | an object with an empty relocation table past the end of the file: it normalizes, and its inspection fails |
| InspectorExample.UnknownTypeExample | crates/hisi-rf-link/src/normalize.rs:404-411 | an object with an entry of type 62: it normalizes, and its inspection finds that entry |
| TimerTheorems.InsertPosition | port/hostap/eloop_hisi_rtos.c:55-62 | an inserted timer goes behind every deadline that is not greater and before every greater one |
| TimerTheorems.InsertKeeps | port/hostap/eloop_hisi_rtos.c:55-62 | insertion keeps the order and every other timer |
| TimerTheorems.InsertTies | port/hostap/eloop_hisi_rtos.c:55-62 | timers of equal deadline stay in the order of their last registration or move, the inserted one behind them |
| TimerTheorems.WithoutKeeps | port/hostap/eloop_hisi_rtos.c:133-151 | cancel removes exactly the matches, and of two remaining timers the one that came first still does |
| TimerTheorems.CancelOneMeaning | port/hostap/eloop_hisi_rtos.c:153-178 | cancel-one removes the earliest match or nothing, keeps the order of the rest, and reports the time left by its one clock reading, zero if that fails |
| TimerTheorems.RemainingExact | port/hostap/eloop_hisi_rtos.c:153-178 | cancel-one tells the time left if and only if that is below 2^31 seconds and the clock read works, or fails at a time whose effect on the shown seconds is a whole number of wraps |
| TimerTheorems.FailingClockExample | port/hostap/eloop_hisi_rtos.c:157-172 | the clock read fails with two seconds left, and the deadline of five seconds is reported |
| TimerTheorems.LongWaitExample | port/hostap/eloop_hisi_rtos.c:167-172 | 2^31 seconds left are reported as a negative time |
| TimerTheorems.UpdateMeaning | port/hostap/eloop_hisi_rtos.c:191-219 | deplete and replenish give the earliest match the smaller or larger deadline, keep the order of the others, and return 1 exactly when it moves |
| TimerTheorems.RunKeepsValid | port/hostap/eloop_hisi_rtos.c:255-278 | a whole run with handlers that edit the queue keeps it sorted, ties in order, duplicate-free and accounted for |
| TimerTheorems.EveryRun | port/hostap/eloop_hisi_rtos.c:110-341 | over every sequence of calls, handlers included: registered = executed + cancelled + destroyed + pending, on a queue sorted by deadline and, among equal deadlines, by last registration or move |
| Deadlines.RegisterMeaning | port/hostap/eloop_hisi_rtos.c:110-131 | main result: a registration is granted exactly if the loop is initialized, there is a handler, the clock can be read and memory is granted; at the clock reading c it adds exactly one timer, due at c + 1000000 * seconds + microseconds, at most 2^64 - 1; a refused one changes no timer |
| Deadlines.UpdateDeadline | port/hostap/eloop_hisi_rtos.c:191-219 | deplete and replenish ask for that same time; they fail exactly without a clock reading or a fitting timer, and move the earliest that fits exactly if the time asked for is earlier, or later, than its deadline |
| Deadlines.CancelMeaning | port/hostap/eloop_hisi_rtos.c:133-151 | cancel takes away exactly the timers of the handler whose arguments are those given, -1 standing for any, and returns how many |
| Deadlines.CancelOneFits | port/hostap/eloop_hisi_rtos.c:153-178 | cancel-one takes away the first timer that fits so, and leaves the queue if none does |
| Deadlines.WokenOnChange | port/hostap/eloop_hisi_rtos.c:110-255 | a call wakes the runner exactly if it changes the queue or asks it to stop; destruction alone changes the queue without |
| Deadlines.NeverEarly | port/hostap/eloop_hisi_rtos.c:255-278 | main result: while the clock stays below its deadline, no call of the run loop executes a timer, whatever handlers do, unless one of them moves it |
| Deadlines.RegisteredNeverEarly | port/hostap/eloop_hisi_rtos.c:110-278 | so a timer registered at the clock reading c is not executed by a call in which the clock stays below c + 1000000 * seconds + microseconds |
| Deadlines.ReturnsWork | port/hostap/eloop_hisi_rtos.c:255-278 | the run loop returns the number of handlers it has executed, at most its budget |
| Deadlines.ExecutionsTell | port/hostap/eloop_hisi_rtos.c:274 | the execution counter grows by what is returned, modulo 2^32 |
| NoStarvation.DueIsPrefix | port/hostap/eloop_hisi_rtos.c:255-278 | the timers due at a moment are the front of the queue |
| NoStarvation.ApplyAllFront | port/hostap/eloop_hisi_rtos.c:110-233 | whatever a handler does, due timers it leaves alone stay in front, in order |
| NoStarvation.RunAbsent | port/hostap/eloop_hisi_rtos.c:255-278 | a timer that has left the queue never runs again |
| NoStarvation.DueTimersRunFirst | port/hostap/eloop_hisi_rtos.c:255-278 | main result: every due timer that fits the budget and is left alone runs in that call, before all others, by deadline and then in the order of registration or move |
| NoStarvation.NextDeadlineExact | port/hostap/eloop_hisi_rtos.c:280-283 | the next deadline is the earliest, and a call of the run loop runs something if and only if the clock has reached it |
| EventLoop.Eloop.Splice | port/hostap/eloop_hisi_rtos.c:60-61 | linking a node in through the cursor inserts it at the cursor's place |
| EventLoop.Eloop.Unlink | port/hostap/eloop_hisi_rtos.c:144 | unlinking through the cursor removes that node only |
| EventLoop.Eloop.InsertTimeout | port/hostap/eloop_hisi_rtos.c:55-62 | the cursor loop over the linked list is the sorted insertion |
| EventLoop.Eloop.Init | port/hostap/eloop_hisi_rtos.c:64-75 | initialization from the running task, once |
| EventLoop.Eloop.RegisterTimeout | port/hostap/eloop_hisi_rtos.c:110-131 | registration, with its clock and allocation failures, on the real list |
| EventLoop.Eloop.CancelMatches | port/hostap/eloop_hisi_rtos.c:136-147 | the unlinking loop removes all matches in one traversal and counts them |
| EventLoop.Eloop.CancelTimeout | port/hostap/eloop_hisi_rtos.c:133-151 | cancel, with the wake-up it owes |
| EventLoop.Eloop.CancelTimeoutOne | port/hostap/eloop_hisi_rtos.c:153-178 | cancel-one on the real list |
| EventLoop.Eloop.IsTimeoutRegistered | port/hostap/eloop_hisi_rtos.c:180-189 | true exactly when some node matches |
| EventLoop.Eloop.UpdateTimeout | port/hostap/eloop_hisi_rtos.c:191-219 | deplete and replenish on the real list |
| EventLoop.Eloop.Destroy | port/hostap/eloop_hisi_rtos.c:332-341 | destruction empties the list and returns to the uninitialized state |
| EventLoop.Eloop.TakeFront | port/hostap/eloop_hisi_rtos.c:268-272 | the front node is unlinked and its call handed out |
| EventLoop.Eloop.NextDeadline | port/hostap/eloop_hisi_rtos.c:280-283 | the deadline of the front node, or the largest value for an empty list |
| EventLoop.Eloop.FireFront | port/hostap/eloop_hisi_rtos.c:265-275 | the front node is unlinked before its handler runs, and the handler may edit the list |
| EventLoop.Eloop.RunOnceNow | port/hostap/eloop_hisi_rtos.c:255-278 | the run loop on the real list refines the run on the queue |
| Recovery.NextSound | port/hostap/supplicant_ws63.c:40-141 | every callback and call keeps the recovery invariant, whether or not registrations succeed |
| Recovery.EveryRunSound | port/hostap/supplicant_ws63.c:40-141 | over every run: a fallback only while a retry is pending and no completion is queued, one reject timer at most, confirmed retries only after a disconnect fed since the last timeout |
| Recovery.NeverDoubled | port/hostap/supplicant_ws63.c:40-141 | cached, scan and pending retries never exceed the timeouts |
| Recovery.HeldExactly | port/hostap/supplicant_ws63.c:40-141 | over every run, whatever is refused: a pending retry has a timer if and only if a completion was granted since the latest timeout, or none was asked for and that timeout's fallback was granted; a pending reject if and only if its latest registration was granted |
| Recovery.NeverLost | port/hostap/supplicant_ws63.c:76-141 | when no registration on behalf of a recovery is refused, a pending retry always has a timer, and the reject timer is queued once exactly while its flag is set |
| Recovery.RefusedThenAnswered | port/hostap/supplicant_ws63.c:87-115 | a run whose fallback is refused: the retry is pending without a timer until the disconnect event queues its completion, which performs it |
| Recovery.DisconnectSilences | port/hostap/supplicant_ws63.c:401-419 | after a disconnect no recovery action happens until the driver feeds an event |
| RecoveryPaths.EveryAction | port/hostap/supplicant_ws63.c:40-141 | main result: over every run each action of the trace is made by one input and justified by it: a reject retry goes by the cached entry if and only if that callback found a network with a set BSSID and a known BSS, a first-EAPOL retry if and only if, in addition, the disconnect was confirmed or the driver was locally disconnected |
| RecoveryPaths.StepActs | port/hostap/supplicant_ws63.c:40-141 | the exact actions of every input |
| RecoveryPaths.ReassociateExact | port/hostap/supplicant_ws63.c:40-141 | the reassociation flag is set by the retries and by nothing else |
| RecoveryPaths.CountersExact | port/hostap/supplicant_ws63.c:33-141 | over every run each of the nine counters is the number of its occasions, told from the inputs, up to 255; a temporary reject is the reason 8030 |
| RecoveryTimes.ThreeSeconds | port/hostap/supplicant_ws63.c:645-670 | an association result rearms the first-EAPOL timer of the context: one timer, due three seconds after the clock reading |
| RecoveryTimes.OneSecond | port/hostap/supplicant_ws63.c:87-115 | after a timeout the context has one fallback, due one second after the clock reading, and no completion |
| RecoveryTimes.AtOnce | port/hostap/supplicant_ws63.c:672-714 | a temporary reject and the completion of a disconnect are due at the clock reading itself, and the latter takes the fallback's place |
| Supplicant.Supplicant.ScheduleFirstEapolRetry | port/hostap/supplicant_ws63.c:40-68 | the retry step on the fields, counters saturating, and last what the association or the scan does to the loop |
| Supplicant.Supplicant.FirstEapolTimeout | port/hostap/supplicant_ws63.c:87-115 | the timeout: counters, what the deauthentication does to the loop, then both timers cancelled and a one-second fallback registered on the real loop |
| Supplicant.Supplicant.FirstEapolFallback | port/hostap/supplicant_ws63.c:70-78 | the fallback callback is an unconfirmed retry |
| Supplicant.Supplicant.FirstEapolComplete | port/hostap/supplicant_ws63.c:80-85 | the completion callback is a confirmed retry |
| Supplicant.Supplicant.TemporaryRejectRetry | port/hostap/supplicant_ws63.c:117-141 | the reject callback reassociates by cached entry or by scan |
| Supplicant.Supplicant.ObserveState | port/hostap/supplicant_ws63.c:218-232 | a changed state pushes the event it stands for, with the failure status, and is remembered |
| Supplicant.Supplicant.FireOwn | port/hostap/eloop_hisi_rtos.c:265-275 | the loop takes a timer of the context off its real list and calls the callback: one step of the recovery model, and on the loop what hostap and the callback do to it in their order |
| ContextTimers.ApplyAllSpares | port/hostap/eloop_hisi_rtos.c:110-233 | whatever operations that cannot name this context's timers do to the loop, its timers are as many as before |
| SupplicantRun.FireOwnIsFired | port/hostap/eloop_hisi_rtos.c:265-275 | what the real list and the fields come to after the loop fires a timer of the context is what the run over values below comes to |
| SupplicantRun.OnceIsRun | port/hostap/supplicant_ws63.c:720-733 | every call of the run loop, other handlers and hostap's own use of the loop included, is for the context a run of its own callbacks, and its timers stay counted |
| SupplicantRun.PendingRetryPerformed | port/hostap/supplicant_ws63.c:40-115 | main result: a pending retry whose fallback or completion is due is performed in that call of the run loop, with a working clock and a budget for what is due, whatever hostap does to the loop inside the callbacks, unless a first-EAPOL timeout of the context is due too and supersedes it |
| SupplicantRun.PendingRejectPerformed | port/hostap/supplicant_ws63.c:117-141 | a pending temporary-reject retry whose timer is due is performed in that call, and nothing supersedes it |
| SupplicantRun.RetryPerformedExample | port/hostap/supplicant_ws63.c:40-78 | a loop, a context and a hostap that registers its scan timer in the retry, for which all of that holds: the retry is performed |
| JointRun.HeldOnLoop | port/hostap/supplicant_ws63.c:40-141 | over every joint life of a loop and a context, owner calls, driver events, calls of the run loop and foreign operations in any order: the context has gone through a run of the recovery model, its timers are those on the loop, and a pending recovery has one there if and only if the registrations on its behalf say so |
| JointRun.PerformedInTheEnd | port/hostap/supplicant_ws63.c:40-141 | main result: after every joint life, a pending recovery that its registrations left a timer is performed by the call of the run loop at a time when that timer is due, a retry unless a due first-EAPOL timeout supersedes it |
| Supplicant.Supplicant.Disconnect | port/hostap/supplicant_ws63.c:401-419 | a disconnect clears both flags, takes all four timers off the real loop, lets hostap deauthenticate and observes the state |
| Supplicant.Supplicant.FeedAssociateResult | port/hostap/supplicant_ws63.c:645-670 | after hostap has handled the event on the loop, an association result rearms the three-second first-EAPOL timer, and the state is observed |
| Supplicant.Supplicant.FeedDisconnect | port/hostap/supplicant_ws63.c:672-714 | after hostap has handled the event on the loop, the immediate retries are queued in order up to the first refused registration; otherwise the state is observed |
| EventRing.EventBuffer.PushEvent | port/hostap/supplicant_ws63.c:157-179 | a push appends to the ring or counts the drop, on the array with wrapping indices |
| EventRing.EventBuffer.NextEvent | port/hostap/supplicant_ws63.c:735-759 | a read hands out the pending drop count first, then the oldest event |
| EventRing.NothingLostSilently | port/hostap/supplicant_ws63.c:151-179 | over every interleaving: delivered then queued are the accepted events; depth at most 7 with its exact maximum; drop counts add up below saturation |
| EventRing.AcceptedInPushOrder | port/hostap/supplicant_ws63.c:157-179 | an event is accepted exactly when fewer than seven are queued, in push order |
| EventRing.OldestOrDropped | port/hostap/supplicant_ws63.c:735-759 | in every run a read hands out the number of drops not yet reported, if there are any, else the oldest event not yet delivered, else nothing |
| Observations.ChangeTold | port/hostap/supplicant_ws63.c:181-232 | in every life an observation pushes one event exactly when the state changes to other than scanning: by number its kind, its time, and for a disconnection the status of the layer that failed first; it is dropped and counted only when seven are queued |
| Observations.EveryChangeCounted | port/hostap/supplicant_ws63.c:157-232 | in every life the events read, queued and dropped are as many as the changes shown |
| RomPatch.JumpLands | crates/hisi-rf-link/python/generate-rom-patch.py:122-130 | the encoded pair, executed at the ROM entry, lands on the replacement, for all addresses |
| RomPatch.LinkedPair | crates/ws63-radio-sys/build.rs:208-213 | what a linker makes of the placeholder pair is the encoder's pair of the same displacement |
| RomPatch.CallMatchesLongJump | crates/ws63-radio-sys/build.rs:239-257 | the compensating addend makes both lanes' words equal if and only if the replacement is even |
| RomTable.SortCommutes | crates/ws63-radio-sys/build.rs:186 | the build script's sort and the final-link lane's sort give the same order |
| RomTable.BuildTable | crates/hisi-rf-link/python/generate-rom-patch.py:152-171 | the finished table, word by word, or the error for an empty or oversized list |
| RomTable.WriteRomPatchObject | crates/ws63-radio-sys/build.rs:201-257 | the section bytes and relocations the build script emits |
| RomTable.LanesAgree | crates/ws63-radio-sys/build.rs:177-257 | both lanes list the same patches, and their images agree if and only if every replacement is even |
| RomTable.OddReplacementExample | crates/ws63-radio-sys/build.rs:177-257 | an odd replacement that both lanes accept, and whose images differ |
| RomTable.EveryJumpLands | crates/hisi-rf-link/python/generate-rom-patch.py:158-171 | every jump of the image lands on its replacement, and the compare word is its ROM entry |
| RomTable.OtherWordsZero | crates/hisi-rf-link/python/generate-rom-patch.py:157-171 | every other word of the image, the two data slots included, is zero |
| RomTable.DiscoveredExactly | crates/hisi-rf-link/python/generate-rom-patch.py:133-149 | discovery succeeds exactly if every name is in the ROM, its replacement is linked and is not in the ROM range; it gives one pair for each name, in ascending order of even address and, at one address, in the dictionary's order of names |
| RootedClosure.FirstOfProviders | crates/hisi-rf-link/src/ble_init_profile.rs:166-171 | the index has an entry exactly for provided symbols, and its first is the first provider |
| RootedClosure.IndexProviders | crates/hisi-rf-link/src/ble_init_profile.rs:166-171 | the index maps each provided symbol to its members in order |
| RootedClosure.SelectKeeps | crates/hisi-rf-link/src/ble_init_profile.rs:220-231 | selecting a member keeps the invariant that everything wanted is settled or queued |
| RootedClosure.NotYetPicked | crates/hisi-rf-link/src/ble_init_profile.rs:221-223 | the test for a member selected before never succeeds |
| RootedClosure.SelectedBound | crates/hisi-rf-link/src/ble_init_profile.rs:208-238 | no more selections than members: the outer termination measure |
| RootedClosure.Close | crates/hisi-rf-link/src/ble_init_profile.rs:198-238 | the worklist ends and serves symbols in queue order; the selection is justified and closed, and exactly the wanted symbols without a provider are unresolved |
| RootedClosure.LeastClosed | crates/hisi-rf-link/src/ble_init_profile.rs:198-238 | the selection is in every provider-closed set, and with unique providers is one |
| RootedClosure.Generate | crates/hisi-rf-link/src/ble_init_profile.rs:186-238 | a callback root is rejected exactly when it is not in the inventory or has no provider, the first such one being reported |
| Printer.Output.OutputChar | port/hostap/freestanding_hisi.c:48-54 | a character is stored while it fits and always counted |
| Printer.Output.OutputFinish | port/hostap/freestanding_hisi.c:62-70 | the terminator goes where the count stands, and nothing beyond the size is touched |
| Printer.FinishedShort | port/hostap/freestanding_hisi.c:48-70 | until the 32-bit count wraps, the buffer holds the front of the text, terminated |
| Printer.TruncatedExactly | port/hostap/freestanding_hisi.c:48-70 | for every text, size and buffer: it holds the terminated front of the text if and only if the count has not wrapped, or there is room for the terminator only, or each place was last met by the character it should hold |
| Printer.UnsignedDigits | port/hostap/freestanding_hisi.c:263-274 | the digits are found last first, at most 20 of them in the 32-byte scratch array |
| Printer.PutPrefix | port/hostap/freestanding_hisi.c:303-312 | sign and base mark, at most 3 characters in the 3-byte scratch array |
| Printer.Output.OutputString | port/hostap/freestanding_hisi.c:276-287 | text padded to the width on the side the flag asks for |
| Printer.Output.OutputNumber | port/hostap/freestanding_hisi.c:289-329 | sign, base mark, zeroes, digits and padding in their order |
| Printer.FieldLength | port/hostap/freestanding_hisi.c:313-328 | a number field has max(width, prefix + max(precision, digits)) characters |
| Formatter.ReadDirective | port/hostap/freestanding_hisi.c:340-406 | flags, width, precision, length modifier and specifier are read as the grammar has them |
| Formatter.OutputDirective | port/hostap/freestanding_hisi.c:407-458 | each specifier puts out its field or is rejected |
| Directives.DirectiveRead | port/hostap/freestanding_hisi.c:343-406 | main result: every directive written from flags, width, precision, length and specifier is read as it was written, and ends where it ends |
| Directives.StarsRead | port/hostap/freestanding_hisi.c:364-391 | width and precision from arguments: a negative width justifies left, a negative precision is none |
| Directives.NumberFields | port/hostap/freestanding_hisi.c:420-454 | d and i print the signed value in decimal, u in decimal, x and X in hexadecimal with letters of their own case, p as an alternate hexadecimal |
| Directives.NumberPadded | port/hostap/freestanding_hisi.c:313-328 | zeroes up to the precision, then spaces behind, zeroes between prefix and digits, or spaces in front, up to the width |
| Directives.CaseOfDigits | port/hostap/freestanding_hisi.c:263-274 | the letters are of the case asked for |
| Directives.StringField | port/hostap/freestanding_hisi.c:412-419 | s prints the text up to its first null character or its precision, in its field |
| Formatter.Vsnprintf | port/hostap/freestanding_hisi.c:331-462 | the exact buffer for texts of every length, those that wrap the count included; the returned length does not depend on the size |
| PrintParse.BoundedIsTruncated | port/hostap/freestanding_hisi.c:48-70 | a bounded buffer is the front of an unbounded one, terminated, with the rest untouched |
| PrintParse.ReturnedExactly | port/hostap/freestanding_hisi.c:461 | the length is exact up to INT_MAX, and wrong without an error exactly when the 32-bit count has wrapped to at most INT_MAX |
| PrintParse.WrappedCount | port/hostap/freestanding_hisi.c:461 | three supported directives whose 2^32 characters are returned as length 0 |
| PrintParse.WrappedBuffer | port/hostap/freestanding_hisi.c:62-70 | the same format leaves an empty string in every buffer with room for a character |
| PrintParse.EscapedPrints | port/hostap/freestanding_hisi.c:350-353 | a text with its percent signs doubled prints as itself |
| PrintParse.SignedRoundTrip | port/hostap/freestanding_hisi.c:420-436 | base-10 strtol undoes %ld under every combination of flags, width and precision |
| PrintParse.HexRoundTrip | port/hostap/freestanding_hisi.c:437-450 | strtol in base 0 and base 16 undoes %#lx and %#lX for every value up to LONG_MAX |
| Directives.UnsignedRoundTrip | port/hostap/freestanding_hisi.c:437-450 | base-10 strtol undoes u up to the clamp |
| Parsers.Strtol | port/hostap/freestanding_hisi.c:99-161 | the value is the exact value of the digit run clamped to long, and the end is past the run |
| Parsers.DigitLoop | port/hostap/freestanding_hisi.c:136-152 | the saturating loop computes the clamped value and consumes the whole run |
| Parsers.OverflowTest | port/hostap/freestanding_hisi.c:141-142 | the division test detects exactly the digits that would pass the limit |
| Parsers.ParseUnsigned | port/hostap/freestanding_hisi.c:197-216 | the exact value clamped to unsigned int, or failure without a digit |
| Parsers.AgreesWithStandard | port/hostap/freestanding_hisi.c:113-127 | the parser agrees with ISO C if and only if no hexadecimal mark stands before a letter past f |
| Parsers.MarkBeforeLetterExample | port/hostap/freestanding_hisi.c:113-127 | the input 0xg, on which the end differs |
| NumeralWriter.ReadsBase | port/hostap/freestanding_hisi.c:99-161 | a numeral written by division in any base from 2 to 36, with blanks and a sign in front and no digit behind, reads as its value clamped to long, and ends where it ends |
| NumeralWriter.ReadsDecimalInBaseZero | port/hostap/freestanding_hisi.c:113-127 | base 0 reads a numeral that starts with 1 to 9 as decimal |
| NumeralWriter.ReadsMarked | port/hostap/freestanding_hisi.c:113-127 | bases 0 and 16 read a numeral behind 0x or 0X as hexadecimal |
| NumeralWriter.ReadsOctal | port/hostap/freestanding_hisi.c:113-127 | base 0 reads a numeral behind a zero as octal |
| ByteSort.SwapBytes | port/hostap/freestanding_hisi.c:168-175 | two disjoint elements are exchanged and every other byte is kept |
| ByteSort.ExchangedElements | port/hostap/freestanding_hisi.c:187-191 | exchanging the bytes of neighbours exchanges exactly those elements |
| ByteSort.Qsort | port/hostap/freestanding_hisi.c:177-195 | the in-place sort refines insertion sort of the elements, for every count, size and comparison |
| ByteSort.SortedStably | port/hostap/freestanding_hisi.c:184-194 | a permutation under any comparison; under a total preorder in order and stable |
| ByteSort.StableSortUnique | port/hostap/freestanding_hisi.c:184-194 | there is only one stable sort of a sequence |
| ScanFilter.KeepScanIe | port/hostap/driver_ws63.c:36-53 | an element is kept for its identifier, vendor elements only for the WPA selector |
| ScanFilter.FilteredScanIesLen | port/hostap/driver_ws63.c:55-71 | the length pass rejects exactly streams with a truncated element and otherwise gives the length of the filtered stream |
| ScanFilter.CopyFilteredScanIes | port/hostap/driver_ws63.c:73-85 | the copy pass writes the filtered stream and nothing else |
| ScanFilter.FilteredOnce | port/hostap/driver_ws63.c:36-85 | the output is well formed, no longer than the input, and unchanged by a second filtering |
| ScanFilter.FilteredAppend | port/hostap/driver_ws63.c:36-85 | filtering distributes over concatenation of well-formed streams |
| ScanFilter.FilteredExactly | port/hostap/driver_ws63.c:36-85 | the output has exactly the elements of identifier 0, 48 or 244 and of 221 with the selector 00:50:f2:01, in their order |
| ScanFilter.Driver.FeedScanResult | port/hostap/driver_ws63.c:399-445 | a result is stored exactly when it is acceptable, fits and is well formed, and its two parts fill the allocation |
| ScanFilter.StoredExactly | port/hostap/driver_ws63.c:399-445 | a report can be stored exactly when it has version 9, a frequency, and at most 2304 bytes of elements that are two streams of whole elements, and memory is granted; what is stored are the wanted elements of both |
| ScanFilter.CaptureHolds | port/hostap/driver_ws63.c:399-454 | a capture holds the first 32 results that can be stored, filtered, in the order in which they were reported |
| ScanFilter.Driver.Capture | port/hostap/driver_ws63.c:399-454 | on the real cache: cleared, then fed each report, it holds just that |
| DriverLifetime.NextSound | port/hostap/l2_packet_ws63.c:24-81 | every step, failing initializations included, keeps the count equal to the live handles |
| DriverLifetime.EveryRun | port/hostap/hisi_wpa_driver_port.c:49-77 | over every run: exact count, one receiver at most, uninstall by the owner succeeds exactly when nothing is alive, the second test redundant |
| DriverLifetime.HooksFixed | port/hostap/hisi_wpa_driver_port.c:38-58 | while a handle stays alive no run changes the hooks |
| DriverLifetime.HooksExact | port/hostap/hisi_wpa_driver_port.c:20-58 | after every run: the code and effect of installing (complete hooks of version 9, once) and of uninstalling (the owner, with no handle alive) |
| DriverLifetime.HandlesExact | port/hostap/l2_packet_ws63.c:24-59 | after every run: a driver comes alive exactly if hooks are installed and nothing is refused; an endpoint, besides, only for protocol 0x888e and as a receiver only while none receives |
| DriverLifetime.Port.DriverInstall | port/hostap/hisi_wpa_driver_port.c:38-47 | the hooks are installed once, and an equal reinstallation is accepted |
| DriverLifetime.Port.DriverUninstall | port/hostap/hisi_wpa_driver_port.c:49-58 | only the owner, and only without users |
| DriverLifetime.Port.InitDriver | port/hostap/driver_ws63.c:148-171 | every failing path gives its reference back |
| DriverLifetime.Port.DeinitDriver | port/hostap/driver_ws63.c:173-182 | a driver instance gives its reference back |
| DriverLifetime.Port.InitEndpoint | port/hostap/l2_packet_ws63.c:24-59 | every failing path gives its reference back, and a second receiver is refused |
| DriverLifetime.Port.DeinitEndpoint | port/hostap/l2_packet_ws63.c:72-81 | an endpoint gives up reception and its reference |
| DriverLifetime.Port.Feed | port/hostap/l2_packet_ws63.c:116-126 | a frame reaches the one endpoint that receives, or the code says why not |

## Left out

- LinkMeaning.SameLinkedBytes: for links that keep section offsets fixed (no R_RISCV_ALIGN or relaxation deletes bytes) and resolve the symbols of the 48-bit loads, relocated sections that have a name, and outside `.debug` targets, which the patch lane neutralizes on purpose; both lanes must have completed. Common symbols have no address in the model.
- LinkMeaning.DistinctNamesSuffice: the map lines are those of one member; a second member of the same name in the same archive, and the text form of the map, are not modelled.
- NormalizerTheorems.Frame: like all results of that module, for well-formed objects (disjoint entries, sites and tables) that normalize without error; what an error leaves behind in the buffer is not specified.
- PatchLane.PatchEntry: a 48-bit load past the end of the object is an error here; the slice assignment of the source would extend the object instead. `WellFormed` excludes it.
- PatchLane.PatchObject: patch mode only, without the search for merged strings, which the source tries for a 48-bit load whose section is not on the link map; the lane reads sections and symbols as the normalizer does, so where its own parser is more permissive (a partial last symbol, RELA entries under 12 bytes, strings without a terminator) it is not covered.
- Archive.ArchiveMembers: fields are trimmed of ASCII white space only, and names are kept as bytes, without the replacement of invalid UTF-8.
- ArchiveTheorems.ArchiveIdempotent: for archives whose ELF members are well formed.
- Inspector.InspectObject: the names of archive and member in a record are the caller's, and the printed name of the type is left out.
- ElfObject.ParseSections: error messages are reduced to their kind, and names are kept as bytes, without the replacement of invalid UTF-8; offsets do not overflow the host's 64-bit `usize`.
- TimerTheorems.EveryRun: identity of an allocated node is a serial number, so reuse of freed memory is not modelled.
- NoStarvation.DueTimersRunFirst: the clock works and does not fall below the moment the run starts; a handler is a list of loop operations.
- EventLoop.Eloop.RunOnceNow: the waiting loop `eloop_run`, the diagnostic flags and the socket and signal stubs are not modelled.
- Recovery.NeverLost: the retry itself is a call into hostap, recorded in the trace; a context has its interface while its timers can fire.
- SupplicantRun.PendingRetryPerformed: neither hostap nor the handlers of other contexts and files touch this context's timers, which only its own file can name, or destroy the loop while it runs; the context's own API is not called from inside a handler.
- JointRun.PerformedInTheEnd: the same, over a life that ends before the loop or the context is destroyed; the context's calls are those of `Supplicant`, one context at a time.
- Supplicant.Supplicant.FeedDisconnect: the diagnostic words are not modelled; a context has its interface whenever a parameter says so, and what hostap shows and does to the loop is a parameter.
- EventRing.EventBuffer.NextEvent: the null-pointer checks and the fixed fields of an event record.
- RomTable.BuildTable: the parsing of symbol and patch lists, and locating `.patch` in the final ELF image.
- RomTable.WriteRomPatchObject: the object file container around the two sections and the relocations; duplicate names, which the list readers reject.
- RootedClosure.Generate: reading archives and inventories, hashing, symbol ownership and the report after the worklist; undefined symbols of a member come as a sequence in set order.
- Formatter.Vsnprintf: a missing or mistyped argument and an `int` overflow in a width or precision are undefined in C and excluded by `Supported`; an argument is a number or a text, and the caller's list stands for `va_list`.
- Formatter.OutputDirective: characters are Dafny characters, of which C's 8-bit characters are the first 256.
- Parsers.Strtol: a C string is a sequence with the terminator behind its end; errno is not part of the code either.
- ScanFilter.Driver.FeedScanResult: of the stored record only the frequency and the information elements.
- DriverLifetime.EveryRun: each handle is released once, by its owner, and fewer than 2^32 handles are alive; sending and the address contents are not modelled.
- `sscanf`, `atoi`, the stubs for files and random numbers, cipher and key tables, AP configuration, profile contents and the scripts: each is settled by reading one branch or is fixed data.
- Upstream hostap, cryptography and the vendor archives are not part of this model.
