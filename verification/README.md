# VitaCheat core: a verified model

This project models the four allocation-free modules of VitaCheat's portable core and proves what
their headers and documentation promise.

- **Legacy `.psv` importer.** `PsvParser` is the one-pass parser over three caller-owned arrays and
  `PsvGuards` the checks on addresses before it. `PsvMachine` is the same pass on values. `PsvText` and
  `PsvLines` hold the grammar of one line and the line splitter. `PsvVerdict`, `PsvRecords`, `PsvGraph`,
  `PsvCounters`, `PsvCompose` and `PsvOutcome` relate the pass to declarative descriptions of its output:
  exact verdicts per cheat block, exact line records, a closed object graph, counters that are counts,
  compositional parsing, lossless splitting and the all-or-nothing rule for buffers. `PsvReading` reads the
  output on its own: each line by the characters of its content, each operation by its code, and each
  verdict by the lines and codes between two headers.
- **Pause coordinator.** `PauseCoordinator` is the record with its 64-bit ownership mask and its two
  callbacks. `PauseModel` is the same transaction on values, with an arbitrary history-dependent
  oracle for the callbacks. `PauseRuns` proves conservation of suspend counts over every run,
  `PauseCleanup` proves call order, failure reports and convergence of retries. `PauseReplies` gives
  every status of every entry point its exact condition.
- **Search and refinement.** `SearchEngine` is the two searches on a flat byte memory with real
  pointers (`FlatMemory`), for both supported data models. `SearchSpec` is searching as filtering.
  `SearchEffects` says what an accepted call does to memory, including exact in-place compaction.
  `SearchRuns` proves what any sequence of calls delivers while the memory changes between them.
  `SearchCalls` says which calls are accepted and what they deliver, by the numeric codes and the bytes
  that a query holds in memory.
- **Menu activation.** `MenuActivation` is the Select-hold machine and the exact condition under
  which it fires, over every history.

`Bits` writes the C bit operators out on natural numbers, so shifts, masks and widths are explicit.
`Common` holds two definitions shared by several modules.

How the model reads the C code:

- `SIZE_MAX` as an index sentinel is the constructor `NoIndex`. `PsvOutcome.TotalsBounded` shows
  that real indices stay below 2^20, so the two never meet.
- The locals that `vc_psv_parse` passes to its helpers by pointer are the fields of
  `PsvParser.Parser`. The ghost field `st` also keeps what did not fit the arrays.
- The pause callbacks obey the contract of `include/vitacheat/pause.h:30-34`. Whether a call
  succeeds may depend on everything called before. The adapter's proof that an abandoned process
  generation is gone is not modelled: an abandon simply gives up the counts still owned, and the
  accounting says so.
- The search memory is little-endian with 4-byte or 8-byte `size_t`. A query lies in it as four 32-bit
  words. This assumes that both platforms give its two enumerations four bytes; a compiler that
  chooses a shorter representation, as the ARM EABI allows, would lay out the query differently.
- A caller must pass non-null pointers to objects of the stated sizes, as C demands. Null pointers
  themselves are handled as the code handles them.

Where the code and its documentation differ, the model follows the code:

- `include/vitacheat/pause.h:59-60` says that every owned suspension is rolled back when begin fails.
  That holds if and only if the callbacks, asked in turn after the failed suspend, let it resume every
  thread it has suspended (`PauseCleanup.RollbackExactly`); a thread that cannot be resumed stays owned
  and begin returns ROLLBACK_FAILED (`PauseCleanup.RollbackCanFail` is such a run).
- A second source that starts with a byte order mark cannot be appended to a non-empty one: the mark
  is honoured on the very first line only, and the header behind it is read as opaque text.
  `PsvCompose.ParseConcatExactly` gives the exact condition and `PsvCompose.MarkedHeaderIsLost` a pair
  of sources that fails it.
- `include/vitacheat/menu_activation.h:27-31` says that a clock rollback restarts the hold. It does so
  if and only if the press has not fired yet (`MenuActivation.RollbackRestartsExactly`); once it has, a
  rollback restarts nothing (`MenuActivation.RollbackAfterTrigger` is such a history).

## Model

| member | source | states |
|---|---|---|
| PsvText.ParseHexExact | src/legacy_psv.c:66-81 | the shift-or loop accepts exactly all-hex fields and computes their base-16 positional value, losing no bits |
| PsvText.TrimSpan | src/legacy_psv.c:99-107 | trimming removes exactly the leading and trailing runs of space and tab |
| PsvText.SkipSpaces | src/legacy_psv.c:130-132 | a separator loop stops at the first byte that is neither space nor tab, or at the end |
| PsvText.ParseCodeSpan | src/legacy_psv.c:109-158 | the in-place decoder of a span agrees with the record function on the span's bytes |
| PsvText.CodeRecordGrammar | src/legacy_psv.c:109-158 | a record is decoded if and only if the text is `$` hex4 ws+ hex8 ws+ hex8 ws*, with the fields' positional values, which fit 16 and 32 bits |
| PsvText.PrintParseRoundTrip | src/legacy_psv.c:109-158 | every record, printed in any mix of hex cases with any nonempty separators, decodes to itself |
| PsvText.HexValueBound | src/legacy_psv.c:66-81 | n hex digits stand for a value below 16^n, so eight fit 32 bits |
| PsvText.HeaderGrammar | src/legacy_psv.c:346-382 | a line is a header if and only if it is ws* `_V` (`0` or `1`) (ws+ description)? ws*, and the reported span is exactly the description |
| PsvLines.LineAtWellSplit | src/legacy_psv.c:299-319 | each split line is an optional mark on the first line, content free of line ends, and a whole terminator; CRLF is not cut |
| PsvLines.LinesAreLossless | src/legacy_psv.c:289-327 | raw lines are contiguous, cover the source, concatenate to it and are at most as many as its bytes |
| PsvParser.Parser.StoreLine | src/legacy_psv.c:160-179 | a line record is written if its slot exists, with exact 32-bit spans, and counted either way |
| PsvParser.Parser.TaintActiveCheat | src/legacy_psv.c:181-199 | the active cheat's state becomes the worse of old and new, and it is counted as non-direct once |
| PsvParser.Parser.FinalizeActiveCheat | src/legacy_psv.c:201-216 | an accepted selector without a typed write makes the cheat malformed and is counted |
| PsvParser.Parser.SplitNext | src/legacy_psv.c:289-319 | the byte loops find the same line, terminator and mark as the splitter |
| PsvParser.Parser.TakeHeader | src/legacy_psv.c:346-405 | the header branch is the machine's step for the classified line |
| PsvParser.Parser.TakeCode | src/legacy_psv.c:407-483 | the code branch is the machine's step for the classified line |
| PsvParser.Parser.TakeLine | src/legacy_psv.c:329-491 | every branch of the loop body is the machine's step for the classified line |
| PsvParser.Parser.Scan | src/legacy_psv.c:289-496 | the whole pass over the arrays ends in the state that the machine reaches on values |
| PsvParser.Clear | src/legacy_psv.c:218-235 | discarding zeroes exactly the written prefix of a buffer |
| PsvGuards.Guard | src/legacy_psv.c:258-283 | a call is let through if and only if only empty objects are null, the source is at most 1 MiB, every buffer's byte size fits `size_t`, and the five objects are pairwise disjoint below the top of the address space; SOURCE_TOO_LARGE if and only if the pointers are fine and the source is larger |
| PsvGuards.ObjectsAreArrays | src/legacy_psv.c:271-283 | after any stores into the objects of an accepted call, each object holds what a separate array would hold after the stores into it alone; the source never changes |
| PsvGuards.WriteElement | src/legacy_psv.c:375-391 | for any layout of an element, writing one slot of a buffer in memory is writing that element of the array |
| PsvParser.Parse | src/legacy_psv.c:237-506 | status, report and all three buffers after a call, for every source and every buffer length |
| PsvVerdict.OpenVerdictAppend | src/legacy_psv.c:181-199 | the verdict of a block being read is a running maximum of line severities |
| PsvVerdict.VerdictCharacterised | src/legacy_psv.c:427-472 | DIRECT_ONLY, MODULE_RELATIVE and MALFORMED, each if and only if the block contains what makes it so |
| PsvVerdict.RunInBlock | src/legacy_psv.c:407-491 | after any lines of a block the five per-cheat variables, the cheat record and its operations are functions of those lines |
| PsvVerdict.ExactVerdict | src/legacy_psv.c:346-496 | for every header line of every source, the finished cheat record and its operations are read off its block alone |
| PsvVerdict.EveryCheatHasAHeader | src/legacy_psv.c:375-391 | every cheat of a parse comes from the header line it names |
| PsvVerdict.SettledRun | src/legacy_psv.c:364-404 | once closed, a cheat and the operations recorded so far never change |
| PsvRecords.RecordsExact | src/legacy_psv.c:321-491 | every recorded line has the spans, kind, cheat index and operation index that its text and position determine |
| PsvRecords.LinesTaintEntry | docs/legacy-psv-compatibility.md:62-64 | up to the next well-formed header, a malformed line, header lines included, makes the finished entry MALFORMED, and an opaque line makes it MALFORMED or REQUIRES_UNSUPPORTED |
| PsvRecords.OpenAtInBlock | src/legacy_psv.c:399-404 | throughout a block the open cheat is the one its header opened |
| PsvReading.LineGrammar | src/legacy_psv.c:329-491 | every line, without the white space around it, is blank, a comment, a header, a malformed header, a code, a malformed code or opaque, each if and only if its first characters (and, for a code, the record grammar) say so; a bare `_V` is opaque |
| PsvReading.HexDigitsExact | src/legacy_psv.c:52-64 | the hex digits and their values, in both cases; no other byte is one |
| PsvReading.KindExact | src/legacy_psv.c:329-490 | the recorded kind of every line of every source, by the bytes of its recorded content and whether a cheat is open: CODE needs a record and an open cheat, MALFORMED is a failed header or a `$` line that is no CODE |
| PsvReading.HeaderExact | src/legacy_psv.c:373-391 | every cheat's activation and description are those of the header shape of its header line's recorded content |
| PsvReading.OperationReadsLine | src/legacy_psv.c:412-465 | every operation holds the code, address and value printed on the line it names, and that line names it |
| PsvReading.OperationExact | src/legacy_psv.c:426-457 | for every operation of every parse: its kind by its code; ABSOLUTE if and only if the code is 0x0000, 0x0100 or 0x0200 and its cheat's first operation is not a selector in range; SELECTED_MODULE_RELATIVE if and only if the code is one of these and the first operation is such a selector; NOT_APPLICABLE for every other code |
| PsvReading.VerdictOnOutput | src/legacy_psv.c:181-216 | each of the four verdicts of every cheat, if and only if: the malformed and opaque lines recorded between its header and the next one, and the codes of its operations, make it so |
| PsvGraph.LinkedStep | src/legacy_psv.c:375-465 | every step keeps lines, cheats and operations pointing at each other |
| PsvGraph.TiledStep | src/legacy_psv.c:384-385 | every step keeps the cheats' operation ranges consecutive, starting at 0, ending at the total, and exact |
| PsvGraph.ClosedGraph | src/legacy_psv.c:375-477 | every parse yields a closed object graph with descriptions inside their header lines |
| PsvCounters.ReportCounts | src/legacy_psv.c:191-214 | every counter of a finished parse is the count over the output lists it stands for, limits and operation sequences included |
| PsvCounters.JudgeSequences | src/legacy_psv.c:428-436 | the machine rejects a selector exactly when the output list shows it out of range or not first in its cheat |
| PsvCounters.CountedStep | src/legacy_psv.c:346-491 | every step keeps all counters equal to their counts |
| PsvCompose.JoinFromHeader | src/legacy_psv.c:352-404 | whatever was read before, a header starts afresh: what follows is the standalone result, moved |
| PsvCompose.ParseConcat | src/legacy_psv.c:289-496 | parsing a source that ends a line, followed by one that starts with a header, is parsing the two and shifting; counters add except for the one-off 50-cheat term |
| PsvCompose.ParseConcatExactly | src/legacy_psv.c:314-319 | that decomposition holds if and only if the second source carries no byte order mark or the first is empty |
| PsvCompose.MarkedHeaderIsLost | src/legacy_psv.c:314-319 | a line end followed by a header behind a mark is a pair that does not decompose |
| PsvCompose.ReportsAdd | src/legacy_psv.c:494-505 | whatever the buffers, totals and counters in the reports of the three calls add up the same way, and the call on the concatenation returns OK if and only if its buffers have room for the sums of the totals |
| PsvCompose.ListsJoin | src/legacy_psv.c:494-505 | if the calls on the parts return OK and the sums fit, the lists delivered for the concatenation are theirs, the second moved |
| PsvOutcome.Lossless | include/vitacheat/legacy_psv.h:62-66 | recorded raw spans tile the source from first to last byte and concatenate to it |
| PsvOutcome.LinesComposed | include/vitacheat/legacy_psv.h:62-66 | every recorded raw line is mark, content and whole terminator; only the last may lack one |
| PsvOutcome.CrLfStaysTogether | src/legacy_psv.c:304-311 | no CRLF is split between two recorded lines |
| PsvOutcome.TotalsBounded | src/legacy_psv.c:264-266 | totals never exceed the source size, so spans fit 32 bits and no index meets the sentinel |
| PsvOutcome.ReportIndependentOfCapacity | src/legacy_psv.c:285-287 | two calls on one source report the same apart from the stored counts |
| PsvOutcome.ReportExact | src/legacy_psv.c:285-287 | every field of every report: schema version 2, the source's size, the totals, the counters, and stored counts that are the totals after OK and 0 after TRUNCATED; there is a report exactly up to 1 MiB |
| PsvOutcome.StatusExact | src/legacy_psv.c:497-505 | OK if and only if all three totals fit; too large exactly above 1 MiB, with nothing written |
| PsvOutcome.SizesFromEmptyCall | src/legacy_psv.c:497-505 | the totals reported by a call without room are the sizes with which the next call delivers everything |
| PsvOutcome.CompleteOutcome | src/legacy_psv.c:504-505 | after OK the buffers start with the complete lists and are otherwise untouched |
| PsvOutcome.TruncatedIsCleared | src/legacy_psv.c:218-235 | after TRUNCATED written prefixes are zero, other slots untouched, stored counts 0 |
| PauseCoordinator.TestBit | src/pause.c:84-86 | masking with the shifted bit tests membership, bit 63 included |
| PauseCoordinator.InsertBit | src/pause.c:104 | or-ing the shifted bit inserts exactly that position |
| PauseCoordinator.RemoveBit | src/pause.c:89 | and-ing its complement removes exactly that position |
| PauseCoordinator.PauseState.ValidateThreads | src/pause.c:17-35 | the loop accepts exactly nonempty lists of at most 64 positive, strictly increasing ids |
| PauseCoordinator.PauseState.Begin | src/pause.c:37-109 | record, world and status after begin are those of the transaction on sets |
| PauseCoordinator.PauseState.RollBack | src/pause.c:79-101 | the rollback releases in reverse and clears the record exactly when nothing stays owned; its flag and the mask never disagree, so the status is ROLLBACK_FAILED exactly when something does |
| PauseCoordinator.PauseState.ResumeSuspended | src/pause.c:79-99 | the rollback loop ends in the sweep over the suspended positions, and `rollback_failed` is set if and only if one is still owned |
| PauseCoordinator.PauseState.End | src/pause.c:111-149 | record, world and status after end are those of the transaction on sets |
| PauseCoordinator.PauseState.Tick | src/pause.c:151-174 | the same for tick, in and out of the window |
| PauseCoordinator.PauseState.Abandon | src/pause.c:176-191 | the same for abandon, which calls nothing |
| PauseModel.SweepCalls | src/pause.c:129-141 | a sweep only releases, and calls resume exactly once per owned position, from the top down |
| PauseModel.SweepCounts | include/vitacheat/pause.h:30-34 | each released position gives back exactly one count and nothing else moves |
| PauseModel.RollbackFailedId | src/pause.c:81-94 | a rollback reports the smallest position it could not release |
| PauseModel.CleanupFailedId | src/pause.c:128-141 | a cleanup reports the largest position it could not release |
| PauseModel.SuspendEffect | src/pause.c:76-105 | suspends run upwards to the first failure and take exactly one count each |
| PauseRuns.PerformConserves | src/pause.c:37-191 | every entry point keeps a settled transaction settled, makes only legal calls, and conserves counts net of ownership |
| PauseRuns.EveryRunConserves | src/pause.c:37-191 | over every command sequence and every callback behaviour, each count is its start plus one if owned plus what abandons gave up; only owned threads are ever resumed |
| PauseCleanup.BeginOutcome | src/pause.c:76-108 | an accepted begin's exact calls, record, status and failed id; a failure at position i causes exactly i rollback attempts, and what they leave is recorded with the ids, window and generation |
| PauseCleanup.BeginSucceedsExactly | src/pause.c:76-108 | an accepted begin returns OK if and only if the callbacks let it suspend every thread in turn, and otherwise there is a first position at which they do not |
| PauseCleanup.RollbackExactly | src/pause.c:76-101 | a begin whose suspend at position k is the first to fail gives back everything, and returns SUSPEND_FAILED, if and only if the callbacks let it resume the positions k-1 to 0 in turn after that failure; otherwise it returns ROLLBACK_FAILED |
| PauseCleanup.RollbackCanFail | src/pause.c:87-101 | a begin whose second suspend and whose rollback both fail keeps the first thread and returns ROLLBACK_FAILED |
| PauseReplies.BeginExactly | src/pause.c:48-108 | begin returns OK if and only if the generation is not 0, the duration is 1 to 600000 ms, the deadline fits 64 bits, nothing is active, the list has 1 to 64 positive increasing ids and the callbacks let every suspend succeed in turn; it then owns exactly the whole list, for that generation and window |
| PauseReplies.BeginRefusals | src/pause.c:48-63 | INVALID_ARGUMENT, ALREADY_ACTIVE and INVALID_THREADS, each if and only if its own condition holds, with record and threads untouched |
| PauseReplies.AttemptReplies | src/pause.c:76-108 | a begin that gets to suspending returns SUSPEND_FAILED if and only if some suspend is the first to fail and the rollback then succeeds in turn, ROLLBACK_FAILED if and only if it does not |
| PauseCleanup.EndOutcome | src/pause.c:128-148 | a cleanup's exact calls, what stays owned, its status and failed id |
| PauseReplies.CleanupSucceedsExactly | src/pause.c:128-148 | a cleanup call succeeds, and clears the record, if and only if the callbacks let it resume every owned thread in turn from the top down; otherwise it returns RESUME_FAILED and the transaction stays active |
| PauseReplies.InactiveReplies | src/pause.c:118-123 | with no transaction active, end, tick and abandon return NOT_ACTIVE, or INVALID_ARGUMENT for generation 0, and do nothing |
| PauseReplies.StaleReplies | src/pause.c:124-126 | end, tick and abandon for another generation return STALE_TARGET, or INVALID_ARGUMENT for generation 0, and do nothing |
| PauseReplies.AbandonSucceeds | src/pause.c:176-191 | an abandon by the transaction's generation returns OK, makes no call and leaves nothing active or owned |
| PauseReplies.ExpiredExactly | include/vitacheat/pause.h:78-87 | EXPIRED is returned by exactly the ticks that find their own transaction active outside its window and resume everything it owns; nothing is active afterwards |
| PauseReplies.OkExactly | src/pause.c:111-191 | end, tick and abandon return OK if and only if the transaction is theirs and the call abandons, ticks inside the window, or ends with every resume succeeding |
| PauseCleanup.DeadlineEnforced | src/pause.c:168-173 | a settled active transaction survives exactly the ticks in its window; every other tick calls resume for all threads it still owns, top down, and reports EXPIRED if it released them all, RESUME_FAILED otherwise |
| PauseCleanup.WindowIsFixed | src/pause.c:111-191 | no command changes the generation, threads or window of an active transaction, or makes it own more, except by clearing it |
| PauseCleanup.GenerationBinding | src/pause.c:124-126 | only a cleanup call with the transaction's own generation can act on it |
| PauseCleanup.StubbornSweep | src/pause.c:130-141 | under a given number of failures left per thread, a sweep releases exactly the threads that have none left |
| PauseCleanup.CleanupCompletes | src/pause.c:111-191 | if thread t fails k(t) more times, then among any calls that do not abandon the transaction (stale calls, refused begins and ticks in the window included) cleanup calls fail exactly max k times and the next completes (EXPIRED from a tick); every other call is refused or does nothing, and each released thread has its count back |
| SearchValues.ShiftOrByte | src/search.c:49-59 | one shift-or step of the read extends the base-256 value by one byte |
| SearchValues.LittleEndianInjective | src/search.c:49-59 | equal values of equal width are equal bytes |
| SearchValues.SignedValueIsTwosComplement | src/search.c:61-72 | the sign-bit arithmetic is two's complement at widths 1, 2 and 4 |
| SearchValues.NumericInjective | src/search.c:61-72 | reading bits as a number never identifies two patterns of the width |
| SearchValues.MatchesIsRelation | src/search.c:74-109 | masked bit comparisons are comparisons of the numbers, for all types and relations |
| SearchValues.RelationTrichotomy | src/search.c:92-105 | increased, decreased and unchanged exclude each other and cover every pair; changed is the union of the first two |
| SearchSpec.OffsetsExact | src/search.c:242-269 | a scan examines exactly the multiples of the stride at which a whole value fits, ascending |
| SearchSpec.CandidatesByLast | src/search.c:287-296 | for an ascending list validity is decided by its last offset |
| SearchSpec.SelectExact | src/search.c:358-375 | filtering keeps order and exactly the matching elements |
| SearchSpec.TrendPartition | src/search.c:358-375 | the three trend refinements partition any candidate list, so their totals add up |
| SearchSpec.ChangedIsOrderedMerge | src/search.c:358-375 | CHANGED is the ordered merge of INCREASED and DECREASED |
| SearchSpec.UnchangedIsSameBytes | src/search.c:94-95 | UNCHANGED holds if and only if the bytes are the same |
| SearchSpec.SessionIsConjunction | src/search.c:205-380 | a chain of searches yields ascending aligned offsets satisfying every query, all of them if never truncated, valid for every further width up to the first |
| FlatMemory.MultiplyExact | src/search.c:121-129 | the checked multiplication succeeds if and only if the product fits and is then exact |
| FlatMemory.OverlapExact | src/search.c:131-151 | the overlap test is exact except at the very end of the address space, where it refuses |
| FlatMemory.NotOverlapping | src/search.c:131-151 | objects that pass the test have no byte in common |
| FlatMemory.ReadLittleEndian | src/search.c:49-59 | the shift-or loop reads the base-256 value at an address |
| SearchEngine.ValidateCommon | src/search.c:153-203 | the common checks give the stated verdict and decode the query at entry |
| SearchEngine.ValidateCandidates | src/search.c:276-299 | the loop accepts exactly ascending lists of offsets at which a whole value fits |
| SearchEngine.ScanOffsets | src/search.c:248-269 | the scan loop delivers the filter of the entry-time snapshot and never overflows the offset |
| SearchEngine.SearchInitial | src/search.c:205-274 | status and whole memory after a scan; any refusal leaves all memory unchanged |
| SearchEngine.RefineCandidates | src/search.c:358-375 | the loop filters the entry-time candidates even when it overwrites them |
| SearchEngine.SearchRefine | src/search.c:301-380 | status and whole memory after a refinement, separate or exactly in place; any refusal leaves all memory unchanged |
| SearchCalls.ScanAcceptedExactly | src/search.c:164-234 | a scan is accepted if and only if query and both cells are given, snapshot and buffer are null only when empty, the size is at most 2^32, type code <= 5, relation code <= 1, stride > 0, 4 * capacity fits and the outputs lie apart from each other and from the inputs; each refusal has its exact condition |
| SearchCalls.RefineAcceptedExactly | src/search.c:164-351 | a refinement is accepted if and only if pointers, query (relation code <= 5), candidates and outputs are in order, the exact alias allowed; each refusal has its exact condition |
| SearchCalls.ScanDelivers | src/search.c:205-274 | an accepted scan reports, in bytes and codes: all offsets that are multiples of the stride at which a whole number of the type equals the constant (code 0) or differs (1), ascending, as many as there is room for, with their total, TRUNCATED if and only if there are more |
| SearchCalls.RefineDelivers | src/search.c:301-380 | the same for a refinement and the candidates found at entry, with relation codes 0 to 5 for `==`, `!=` the constant and `!=`, `==`, `>`, `<` the previous number; type codes 0 to 5 have widths 1, 1, 2, 2, 4, 4 and 1, 3, 5 are signed |
| SearchCalls.CountOnly | src/search.c:161-170 | a scan without a buffer stores the total of all matches and changes only its two cells |
| SearchCalls.CountOnlyAccepted | src/search.c:169-170 | dropping the buffer of an accepted scan gives an accepted scan |
| SearchEffects.InitialEffect | src/search.c:248-273 | an accepted scan stores its matches and both counts, and changes no other byte; snapshot and query survive |
| SearchEffects.RefineEffect | src/search.c:353-379 | an accepted refinement stores its matches and both counts, changes neither query nor snapshots, and changes candidates only under the alias, where slots past the written ones keep their values |
| SearchEffects.InPlaceEqualsSeparate | src/search.c:353-379 | in-place compaction delivers the same status, counts and offsets as a separate buffer, at any capacity |
| SearchEffects.CallsAreRounds | src/search.c:358-379 | refining a chain's output is the chain's next round, and the chain stays untruncated exactly when the call does not report TRUNCATED |
| SearchEffects.InitialCallIsSession | src/search.c:248-273 | an accepted scan starts such a chain |
| SearchRuns.RunIsSession | src/search.c:205-380 | after an accepted scan and any accepted refinements, each on a memory of its own that holds the last delivered list as candidates, the list read from memory is that of the chain of rounds, and the chain is untruncated if and only if every call returned OK |
| SearchRuns.RunIsConjunction | src/search.c:205-380 | that list is ascending and consists of aligned offsets satisfying every call's query on that call's snapshots; all of them if every call returned OK |
| SearchRuns.RunStaysValid | src/search.c:276-299 | that list is never refused as candidates by a later call of at least the scan's size and at most its width |
| SearchRuns.PassingOn | src/search.c:205-380 | handing on the last output buffer, of the scan or of a refinement, with its stored count to an accepted refinement continues a run, in place or not |
| SearchRuns.TrendTotals | src/search.c:358-379 | the totals stored by INCREASED, DECREASED and UNCHANGED calls on the same candidates add up to `count`, the first two to that of CHANGED, and untruncated lists are the partition |
| SearchEffects.RefinedListsAreValid | src/search.c:287-298 | a refinement's output is never refused as candidates by a later refinement of the same size and no larger width |
| SearchEffects.InitialListsAreValid | src/search.c:287-298 | the same for the output of a scan |
| MenuActivation.State.Update | src/menu_activation.c:12-43 | state and event after one sample |
| MenuActivation.StateAfter | src/menu_activation.c:20-42 | after any history, whether the button is held, the last time, whether the press has fired and, before it has, where its hold starts |
| MenuActivation.HoldStartIsLatest | src/menu_activation.c:28-34 | the hold interval starts at the run's latest clock rollback, or at its start, and the clock has not run backwards since |
| MenuActivation.TriggerExact | src/menu_activation.c:20-42 | over every history, the event fires at a sample if and only if it is the first of its pressed run held for 5000 ms |
| MenuActivation.OncePerPress | include/vitacheat/menu_activation.h:27-31 | one press fires at most once |
| MenuActivation.RollbackRestartsExactly | src/menu_activation.c:28-34 | a rollback within a press restarts the hold if and only if the press has not fired |
| MenuActivation.RollbackAfterTrigger | src/menu_activation.c:32-34 | a history on which a rollback after the event leaves the hold start alone |
| MenuActivation.NoUnderflow | src/menu_activation.c:37 | while a hold is timed the unsigned subtraction never wraps |

## Left out

- PsvParser.Parse: starts after the guards for null pointers, byte sizes and overlaps, because Dafny arrays have no addresses and cannot overlap; those guards are PsvGuards.Guard, and PsvGuards.ObjectsAreArrays says that buffers that pass them behave as such arrays.
- PsvGuards.WriteElement: the layout of the C structures is a parameter, because the source does not fix it.
- PauseModel.Begin: the branches for null pointers and missing callbacks, each of which is a single early return.
- Re-initialising a pause record during a live transaction, and callbacks that re-enter it, which the header forbids.
- What a suspended thread is, and how an adapter proves that a process generation is gone.
- The numeric values of the C enumerations, except those that a search query holds in memory.
- The meaning or execution of imported cheat operations: the code only indexes them.
- The Vita self-test (controller polling, drawing, navigation), the build files, the fuzz harness and the tests.
- The future kernel service, Quick Menu launcher, PC protocol and online database, which are design text.
