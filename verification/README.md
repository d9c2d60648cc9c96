# SATT: proofs of the trace pipeline

SATT records Intel PT traces for each CPU together with "sideband" events of the kernel, and rebuilds
from them what each thread executed and when. This project models the stateful parts of that pipeline
in Dafny and proves what they are for. Each operation is a method in the form the source has, a class
with the fields it updates or a loop over an array, and is proved against a specification on values;
the main results are then statements about that specification over every input, run or interleaving.

| part | modules |
|---|---|
| the path cache that processes share: quoting, the cache file, the locking protocol | `Getline`, `PathCache`, `PathProtocol`, `PathAnswers`, `PathLocks` |
| following a program with PT packets | `DecoderStack`, `Decoder`, `DecoderPath` |
| matching schedulings with the trace, and cutting the trace at them | `Heuristics`, `IptFile`, `WholeTrace`, `TraceThreads` |
| merging by time | `Merge` |
| time of lines and calls | `CallAccounting`, `Normalizer`, `NormalizerLines`, `NormalizerExample` |
| the kernel's buffers, their readers, and the ring log of kernel events | `BufferPool`, `PoolLog`, `StreamReader`, `SidebandRing`, `Memory` |
| parsing and combining sideband files | `SidebandParser`, `Combiner` |
| copying a kernel function for a hook | `Hijack`, `HijackExample` |
| the index of symbols, and MD5 | `SymbolIndex`, `Md5` |

## What does not hold

Some properties one would expect are false of the code. The members named here give the exact
condition under which they hold, and mostly a concrete case in which they do not.

- A waiter for a path may answer "not found" although the path is being resolved
  (`PathProtocol.WaiterCanBeEarly`); `PathProtocol.AnswersAreJustified` says when an answer is positive.
- The line buffer of the cache is said to be "enough for 2 quoted paths" (sat-caching-path-mapper.cpp:45),
  but a record has three. Reading fails exactly when a record is longer than the buffer
  (`PathCache.CacheReader.ReadNewEntries`), which takes paths with much to escape
  (`PathCache.FitsExactly`, `PathCache.PathsCanMisfit`).
- A return that skips levels may take one call too many off the stack of the intermediate step
  (`CallAccounting.PopCanTakeTheCaller`, `CallAccounting.PopRemovesExactly`).
- The combiner copies 12 bytes of the first file whether or not they are a version string
  (`Combiner.OutputWithoutVersion`, `Combiner.OutputParsesExactly`).
- The partial copy of a function does not fix up references from its prefix into the rest of the function
  (`HijackExample.PartialCopyCanGoAstray`, `Hijack.OperandKeptInPartial`).
- The copy of a function is longer than the memory that is allocated for it if the last instruction is not
  all within the function's size (`Hijack.OverrunsExactly`, `HijackExample.CopyCanOverrun`).
- Quanta chain only if the schedulings after the first time stamp come last (`Heuristics.QuantaChain`).
- The cut list of a CPU has exactly the bytes from the first quantum on, each in its own quantum, only if
  the position of the first quantum fits the blocks, and the first quantum that is reported does not begin
  after them (`WholeTrace.TraceIsCutAtQuanta`, `WholeTrace.PositionCanMisfit`, `WholeTrace.EqualTimesMislay`).
- Lines of a thread may be written after it is scheduled out, and a call then charged for time out of its
  thread (`NormalizerExample.ChargedWhileOut`). For input that switches by turns the lines come right exactly
  if no new time stamp comes while the thread is out and lines wait for it (`Normalizer.OutputIsLegalExactly`);
  then the times of calls are exact (`Normalizer.TimesOfCallsAreExact`).
- Of a loop without packets the decoder cannot tell in which round it was interrupted, and takes the first
  (`DecoderPath.RoundsLookAlike`, `DecoderPath.NotDue`).
- A reader of the sideband log that starts past its end asks for a copy of negative length
  (`SidebandRing.CopyIsInBounds`), and a reader that was at the end is past it when the halves switch
  (`SidebandRing.ReaderIsLeftBehind`, `SidebandRing.ReaderPastTheEnd`).

## Model

| member | source | states |
|---|---|---|
| PathProtocol.HelperRunsOncePerPath | src/parser/ipt-model/sat-caching-path-mapper.cpp:126-209 | in every interleaving of any number of processes, also when a waiter unlinks a lock file that its creator still holds, the helper runs at most once for a path and never for one the file had before; the file only grows and never has two records for a path |
| PathProtocol.RamCacheIsFilePrefix | src/parser/ipt-model/sat-caching-path-mapper.cpp:148-196 | in every interleaving a process's RAM cache is exactly the map of the records it has read, except while it holds the cache lock to append its own record |
| PathProtocol.PositiveAnswersAgree | src/parser/ipt-model/sat-caching-path-mapper.cpp:102-124 | in every interleaving all positive answers for a path are the same, whichever process gave them and whenever |
| PathProtocol.AnswersAreJustified | src/parser/ipt-model/sat-caching-path-mapper.cpp:153-200 | exactly when an answer is positive: an answer of a call that did not run the helper is positive if and only if the records read by then hold two non-empty paths for it; every positive answer repeats a record, and a call that ran the helper in vain has left a record with two empty paths |
| PathAnswers.RecordsAreResults | src/parser/ipt-model/sat-caching-path-mapper.cpp:187-196 | over every run, read off its events: the cache file is what it was at first and then, in order, one record for each time the helper ran, with the path that was asked for and the two paths that it gave, host first, or two empty ones if it found nothing; only the last may still have to be written |
| PathAnswers.EveryCallIsAnswered | src/parser/ipt-model/sat-caching-path-mapper.cpp:102-209 | over every run: a call is answered once, by the step that ends it, for the path that was asked for; if the call ran the helper, the answer is found exactly if the helper found something, and is what the helper gave |
| PathAnswers.AnswersAreFresh | src/parser/ipt-model/sat-caching-path-mapper.cpp:102-209 | over every run: a path whose record was in the cache file when `find_file` was called is answered with that record, found exactly if neither path in it is empty |
| PathAnswers.CachedAtOnce | src/parser/ipt-model/sat-caching-path-mapper.cpp:106-121 | over every run: a path is answered at once, without any file or lock, if and only if a record of it was read before |
| PathLocks.LocksAreReleased | src/parser/ipt-model/sat-caching-path-mapper.cpp:142-205 | over every run: a process that is not in a call holds no lock |
| PathLocks.LocksExclude | src/parser/ipt-model/sat-caching-path-mapper.cpp:142-205 | over every run: no two processes have one lock file locked, or the cache file |
| PathLocks.NoDeadlock | src/parser/ipt-model/sat-caching-path-mapper.cpp:142-205 | over every run: while some process is in a call, some process in a call can take its next step |
| PathLocks.CallsAreShort | src/parser/ipt-model/sat-caching-path-mapper.cpp:102-209 | over every run: a call is over after at most nine steps of its process, not counting those it waits for |
| PathLocks.OnlyLocksBlock | src/parser/ipt-model/sat-caching-path-mapper.cpp:142-205 | a process in a call can go on if and only if it does not wait for a lock that is taken |
| PathLocks.CreatesExclusively | src/parser/ipt-model/sat-caching-path-mapper.cpp:134-165 | the first `open` ends the process, finds the name taken, or makes a new lock file under a name that was free, and touches no other name |
| PathLocks.OpensWhatIsThere | src/parser/ipt-model/sat-caching-path-mapper.cpp:137-146 | the second one gives the file of that name if it is still there; otherwise the process does not wait |
| PathLocks.UnlinksItsName | src/parser/ipt-model/sat-caching-path-mapper.cpp:145-205 | unlinking takes away the lock file's name and no other |
| PathProtocol.WaiterCanBeEarly | src/parser/ipt-model/sat-caching-path-mapper.cpp:137-160 | a concrete run in which a waiter locks the lock file before its creator does and answers "not found" for a path that is then resolved: negative answers need not agree |
| PathProtocol.RunKeepsInv | src/parser/ipt-model/sat-caching-path-mapper.cpp:102-209 | the invariant behind these holds after every run: the helper's runs are the new records of the file in order, and only the holder of the cache lock is between reading and appending |
| PathProtocol.StepKeepsInv | src/parser/ipt-model/sat-caching-path-mapper.cpp:102-209 | one step of one process keeps it, whatever path is asked for, whatever the helper says, and whether or not opening a file fails |
| PathProtocol.AppendKeepsInv | src/parser/ipt-model/sat-caching-path-mapper.cpp:195-196 | appending the record of a path that was just found missing keeps records distinct |
| PathProtocol.CreatorKeepsInv | src/parser/ipt-model/sat-caching-path-mapper.cpp:166-203 | reading under the cache lock brings the RAM cache up to the whole file, so that a path that is then missing is in no record |
| PathProtocol.LockKeepsInv | src/parser/ipt-model/sat-caching-path-mapper.cpp:142-205 | locking, unlocking and unlinking lock files, also somebody else's, matters for none of this |
| PathProtocol.OpenKeepsInv | src/parser/ipt-model/sat-caching-path-mapper.cpp:137-165 | creating the lock file, opening the one that is there, and failing at either, keeps the invariant |
| PathProtocol.WaiterKeepsInv | src/parser/ipt-model/sat-caching-path-mapper.cpp:148-159 | a waiter's answer is justified by what it has read |
| PathCache.RecordIsOneLine | src/parser/ipt-model/sat-caching-path-mapper.cpp:28-39 | a record holds exactly one newline, its last character, whatever characters the paths have |
| PathCache.RecordParses | src/parser/ipt-model/sat-caching-path-mapper.cpp:47-51 | the three fields of a record are read back from it, leaving just the newline |
| PathCache.CutRecordFails | src/parser/ipt-model/sat-caching-path-mapper.cpp:45-54 | a record that is cut anywhere before its last quote does not parse |
| PathCache.NextLine | src/parser/ipt-model/sat-caching-path-mapper.cpp:45-51 | a call of `fgets` at the start of a record gets the whole record if it fits the buffer; if not, parsing fails now or at the next call |
| PathCache.TextSplits | src/parser/ipt-model/sat-caching-path-mapper.cpp:33-37 | record `i` of the file is the text between its offset and the next one |
| PathCache.CacheFile.Append | src/parser/ipt-model/sat-caching-path-mapper.cpp:28-39 | the file becomes the old text and the record's line |
| PathCache.CacheReader.GetLine | src/parser/ipt-model/sat-caching-path-mapper.cpp:45-46 | what `fgets` returns: up to a newline, the buffer's size, or the end of the file |
| PathCache.ParseLine | src/parser/ipt-model/sat-caching-path-mapper.cpp:47-51 | succeeds exactly when three quoted strings can be read, and returns them |
| PathCache.CacheReader.ReadRecord | src/parser/ipt-model/sat-caching-path-mapper.cpp:46-56 | one turn of the loop: a record that fits goes into the RAM cache, unless its path is there already |
| PathCache.CacheReader.ReadNewEntries | src/parser/ipt-model/sat-caching-path-mapper.cpp:41-57 | fails, which ends the process, if and only if some new record is longer than the line buffer; otherwise the RAM cache takes in exactly the new records, first record first |
| PathCache.FitsExactly | src/parser/ipt-model/sat-caching-path-mapper.cpp:45 | a record fits the line buffer if and only if the lengths of its paths, counting what is escaped twice, leave room for six quotes and the newline |
| PathCache.PlainPathsFit | src/parser/ipt-model/sat-caching-path-mapper.cpp:45 | three paths shorter than PATH_MAX with nothing to escape always fit |
| PathCache.PathsCanMisfit | src/parser/ipt-model/sat-caching-path-mapper.cpp:45 | three concrete paths, each shorter than PATH_MAX, whose record does not fit |
| PathCache.LineOfPaths | src/parser/ipt-model/sat-caching-path-mapper.cpp:33-37 | the text of a concrete record: path, host path and symbol path, each in quotes, and a newline |
| PathCache.OneMisfit | src/parser/ipt-model/sat-caching-path-mapper.cpp:45-46 | one record that is too long is enough to fail |
| Getline.Quote | src/parser/common/sat-getline.cpp:58-79 | writes the escaped form of each character between quotes |
| Getline.Stream.Dequote | src/parser/common/sat-getline.cpp:81-111 | reads what the specification reads and leaves the stream after it; fails exactly when that does |
| Getline.RoundTrip | src/parser/common/sat-getline.cpp:58-111 | dequoting what was quoted gives the string back and consumes exactly its text |
| Getline.RoundTripAll | src/parser/common/sat-getline.cpp:58-111 | as many calls of dequote as there are strings read any list back from its concatenated quoted forms, and consume exactly that text |
| Getline.QuotedHasNoNewline | src/parser/common/sat-getline.cpp:67-69 | quoted text holds no raw newline |
| Getline.DequotedExactly | src/parser/common/sat-getline.cpp:81-111 | a string is read from a text if and only if the text is white space, a quote, a spelling of the string in which quotes and backslashes are escaped, a quote, and the rest |
| Getline.HeldIsRead | src/parser/common/sat-getline.cpp:81-111 | a given spelling of a string, with white space before it, is read as that string |
| Getline.QuotedIsSpelling | src/parser/common/sat-getline.cpp:58-79 | what is written is a spelling of the string between two quotes, and nothing is escaped that need not be |
| Getline.TruncatedIsMalformed | src/parser/common/sat-getline.cpp:81-111 | no proper prefix of a quoted string is accepted |
| DecoderStack.CallStack.Push | src/parser/ipt-model/sat-call-stack.cpp:35-43 | the new state of the stack in use, its peak and the maximum depth |
| DecoderStack.CallStack.Pop | src/parser/ipt-model/sat-call-stack.cpp:45-62 | the new state, and the address popped, 0 if there was none; a return on an empty stack lowers offset and low-water mark unless the decoder is lost |
| DecoderStack.CallStack.CheckForMaxDepth | src/parser/ipt-model/sat-call-stack.cpp:27-33 | the maximum depth is raised to the spread of the stack in use |
| DecoderStack.CallStack.Clear | src/parser/ipt-model/sat-call-stack.h:42 | stack, offset and peak are reset, the low-water mark stays |
| DecoderStack.CallStack.TempStackEnable | src/parser/ipt-model/sat-call-stack.h:43 | switches to the other stack and clears it |
| DecoderStack.CallStack.TempStackDisable | src/parser/ipt-model/sat-call-stack.h:44 | switches back, changing neither stack |
| DecoderStack.RunKeepsInv | src/parser/ipt-model/sat-call-stack.cpp:27-62 | after every run the low-water mark is at most the offset and at most 0, the peak bounds the depth, and the maximum depth bounds the spread of both stacks |
| DecoderStack.DepthIsNet | src/parser/ipt-model/sat-call-stack.h:45 | the depth is the number of calls minus the number of returns since the last clear |
| DecoderStack.StackIsPendingCalls | src/parser/ipt-model/sat-call-stack.cpp:35-62 | the stack holds exactly the return addresses of the calls that are not returned from, in order |
| DecoderStack.LowWaterMarkIsLeastDepth | src/parser/ipt-model/sat-call-stack.cpp:48-54 | the low-water mark is the least depth the run has had, and that depth was reached, also across clears |
| DecoderStack.MaxDepthBoundsSpread | src/parser/ipt-model/sat-call-stack.cpp:27-33 | no depth since the last clear is further above the low-water mark than the maximum depth |
| DecoderStack.PeakIsGreatestDepth | src/parser/ipt-model/sat-call-stack.cpp:35-43 | the peak is the greatest depth since the last clear |
| DecoderStack.MaxDepthIsGreatestSpread | src/parser/ipt-model/sat-call-stack.cpp:27-33 | the maximum depth is the greatest spread from low-water mark to peak that there ever was, or what it was at first if that is greater |
| DecoderStack.LostReturnStaysUp | src/parser/ipt-model/sat-call-stack.cpp:45-62 | a return while the decoder is lost is any other one, except that it does not go below the stack |
| DecoderStack.MaxDepthGrows | src/parser/ipt-model/sat-call-stack.cpp:29-32 | the maximum depth never goes down |
| DecoderStack.EmittedLevelsAreNonNegative | src/parser/ipt-model/sat-ipt-instruction.h:102-141 | every level that was written, of instructions and of calls, is at least the final low-water mark |
| DecoderStack.TempStackIsSeparate | src/parser/ipt-model/sat-call-stack.h:42-44 | what happens on the temporary stack leaves the original one alone |
| Decoder.Context.Tip | src/parser/ipt-model/sat-ipt-instruction.cpp:32-304 | the state after one step of any class of instruction, and whether the packet is used up |
| Decoder.Context.Call | src/parser/ipt-model/sat-ipt-instruction.cpp:118-166 | a direct call: FUP, relocation, call to the next instruction, and the return address that is saved |
| Decoder.Context.Return | src/parser/ipt-model/sat-ipt-instruction.cpp:232-273 | a return: compressed with a TNT bit, or by TIP, or lost |
| Decoder.Context.FupCheck | src/parser/ipt-model/sat-ipt-instruction.h:234-245 | a FUP is due when no TNT bit is left and execution is at its address, and is then taken |
| Decoder.Context.GetLost | src/parser/ipt-model/sat-ipt-instruction.h:44-51 | getting lost drops the TNT bits and leaves the call stack alone |
| DecoderPath.GetsLostExactly | src/parser/ipt-model/sat-ipt-instruction.cpp:67-273 | the decoder gets lost exactly at code it cannot decode and, unless it goes where a FUP led, at a branch without a bit, a patched call that cannot be resolved, and a compressed return that was not taken or has nowhere to go; it then forgets its bits and the system call |
| DecoderPath.SyscallIsCall | src/parser/ipt-model/sat-ipt-instruction.cpp:208-230 | a system call is an indirect call that is noted |
| DecoderPath.IgnoredCallIsJump | src/parser/ipt-model/sat-ipt-instruction.cpp:118-166 | where calls are ignored, a call that was not patched is a jump |
| DecoderPath.PatchedCallIsCall | src/parser/ipt-model/sat-ipt-instruction.cpp:124-133 | a call that the loader patched is the call it was patched to |
| DecoderPath.DecodeTrace | src/parser/ipt-model/sat-ipt-instruction.cpp:32-304 | given the packets that a processor with a 64-entry return stack emits for any path of branches, calls, returns and returns from interrupts that is interrupted anywhere and ends in a TIP packet, the decoder visits exactly that path; where it is interrupted, the processor must not have come by since its last packet |
| DecoderPath.InterruptionTakesPackets | src/parser/ipt-model/sat-ipt-instruction.h:234-245 | at the address of a FUP packet, when its bits are used up, the decoder goes on at the TIP packet's address and keeps its call stack |
| DecoderPath.NotDue | src/parser/ipt-model/sat-ipt-instruction.h:234-245 | it does so at no earlier step of the path |
| DecoderPath.RoundsLookAlike | src/parser/ipt-model/sat-ipt-instruction.h:234-245 | a loop without packets that is interrupted in its second round has the same packets as one interrupted in its first, and the decoder takes the first |
| DecoderPath.ReturnStackStaysOnTop | src/parser/ipt-model/sat-ipt-instruction.cpp:118-273 | the processor's bounded return stack stays the top of the decoder's call stack |
| DecoderPath.StepFollowsPath | src/parser/ipt-model/sat-ipt-instruction.cpp:32-273 | one step goes to the next address of the path, uses up exactly the packets of that step, and is done with a TIP packet exactly when the processor emitted it for this step |
| DecoderPath.StepTakesPackets | src/parser/ipt-model/sat-ipt-instruction.cpp:67-273 | one instruction takes exactly its own packets from those at hand and goes where the processor went |
| DecoderPath.ExecuteUntilTip | src/parser/ipt-model/sat-ipt-instruction.h:232 | stepping until the packet is used up stays on the path, and stops |
| DecoderPath.DecodePacket | src/parser/ipt-model/sat-ipt-instruction.h:232 | a TNT bit is buffered, a FUP packet's address is kept, a TIP packet makes the decoder execute; in each case it stays on the path |
| DecoderPath.EndingInTipEmits | src/parser/ipt-model/sat-ipt-instruction.cpp:175-209 | a path that ends in a TIP packet has one as the last packet of its trace |
| Heuristics.SchedulingHeuristics.ApplyTip | src/parser/ipt-model/sat-ipt-scheduling-heuristics.cpp:131-181 | the loop matches a scheduler TIP with the last scheduling at or before it, the very last one only if that is strictly before; it fails exactly if there is none |
| Heuristics.SchedulingHeuristics.ApplyOvf | src/parser/ipt-model/sat-ipt-scheduling-heuristics.cpp:192-221 | what an overflow does to the schedulings at it and just before it |
| Heuristics.SchedulingHeuristics.Apply | src/parser/ipt-model/sat-ipt-scheduling-heuristics.cpp:129-227 | the schedulings after all packets of the trace, unless a scheduler TIP comes before the first scheduling |
| Heuristics.AppliedKeepsRecords | src/parser/ipt-model/sat-ipt-scheduling-heuristics.cpp:129-226 | a scheduling that was matched never changes again, and a packet changes no other field than the match |
| Heuristics.FirstTip | src/parser/ipt-model/sat-ipt-scheduling-heuristics.cpp:131-181 | the first scheduler TIP in the window from a scheduling's own offset to the next one's |
| Heuristics.TipEarmarksWindow | src/parser/ipt-model/sat-ipt-scheduling-heuristics.cpp:139-181 | a TIP matches an unmatched scheduling exactly when it falls in its window, and changes no other |
| Heuristics.EarmarkIsFirstTip | src/parser/ipt-model/sat-ipt-scheduling-heuristics.cpp:129-226 | over all packets, a scheduling is matched if and only if some scheduler TIP falls in its window, and then with the offset of the first one, and with the time there unless it is the last scheduling or that is not known |
| Heuristics.MatchKeepsOrder | src/parser/ipt-model/sat-ipt-scheduling-heuristics.cpp:129-226 | matched offsets strictly increase, and each lies at or after where its scheduling was recorded and before where the next one was |
| Heuristics.SchedulingHeuristics.GetFirstQuantumStart | src/parser/ipt-model/sat-ipt-scheduling-heuristics.cpp:315-331 | the first matched scheduling, if there is one |
| Heuristics.SchedulingHeuristics.IterateQuantums | src/parser/ipt-model/sat-ipt-scheduling-heuristics.cpp:333-387 | the quanta that are reported |
| Heuristics.QuantaChain | src/parser/ipt-model/sat-ipt-scheduling-heuristics.cpp:333-387 | the quanta chain from end to start, up to the greatest time, exactly when the schedulings after the first time stamp come last in the list |
| Heuristics.QuantaOfThreads | src/parser/ipt-model/sat-ipt-scheduling-heuristics.cpp:333-387 | where just the first schedulings are not after the first time stamp, each quantum runs from one scheduling to the next, from the last of these on, in time, position and whether that is known, with the thread that was scheduled in at its beginning; if there are none, the initial thread comes first; the last quantum is open-ended |
| Heuristics.QuantaExactly | src/parser/ipt-model/sat-ipt-scheduling-heuristics.cpp:333-387 | whatever the order: one quantum ends at each scheduling after the first time stamp and begins at the one before that in the list |
| Heuristics.LateOnesAreAll | src/parser/ipt-model/sat-ipt-scheduling-heuristics.cpp:350 | those schedulings are all that are after the first time stamp, in the order of the list |
| Heuristics.OverflowsMark | src/parser/ipt-model/sat-ipt-scheduling-heuristics.cpp:192-221 | over all packets, a scheduling that no TIP matches is marked by an overflow if and only if one comes where it was recorded or before the next one was, and then has the offset of such a one |
| Heuristics.QuantaUpToChain | src/parser/ipt-model/sat-ipt-scheduling-heuristics.cpp:343-379 | the quanta reported so far chain, and the next one continues them, exactly when the late schedulings so far come last |
| IptFile.IptFile.SkipToFirstQuantum | src/parser/ipt-model/sat-ipt-file.cpp:92-131 | blocks wholly before the first quantum go, and the block it begins in is trimmed and labelled; all others stay |
| IptFile.IptFile.TakeBlock | src/parser/ipt-model/sat-ipt-file.cpp:186-196 | a block that ends within the quantum is labelled with its thread |
| IptFile.IptFile.SplitBlock | src/parser/ipt-model/sat-ipt-file.cpp:199-221 | a block that the quantum ends in is cut there |
| IptFile.IptFile.TakeBlocks | src/parser/ipt-model/sat-ipt-file.cpp:182-239 | the loop ends, with the quantum's blocks labelled before the iterator and the rest after it |
| IptFile.IptFile.SplitQuantum | src/parser/ipt-model/sat-ipt-file.cpp:149-342 | the blocks of one quantum between its schedule-in and schedule-out |
| IptFile.IptFile.Split | src/parser/ipt-model/sat-ipt-file.cpp:149-342 | the whole list after all quanta |
| IptFile.CutKeepsOrder | src/parser/ipt-model/sat-ipt-file.cpp:182-239 | TRACE blocks stay in order and apart; what is left begins at or after the end of the quantum |
| IptFile.CutKeepsBytes | src/parser/ipt-model/sat-ipt-file.cpp:182-239 | no trace byte is lost or repeated by a quantum |
| IptFile.SplitKeepsBytes | src/parser/ipt-model/sat-ipt-file.cpp:149-342 | no trace byte is lost or repeated by any number of quanta, and the bytes stay in order |
| IptFile.IptFile.CutAtQuanta | src/parser/ipt-model/sat-ipt-file.cpp:68-342 | from the blocks and the schedulings to the list at the end: it fails exactly if no scheduling was matched, or no block is left after the skip to the first one that was |
| IptFile.CutTakesPieces | src/parser/ipt-model/sat-ipt-file.cpp:182-239 | from blocks that begin at or after the start of a quantum, what the quantum takes lies between its start and its end and carries its thread |
| IptFile.PartIsLaidOut | src/parser/ipt-model/sat-ipt-file.cpp:149-342 | what comes of a quantum reads IN, TRACE blocks between the quantum's start and its end, and OUT unless it is open-ended, if and only if all that it takes is such a block |
| IptFile.QuantumIsLaidOut | src/parser/ipt-model/sat-ipt-file.cpp:149-342 | so it is where every block begins at or after the start of the quantum; IN and OUT are at its start and its end, with the times known there |
| IptFile.RemainingIsOrdered | src/parser/ipt-model/sat-ipt-file.cpp:149-342 | what is left after any number of quanta is ordered and begins where the last one ended; nothing is left after an open-ended one |
| IptFile.BytesIncrease | src/parser/ipt-model/sat-ipt-file.cpp:199-221 | blocks in order and apart have no byte twice |
| WholeTrace.TraceIsCutAtQuanta | src/parser/ipt-model/sat-ipt-file.cpp:68-342 | from the ordered list before the skip, with quanta as the schedulings give them: every quantum comes to be laid out, its TRACE blocks between its start and its end, and the bytes in the final list are exactly those from the first quantum's position on, if and only if that position fits the blocks and the first quantum that is reported begins no later than the blocks that are left |
| WholeTrace.ResultKeepsBytes | src/parser/ipt-model/sat-ipt-file.cpp:149-342 | with an open-ended last quantum nothing is left over, and the final list has every byte of the ordered list it was cut from once, in increasing order |
| WholeTrace.AllAreLaidOut | src/parser/ipt-model/sat-ipt-file.cpp:149-342 | over chained quanta every part is laid out if and only if the first quantum begins no later than the blocks it takes |
| WholeTrace.InvertedIsNotLaidOut | src/parser/ipt-model/sat-ipt-file.cpp:149-342 | a first block that is empty or upside down ends up in some quantum's part, which is then not laid out |
| WholeTrace.SkippedIsOrdered | src/parser/ipt-model/sat-ipt-file.cpp:92-131 | what the skip leaves of an ordered list is ordered if and only if no block is trimmed or the position of the first quantum is before the end of the trimmed one |
| WholeTrace.TrimsWhatSpans | src/parser/ipt-model/sat-ipt-file.cpp:92-113 | of the first block that does not end by the time of the first quantum what comes before that is cut off if the block begins before it; blocks after it stay as they are |
| WholeTrace.NothingIsLeft | src/parser/ipt-model/sat-ipt-file.cpp:92-100 | where all blocks end by then, none is left |
| WholeTrace.KeptBytesAreLeft | src/parser/ipt-model/sat-ipt-file.cpp:105-113 | of the blocks that are kept the skip leaves, in order, exactly the bytes from the position on if and only if the position is within the block that is trimmed |
| WholeTrace.SkipLeavesTheRest | src/parser/ipt-model/sat-ipt-file.cpp:92-131 | of all blocks the skip leaves, in order, exactly the bytes from the position on if and only if the position is before the end of the trimmed block with no position missing up to its beginning, or, if none is trimmed, between the blocks that go and those that stay |
| WholeTrace.DroppedBytesCanComeBack | src/parser/ipt-model/sat-ipt-file.cpp:105-113 | concrete blocks where the position is before the trimmed block and yet exactly the bytes from the position on are left, as a dropped block had the ones in between |
| WholeTrace.PositionCanMisfit | src/parser/ipt-model/sat-ipt-file.cpp:105-113 | concrete positions before and after the block that is trimmed: one makes it cover bytes that no block had, one leaves it upside down |
| WholeTrace.EqualTimesMislay | src/parser/ipt-model/sat-ipt-file.cpp:137-142 | two schedulings recorded at different times that the packets of the trace match and give one time stamp: the bytes of the first are labelled with the thread of the second |
| WholeTrace.FirstStart | src/parser/ipt-model/sat-ipt-scheduling-heuristics.cpp:333-387 | the first quantum that is reported begins at the last scheduling that is not after the first time stamp |
| WholeTrace.RisingTimesFit | src/parser/ipt-model/sat-ipt-file.cpp:105-142 | where time stamps rise from scheduling to scheduling and a block is trimmed, the quanta chain and the first one begins where the blocks do |
| Heuristics.LateOnesLastMeans | src/parser/ipt-model/sat-ipt-scheduling-heuristics.cpp:343-379 | the schedulings after the first time stamp come last if and only if just some first ones are not after it |
| TraceThreads.TraceCarriesThreads | src/parser/ipt-model/sat-ipt-file.cpp:68-342 | from the list before the skip, with the quanta that the schedulings give: where the position of the first quantum fits, every TRACE block of the final list lies between a scheduling and the next one and carries the thread that the first of these scheduled in |
| TraceThreads.BlocksCarryThreads | src/parser/ipt-model/sat-ipt-file.cpp:149-342 | every TRACE block of the final list lies between a scheduling and the next one and carries the thread that the first of these scheduled in |
| TraceThreads.EveryByteHasItsThread | src/parser/ipt-model/sat-ipt-file.cpp:149-342 | where positions do not go back, a byte between a scheduling and the next one is in a block of the thread that was scheduled in there |
| TraceThreads.BlocksKeepTheirTimes | src/parser/ipt-model/sat-ipt-file.cpp:92-342 | every TRACE block of the final list begins and ends where and when a block of the list before the skip does, or where and when a matched scheduling is |
| Merge.Merge | src/parser/intermediate/sat-merge.cpp:64-91 | the merge ends; its output is an interleaving of the inputs, each complete and in its own order, and is sorted if the inputs are |
| Merge.FindTwoLeast | src/parser/intermediate/sat-merge.cpp:73-80 | the inputs with the least and the next to least time stamp |
| Merge.MergingAfter | src/parser/intermediate/sat-merge.cpp:82-87 | writing the least head keeps the output an interleaving so far, and sorted if the inputs are |
| Merge.StillLeast | src/parser/intermediate/sat-merge.cpp:87 | as long as the head is not after the next input's, it is still the least of all |
| Merge.AppendToTask | src/parser/ipt-model/sat-ipt-collection.cpp:192-202 | the block goes to its own task, which is created if need be |
| Merge.MergeIntoTasks | src/parser/ipt-model/sat-ipt-collection.cpp:173-212 | the blocks of all files come out as an interleaving, sorted if the files are, and each task has exactly its own blocks in that order |
| Merge.EveryBlockInOneTask | src/parser/ipt-model/sat-ipt-collection.cpp:192-202 | every block is in exactly one task, its own |
| Merge.TaskIsSorted | src/parser/ipt-model/sat-ipt-collection.cpp:173-212 | a task's blocks are sorted if the files' are |
| CallAccounting.CallStack.Push | src/parser/intermediate/sat-intermediate.cpp:198-210 | the new state: the call is on the stack, one level below the next |
| CallAccounting.CallStack.SwitchOutLine | src/parser/intermediate/sat-intermediate.cpp:237-252 | what is charged to a call as time in its thread |
| CallAccounting.CallStack.Pop | src/parser/intermediate/sat-intermediate.cpp:212-235 | the loop ends in the specified state, with every popped call filled in |
| CallAccounting.CallStack.SwitchOut | src/parser/intermediate/sat-intermediate.cpp:254-260 | every call on the stack is charged |
| CallAccounting.CallStack.SwitchIn | src/parser/intermediate/sat-intermediate.cpp:262-273 | the time since the switch out is added to every call's time out of thread |
| CallAccounting.CallTimesAreExact | src/parser/intermediate/sat-intermediate.cpp:212-273 | over every run, the times of a popped call add up to the time between call and return, and its time in thread is the number of scheduled ticks in between |
| CallAccounting.RunIsExact | src/parser/intermediate/sat-intermediate.cpp:194-273 | over every run, calls on the stack and completed calls alike are charged exactly, tick by tick |
| CallAccounting.PopRemovesExactly | src/parser/intermediate/sat-intermediate.cpp:212-235 | a pop removes exactly the calls at its level and above if and only if there is nothing to pop, or a call is at just that level, or none is below it |
| CallAccounting.PopCanTakeTheCaller | src/parser/intermediate/sat-intermediate.cpp:212-235 | a concrete run, with a call that skips levels, after which a return also takes the call below off the stack |
| CallAccounting.PopOfContiguous | src/parser/intermediate/sat-intermediate.cpp:212-235 | if every call is one level above its caller, a pop removes exactly the calls at its level and above |
| CallAccounting.StackIsPending | src/parser/intermediate/sat-intermediate.cpp:377-400 | over every run whose calls are made at the current level, the stack holds exactly the calls that no later line has returned from |
| CallAccounting.NoCallIsLost | src/parser/intermediate/sat-intermediate.cpp:198-235 | over every run each call is on the stack or filled in, exactly once |
| Normalizer.OutputQueue.FlushLine | src/parser/intermediate/sat-intermediate.cpp:379-400 | the call stack is told of the line: a return to a lower level pops, a call is pushed |
| Normalizer.OutputQueue.Flush | src/parser/intermediate/sat-intermediate.cpp:324-365 | the lines of the batch are written in order with their new times |
| Normalizer.OutputQueue.FlushProportionally | src/parser/intermediate/sat-intermediate.cpp:335-355 | the loop that is one line behind writes each line with the time of the one after it as its end |
| Normalizer.OutputQueue.Add | src/parser/intermediate/sat-intermediate.cpp:312-322 | lines of one time stamp make up a batch |
| Normalizer.CpuData.Parse | src/parser/intermediate/sat-intermediate.cpp:459-520 | the state after each kind of input line |
| Normalizer.StampedInOrder | src/parser/intermediate/sat-intermediate.cpp:335-341 | times within a batch do not go back, begin at the batch's time stamp, stay at or before the next one, and are within half a tick of the exact proportional value |
| Normalizer.GapsSumToSpan | src/parser/intermediate/sat-intermediate.cpp:341-355 | the times that lines take add up to the batch's, and an executed block is written with its own |
| Normalizer.BatchItem | src/parser/intermediate/sat-intermediate.cpp:335-361 | line `k` of a batch is written as the `k`th, with its time, or as it is if the batch has no instructions |
| Normalizer.OutputIsSorted | src/parser/intermediate/sat-intermediate.cpp:459-520 | whatever the input, the lines and switches of a thread come out in order of time |
| Normalizer.TimesOfCallsAreExact | src/parser/intermediate/sat-intermediate.cpp:459-520 | for input whose switches are by turns and in which no new time stamp comes while the thread is out and lines wait for it, the times written for every call are exact |
| NormalizerExample.ChargedWhileOut | src/parser/intermediate/sat-intermediate.cpp:459-520 | concrete input in which a thread is scheduled out twice with the same time stamp: a call is written with 15 ticks in its thread that had 10 |
| Normalizer.OutputIsLegalExactly | src/parser/intermediate/sat-intermediate.cpp:459-520 | for any input, what reaches the call stack has its switches by turns and lines only while the thread runs, if and only if the switches of the input are by turns and no new time stamp comes while the thread is out and lines wait for it |
| NormalizerLines.LinesAreWritten | src/parser/intermediate/sat-intermediate.cpp:304-520 | for any input, the lines written and then those that wait are those of the input, in order and none else, each of the kind and level given and with the count given, 1 for a call and 0 for a remark; a line is written once a new time stamp has come after it, at a time between the one before it and that; the switches written are those of the input at the time before them |
| Normalizer.ParserKnows | src/parser/intermediate/sat-intermediate.cpp:443-520 | for any input, the parser's time is the latest time stamp, and lines wait in it, in the queue or pending, if and only if one came since the last new time stamp |
| BufferPool.Pool.RequestTraceBuffer | src/kernel-module/sat-buffer.c:91-103 | the next id, or -1 when there is none |
| BufferPool.Trace.ResetTraceBuffers | src/kernel-module/sat-buffer.c:105-121 | the loop clears the arrays, and the first buffer is requested |
| BufferPool.Timers.Start | src/kernel-module/multi-buffer.c:170-182 | a started CPU has cleared buffers and a first id, and tracing is active |
| BufferPool.Timers.Commit | src/kernel-module/multi-buffer.c:88-109 | under the lock the offset is recorded and the new buffer entered; nothing changes if tracing was stopped meanwhile |
| BufferPool.Timers.Stop | src/kernel-module/multi-buffer.c:184-204 | the offset is recorded unless one is, and tracing is inactive for all |
| BufferPool.RunKeepsInv | src/kernel-module/multi-buffer.c:67-204 | after every step of every interleaving: the ids in traces, in flight and leaked are exactly those the pool gave, each once; sizes are sums of offsets |
| BufferPool.NoBufferIsShared | src/kernel-module/multi-buffer.c:88-104 | in every interleaving no buffer is held twice, neither by two CPUs nor by one |
| BufferPool.CommitIsInBounds | src/kernel-module/multi-buffer.c:100-104 | a buffer that the pool gave always has a place in the trace's arrays |
| BufferPool.SizeIsSumOfOffsets | src/kernel-module/multi-buffer.c:96-99 | a CPU's size is the sum of the offsets recorded for its buffers up to the active one |
| PoolLog.TraceIsStory | src/kernel-module/multi-buffer.c:67-204 | in every interleaving, read off the events: the arrays of a started CPU hold the buffers that its start and its callbacks got, in order, each with the offset that a callback or the stop reported for it, and nothing after these; the size is their sum, and the pool's index, the timer, a callback's buffer and whether tracing goes on are as the events say |
| PoolLog.StopRecords | src/kernel-module/multi-buffer.c:184-204 | in every interleaving a stop records its offset for the buffer in use, and adds it to the size, exactly if nothing was recorded there; all else of the trace stays, and tracing goes on nowhere |
| BufferPool.IdsAreOfThePool | src/kernel-module/sat-buffer.c:105-121 | in every interleaving the ids of a started CPU up to the active one are ids of the pool if and only if the pool was not exhausted when the CPU was last started; if it was, the only one is -1 |
| BufferPool.FirstIdStays | src/kernel-module/multi-buffer.c:88-109 | the first id of a CPU stays what the pool gave when it was last started |
| BufferPool.NothingIsOverwritten | src/kernel-module/multi-buffer.c:96-99 | a callback records its offset where none is recorded, so each buffer's is recorded once |
| BufferPool.StepMoves | src/kernel-module/multi-buffer.c:88-107 | what a step adds to what its CPU holds and to what leaked is exactly what it takes from the pool |
| StreamReader.Reader.Read | src/kernel-module/sat-tracer.c:653-706 | a read gives exactly that slice of the used parts of the buffers, one after the other, and the position after it; it fails exactly for no bytes at the start, and looks outside the pool exactly for a CPU without a buffer |
| StreamReader.Reader.FindStart | src/kernel-module/sat-tracer.c:671-683 | the buffer that the position is in and the offset in it, or the start of the first one if the position is past the data |
| StreamReader.Reader.CopyFrom | src/kernel-module/sat-tracer.c:685-701 | the loop over buffers copies up to the count or the end of the data, unless the CPU has no buffer and bytes are asked for |
| StreamReader.CpuHasBuffers | src/kernel-module/sat-tracer.c:685-695 | in every interleaving a started CPU has only buffers of the pool, so that a read stays within the pool, if and only if the pool had one left when the CPU was last started; otherwise it has none |
| StreamReader.StreamAt | src/kernel-module/sat-tracer.c:685-701 | byte for byte: the stream has the used part of each buffer after those of the buffers before it |
| StreamReader.StreamLength | src/kernel-module/sat-tracer.c:703-704 | the size that the callbacks add up is the length of that stream |
| Memory.ReadsReassemble | src/kernel-module/sat-tracer.c:653-706 | reads one after the other give what one read of the same length gives |
| Memory.WholeStream | src/kernel-module/sat-tracer.c:653-706 | reads that ask for enough in all give the whole stream, in whatever pieces |
| SidebandRing.Sideband.Reset | src/kernel-module/sideband_tracer.c:144-153 | each half begins with the header |
| SidebandRing.Sideband.Trace | src/kernel-module/sideband_tracer.c:252-274 | a message that fits is appended; in a ring the halves switch when the trigger is reached |
| SidebandRing.Sideband.GetData | src/kernel-module/sideband_tracer.c:61-98 | the slice of the inactive half followed by the active one, and the total size; for a start past the end, the negative length of the copy |
| SidebandRing.ContentsAreSuffix | src/kernel-module/sideband_tracer.c:252-274 | the log is always the end of everything written since the reset, cut between two messages; without a ring it is all of it |
| SidebandRing.LogIsSuffix | src/kernel-module/sideband_tracer.c:252-274 | where the cut and the border between the halves are |
| SidebandRing.NoneRefused | src/kernel-module/sideband_tracer.c:255-273 | a ring refuses no message that is at most the buffer's size less the trigger |
| SidebandRing.NeverRefusedExactly | src/kernel-module/sideband_tracer.c:255 | a message fits whatever the active half holds below the trigger if and only if it is at most the buffer's size less the trigger |
| SidebandRing.ActiveBelowTrigger | src/kernel-module/sideband_tracer.c:263-272 | the active half of a ring is always below the trigger |
| SidebandRing.HoldsATriggersWorth | src/kernel-module/sideband_tracer.c:263-272 | from the first switch on the inactive half is at least as long as the trigger |
| SidebandRing.CopyIsInBounds | src/kernel-module/sideband_tracer.c:90-96 | the length of the last copy is not negative exactly for readers that start within the log or at its end |
| SidebandRing.ReaderIsLeftBehind | src/kernel-module/sideband_tracer.c:263-272 | a message that makes the halves switch and is shorter than the half that goes leaves a reader at the old end of the log past the new one, and its next copy has a negative length |
| SidebandRing.ReaderPastTheEnd | src/kernel-module/sideband_tracer.c:90-96 | so it is after three concrete messages, with the length that is asked for |
| SidebandParser.Peek | satt/common/sbparser/satparser.py:124-310 | a message is only found if all its bytes are there |
| SidebandParser.MessageExactly | satt/common/sbparser/satparser.py:139-310 | a message is found if and only if its size is between 24 and 288, its bytes are all there, its type is one that is unpacked, and the rest is as long as the format of that type takes |
| SidebandParser.EndExactly | satt/common/sbparser/satparser.py:139-310 | otherwise parsing ends well exactly at the end of the input, with an error exactly at a size that cannot be or an unknown type, and with an exception in the other cases |
| SidebandParser.LayoutIsFormat | satt/common/sbparser/satparser.py:158-303 | the sizes are what `struct.calcsize` gives for the format of each type |
| SidebandParser.FileExactly | satt/common/sbparser/satparser.py:120-136 | a file that begins with "SATS" has a version string of 12 bytes with a number up to 4 at its end and then its messages, or there is an exception; any other file has its messages from the start |
| SidebandParser.StampIsFirstField | satt/common/sbparser/satparser.py:158-310 | the time stamp is the eight bytes after size and type, low-order word first |
| SidebandParser.Input.Read | satt/common/sbparser/sbcombiner.py:60-69 | up to that many bytes; the end is noticed when nothing is left |
| SidebandParser.Parser.ParseFrame | satt/common/sbparser/satparser.py:138-310 | one message: its size, its type, its body, and which of the ways to fail applies |
| SidebandParser.Parser.ParseMessage | satt/common/sbparser/satparser.py:115-136 | the version string on the first call, a message otherwise |
| SidebandParser.Parser.Parse | satt/common/sbparser/satparser.py:97-104 | the loop hands over exactly the messages of the file, and ends as specified |
| SidebandParser.BinaryDumper.HeaderAndBinary | satt/common/sbparser/sbcombiner.py:42-49 | the message is kept under the first key from its time stamp on that is not in use, and no other is overwritten |
| SidebandParser.FreeKey | satt/common/sbparser/sbcombiner.py:43-48 | the least key from the time stamp on that is not in use |
| Combiner.Combine | satt/common/sbparser/sbcombiner.py:89-104 | the output is the first 12 bytes of the first file and then every message of every file exactly once, by rising key; there is none exactly when parsing some file raises an exception |
| Combiner.Dump | satt/common/sbparser/sbcombiner.py:102-103 | messages are written in the order of their keys |
| Combiner.KeysDiffer | satt/common/sbparser/sbcombiner.py:43-49 | no two messages have the same key |
| Combiner.KeysKeepOrder | satt/common/sbparser/sbcombiner.py:43-49 | messages whose stamps are in order get keys in that order, whatever else arrived |
| Combiner.OutputKeepsOrder | satt/common/sbparser/sbcombiner.py:89-104 | messages of one CPU are written in the order they were logged wherever their stamps do not go back |
| Combiner.OutputParsesExactly | satt/common/sbparser/sbcombiner.py:96-103 | parsing the output gives exactly the messages in the order they were written, and all of it, if and only if the first file is empty, begins with a whole version string, or has only part of one and there are no messages |
| Combiner.ContentMeansAll | satt/common/sbparser/satparser.py:97-104 | a parser that ends without an error has turned every byte into messages |
| Combiner.OutputWithoutVersion | satt/common/sbparser/sbcombiner.py:96-101 | a first file without one: a concrete file whose output does not read back |
| Hijack.CopyAndFixupInsn | src/kernel-module/external/hijacks.c:40-86 | the bytes in the copy: an operand that leads out of the function is changed, all else is copied |
| Hijack.KernSym.CopyInsns | src/kernel-module/external/hijacks.c:244-261 | the loop over instructions, and where it stops or that it does not decode |
| Hijack.KernSym.PrepareForHijack | src/kernel-module/external/hijacks.c:191-277 | the copy over the memory allocated and what follows that, the saved and the new start of the function, and exactly when each error is returned; where an instruction does not decode, what follows is untouched |
| Hijack.OverrunsExactly | src/kernel-module/external/hijacks.c:244-261 | the loop writes past the memory if and only if an instruction that begins before the end runs past it, which is if and only if the walk ends past it |
| Hijack.CopyWithin | src/kernel-module/external/hijacks.c:224-261 | if it does not, the copy is followed by zeros and then by what was there |
| HijackExample.CopyCanOverrun | src/kernel-module/external/hijacks.c:224-261 | a concrete function of five bytes whose copy has nine |
| Hijack.KernSym.PrepareForHijackPartialCopy | src/kernel-module/external/hijacks.c:279-367 | the copied prefix and the jump after it, the new size, and exactly when each error is returned |
| Hijack.PrefixLength | src/kernel-module/external/hijacks.c:317-350 | prefix and jump fit the storage of a hook |
| Hijack.OffsetArrives | src/kernel-module/external/hijacks.c:30-38 | an instruction leads to the address its offset was made for if and only if the distance fits 32 bits |
| Hijack.CopyDecodes | src/kernel-module/external/hijacks.c:47-86 | wherever an instruction begins in the function, the copy has the same one with its offset fixed up where needed |
| Hijack.OperandKept | src/kernel-module/external/hijacks.c:47-86 | the copy of an instruction refers to the same place, shifted if it is in the function, if and only if it has no relative operand, or that is in the function, or the code fixes it up and the distance fits |
| Hijack.CopyRunsAlike | src/kernel-module/external/hijacks.c:244-261 | a run of the copy goes through the same places as a run of the function, each at its shifted address, and leaves for the same addresses, for any effect that instructions have |
| HijackExample.CopyRunsAlikeApplies | src/kernel-module/external/hijacks.c:244-261 | a concrete decoder and function, a call out of it and a return, that meet all the theorem asks for, and a run of the copy that executes both |
| Hijack.WalkFailsExactly | src/kernel-module/external/hijacks.c:246-256 | instructions do not decode up to the end if and only if there is none where one before the end should begin |
| Hijack.TrimmedIsEmpty | src/kernel-module/external/hijacks.c:228-242 | nothing is left of a function if and only if it is all zeros |
| Hijack.JumpArrives | src/kernel-module/external/hijacks.c:343-350 | for a decoder that knows the jump 0xe9 with a 32-bit offset: what is written decodes to such a jump, and that leads to its destination if and only if the distance fits |
| Hijack.CopyJumpsBack | src/kernel-module/external/hijacks.c:341-350 | what the partial copy has after the prefix decodes to a jump, which leads to what follows the prefix in the function if and only if the distance fits |
| Hijack.CopyRejoins | src/kernel-module/external/hijacks.c:341-350 | so a run of the copy that comes to the end of the prefix goes on in the function after it |
| Hijack.OperandKeptInPartial | src/kernel-module/external/hijacks.c:317-350 | in the partial copy exactly the operands up to the end of the prefix are right within the function |
| HijackExample.PartialCopyCanGoAstray | src/kernel-module/external/hijacks.c:323-341 | a concrete function that begins with a call into its own middle: the partial copy has the same call, which leads elsewhere |
| Hijack.PartialRunsAlike | src/kernel-module/external/hijacks.c:317-350 | a run of the partial copy goes as the function does until it leaves the prefix, and leaves for the same place, past the jump to the hook, by the jump that is decoded after the prefix |
| HijackExample.PartialRunsAlikeApplies | src/kernel-module/external/hijacks.c:317-350 | the same function meets all this theorem asks for, and a run of its partial copy executes the call and goes on in the function after the jump to the hook |
| SymbolIndex.SectionCache.Add | src/parser/disassembler/sat-mmapped.cpp:43-50 | the larger section of one address is kept, empty ones are not |
| SymbolIndex.SectionCache.FindSection | src/parser/disassembler/sat-mmapped.cpp:89-104 | the section with the lowest start that the address is in |
| SymbolIndex.SectionsAreLargest | src/parser/disassembler/sat-mmapped.cpp:43-50 | after any sections were added there is one for each start address at which one that is not empty begins, and it is the first of the largest of these |
| SymbolIndex.FindExactly | src/parser/disassembler/sat-mmapped.cpp:89-104 | a section is found for an address if and only if the address is at or after its start and before its end, and in no section that starts earlier |
| SymbolIndex.UnknownIsInvalid | src/parser/disassembler/sat-mmapped.cpp:190-193 | an object without a size is known not to be a valid symbol, unless it is `_start` |
| SymbolIndex.Find | src/parser/disassembler/sat-mmapped.cpp:89-104 | the first section the address is in; none exactly if it is in no section |
| SymbolIndex.ObjectCache.Add | src/parser/disassembler/sat-mmapped.cpp:134-151 | an object that goes to the end of its section; none for an address outside all sections |
| SymbolIndex.ObjectCache.FixSizes | src/parser/disassembler/sat-mmapped.cpp:153-179 | the loop cuts every object at the start of the next one |
| SymbolIndex.ObjectCache.GetCached | src/parser/disassembler/sat-mmapped.cpp:181-213 | the answer for an offset, given the caller's variables |
| SymbolIndex.AfterAllIsIndex | src/parser/disassembler/sat-mmapped.cpp:134-151 | after all symbols are added there is one entry for each address in a section, with the last name and the section's end |
| SymbolIndex.FixedAreDisjoint | src/parser/disassembler/sat-mmapped.cpp:153-179 | after the sizes are fixed no two objects overlap |
| SymbolIndex.TruncationUncoversNone | src/parser/disassembler/sat-mmapped.cpp:153-179 | fixing the sizes uncovers no address that an object covered, even if sections overlap |
| SymbolIndex.SameSection | src/parser/disassembler/sat-mmapped.cpp:89-104 | a symbol within the section of an earlier one is found in the same section |
| SymbolIndex.LookupIsNearest | src/parser/disassembler/sat-mmapped.cpp:181-213 | a lookup gives the nearest symbol before the offset and the distance if the offset is within that symbol's section, and otherwise nothing, apart from the fallback for `_start` |
| Md5.State.constructor | src/parser/common/md5.c:312-320 | an empty message |
| Md5.State.AddLength | src/parser/common/md5.c:333-337 | the 64-bit length with its carry |
| Md5.CarryIsRight | src/parser/common/md5.c:333-337 | the carry between the two words is right for every length and every addition |
| Md5.State.Append | src/parser/common/md5.c:322-358 | the state stands for the message with the data appended: registers, buffered bytes and length |
| Md5.State.FullBlocks | src/parser/common/md5.c:351-353 | every full block is compressed, in order |
| Md5.State.FillBlock | src/parser/common/md5.c:339-349 | the partial block is filled up, and compressed if it is full |
| Md5.State.Finish | src/parser/common/md5.c:360-381 | the digest is that of RFC 1321 for the message: padding of section 3.1, length of section 3.2, blocks of section 3.4, output of section 3.5 |
| Md5.State.LengthBytes | src/parser/common/md5.c:372-374 | the eight bytes of the length, low-order byte first |
| Md5.DigestOf | src/parser/common/md5.c:322-381 | the digest of a message does not depend on how it is cut into pieces |
| Md5.InitialBytes | src/parser/common/md5.c:315-318 | the initial registers are the bytes that section 3.3 of RFC 1321 gives |
| Md5.OutputIsWords | src/parser/common/md5.c:378-380 | the output is the four registers in order, each low-order byte first, as in section 3.5 |
| Md5.DigestOfShort | src/parser/common/md5.c:360-381 | the digest of a message of less than 56 bytes, as one compression of the initial registers |
| Md5.DigestIsUnique | src/parser/common/md5.c:360-381 | RFC 1321 leaves no choice of padding or length, so there is one digest |

## Left out

- IptFile.IptFile.Split: does not cover quanta whose end has no position (sat-ipt-file.cpp:228-325), where the source cuts at time stamps, drops the bytes it cannot attribute on purpose, and can go on with a time stamp that was never set; the last quantum, which is open-ended, is covered.
- IptFile.IptFile.CutAtQuanta: needs every scheduling that ends a quantum to be matched, as `IptFile.IptFile.Split` does; where no block is left the source goes on and reads past the list, and the model stops. Blocks and their time stamps come from heuristics that are not part of this model; that they are in order is a condition of the theorems.
- WholeTrace.TraceIsCutAtQuanta: needs the schedulings after the first time stamp to be matched and to come last, which is when quanta chain (`Heuristics.QuantaChain`).
- IptFile.Block: has no field for the CPU, which the source sets once and never changes.
- PathCache.RecordIsOneLine: paths are strings of any characters, while the source writes C strings, so that a path with a NUL character in it is cut there.
- PathProtocol.Step: assumes that records fit the line buffer, as `PathCache` has the case that they do not, and that lock file names are a function of the path; the helper's output is arbitrary. That a given process gets its turn is not claimed; that some process does is `PathLocks.NoDeadlock`, for runs that begin with nothing locked and different files for different names.
- DecoderPath.DecodeTrace: does not cover system calls, of which the decoder keeps a return address that the processor does not, nor an interrupted return from an interrupt, for which the source does not look at the FUP, nor the flag under which calls are ignored; `DecoderPath.SyscallIsCall` and `DecoderPath.IgnoredCallIsJump` say what those steps are. Packets that only set the place to start from are left out. The buffer of TNT bits is not among the modelled files and is a queue here.
- DecoderStack.RunKeepsInv: runs have returns while the decoder is not lost; `DecoderStack.CallStack.Pop` covers both.
- Heuristics.SchedulingHeuristics.Apply: stops at a scheduler TIP before the first scheduling, where the source follows an iterator to nothing; that only a TIP matched what was matched before is its condition; the table of time stamps is a function from offsets.
- Merge.Merge: inputs are lists of lines with a time stamp that hold at least one; reading and writing files, lines without a time stamp and failing output are not part of this model.
- CallAccounting.RunIsExact: runs are those in which switches alternate, lines are written while the thread is in, and time does not go back; `Normalizer.OutputIsLegalExactly` says which input leads to such runs.
- Normalizer.TimesOfCallsAreExact: goes one way; where lines come late the times of some calls may still be right, as when there are no calls on the stack.
- CallAccounting.CallStack.Pop: the levels of calls are all that is modelled of a line's columns; `flush` of the remaining calls is never called in the source and not modelled.
- Normalizer.OutputQueue.Flush: times, counts and their product are unbounded numbers; only the differences of 64-bit words wrap around.
- Normalizer.CpuData.Parse: path, symbol and CPU numbers, the text of lines of type `d`, and numbering of lines are left out.
- BufferPool.RunKeepsInv: a run is one session, which begins with the whole pool free and every CPU stopped; writing the machine registers, restarting the timer and the check that a buffer is nearly full are left out, so that a callback may ask for a buffer at any time.
- StreamReader.Reader.Read: a look into the pool at the id -1 ends the read in the model; allocation of one or more bytes succeeds. Offsets are taken to be within their buffers, and a CPU that was never started is not read. The branch that reads a PTI trace is not modelled.
- SidebandRing.Sideband.GetData: copies nothing where the length of the copy is negative, which is undefined in the source; size 0 stands for the whole log, as in the source. Pages are taken to have 4 kB.
- SidebandParser.Parser.Parse: the version is read as four decimal digits, and anything else is an exception; Python also accepts signs and blanks there. Unpacking the fields of a message and handing them on are left out, apart from whether the body has a size that unpacks, and so are read errors.
- Combiner.Combine: opening and writing files always succeeds.
- Hijack.KernSym.PrepareForHijack: the decoder of instructions is given, and assumed to decode an instruction from its own bytes, with no dependence on the bytes of its offset other than the offset; at least a longest instruction's bytes of memory follow what is allocated, and allocation succeeds. Looking up the symbol, page protection and the 32-bit kernel are left out.
- Hijack.CopyRunsAlike: the effect of an instruction may depend on the instruction, on the place of its operand and of the next one, and on the rest of the machine, but not on addresses as numbers.
- SymbolIndex.ObjectCache.Add: the size that the library reports is not used, as in the source; addresses do not wrap around. Flags and target addresses of sections, and the search by name, are left out.
- Md5.State.Append: compression of a block is a function that is given.
- Python's and C++'s ordered containers are sequences in order or maps with sorted keys; logging and messages are left out everywhere.
- Reading ELF, OAT and DEX files, disassembly, the sideband model, the Flask application, data bases, the user interface and device control are not part of this model.
