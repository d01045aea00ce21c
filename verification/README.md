# skynet game server: a verified model

This project models the components of the server that carry its hardest logic and proves what each
promises. It is written in Dafny 4.11; `dafny verify dfyconfig.toml` checks it.

| files | component |
|---|---|
| `Peg`, `Analysis`, `Vm`, `Codegen`, `Fragments`, `CodegenCorrect` | LPeg: the meaning of patterns, the static analyses, the matching machine, and the generated code with its correctness relative to a follow set |
| `Layout`, `Jumps`, `Compiler`, `Matcher` | LPeg: the shape of generated code, jump optimization, the compiler that appends to and patches its code buffer, and the whole path from tree to result |
| `Builders`, `FlatTree` | LPeg: the pattern constructors, and the in-place rewriting of the flat tree array |
| `TimerWheel`, `Timer` | the hierarchical timer with wrapping 32-bit time |
| `Scheduler`, `SchedulerInvariant`, `SchedulerSteps`, `SchedulerSafety`, `SchedulerHistory` | message dispatch: queues, contexts, handles and the global queue as atomic steps of any number of agents |
| `SchedulerFates`, `SchedulerRuns`, `SchedulerTurns` | what becomes of each message, and what the operations and the turns of workers achieve |
| `MessageQueue`, `RwLock`, `RwProgress`, `HandleTable` | the ring buffer, the linked global queue, the spinning read/write lock, and the table of handles and names |
| `SendPath`, `SendInvariant`, `SendSafety`, `SendOrder` | sending on a TCP socket: direct writes against the socket thread |
| `SendProgress`, `SendEnding` | that what waits is written, and that no state of the send path is stuck |
| `Bignum`, `BignumPower`, `BignumDiff`, `Digits` | the big integers of dtoa and the digits they print |
| `SkipLinks`, `SkipNodes`, `SkipDelete`, `SkipRank`, `SkipList` | the span-indexed skip list |
| `SharedTable`, `SharedLookup` | the completely full hash tables of sharedata |
| `KeyExchange` | modular exponentiation without wider words, and the key exchange |
| `WsFrames`, `WsBytes`, `WsFilter`, `WsServe` | the WebSocket filter: streams of many connections cut anywhere, a table of incomplete frames, and a queue |
| `JsonText`, `JsonEnd`, `JsonGrammar`, `JsonCompact`, `JsonCodec` | the JSON writer and parser: strings, UTF-16 escapes, tokens, the texts that are taken, and the buffer with unchecked appends |
| `Common` | options, bytes, powers, numbers in bytes and the order of strings, which the others share |
| `Seri`, `SeriBytes`, `SeriBlocks` | the Lua value serializer: values and bytes, its format in numbers, the list of blocks, and the read cursor |

Where the source changes things in place the model does: classes with fields for the code buffer, the
timer, the rings, the linked queue, the big integers, the skip list, the hash tables, the handle table, the string
and block buffers and the read cursors; loops with invariants; and each method is tied to a function of its inputs
whose properties are lemmas. The scheduler, the send path and the read/write lock are transition systems in which
every lock-protected section and every atomic operation is one step, and the theorems quantify over every
interleaving of any number of threads.

What turned out not to hold, and is proved so:

* A launcher notes that a service is initialised after giving back its own reference
  (`skynet_server.c:163-167`). If the service is killed in between, the note goes to freed memory.
  `SchedulerSafety.LateHappens` is such a run; `Reachable` shows that it is the only fault in any run, if
  registering a handle, creating the queue and assigning `ctx->queue` (`skynet_server.c:153-155`) are taken as one
  step, and `CarefulRuns` that it needs a kill before the end of initialisation.
* `powmodp` does not reduce a base of exactly P (`lua-crypt.c:755` tests `>`), so that for exponent 1 it
  returns P itself. `KeyExchange.WhenPower` gives the exact condition.
* `slGetRank` compares only the member where its search stops, so it may report a rank for a member that is asked
  for with another score (`SkipRank.WrongRank`), and whether it does depends on the random levels
  (`SkipRank.ByHeights`). For distinct members it is right for every choice of levels if and only if no smaller key
  has the member (`SkipRank.RightForAllHeights`); `zset.lua` asks only with the score a member has.
* `skynet_handle_register` never tries the first slot when its search passes the last handle, so it may find a table
  full that is not, and read the handle of an empty slot while it grows. `HandleTable.LateGrowth` is a run from the
  start that ends so at registration 2^22 + 3, with three contexts that stay and one at a time that comes and goes; the
  contract of `HandleTable.HandleStorage.Register` says exactly when it happens.
* The JSON decoder means to refuse further input behind a value, but takes a zero byte for the end and ignores what
  is behind it (`JsonEnd.HiddenRest`): of a text that is taken something is ignored if and only if it has a zero byte
  (`JsonEnd.IgnoredExactly`), and `JsonGrammar.Language` says which texts are taken.
* The WebSocket filter cuts a message longer than 10240 bytes and takes the remainder for frames, so a message that
  `lpack` writes is read back if and only if it is not longer: `WsServe.PackedBack`.

Where documentation and code differ, the model follows the code: `skynet_globalmq_push` asserts that a
queue has no successor, which the last queue of the list has not either; the model requires, and proves, that
the queue is not in the list at all.

## Model

| member | source | states |
|---|---|---|
| `Analysis.NullableSound` | skynet/3rd/lpeg/lpcode.c:196-230 | A pattern that the analysis does not call nullable consumes at least one character wherever it matches. |
| `Analysis.NullableExactly` | skynet/3rd/lpeg/lpcode.c:196-230 | A pattern without look-ahead and look-behind is called nullable exactly if it matches the empty subject. |
| `Analysis.NoFailSound` | skynet/3rd/lpeg/lpcode.c:196-230 | A pattern that the analysis calls no-fail matches everywhere. |
| `Analysis.FixedLenSound` | skynet/3rd/lpeg/lpcode.c:236-275 | Where the analysis gives a length, every match has exactly that length. |
| `Analysis.FirstSound` | skynet/3rd/lpeg/lpcode.c:294-367 | If the next character is outside the computed first set, the pattern fails, or it matches nothing and the character is outside the follow set too. |
| `Analysis.EmptySound` | skynet/3rd/lpeg/lpcode.c:294-367 | A pattern whose first-set result says that it cannot match the empty string fails at the end of the subject. |
| `Analysis.HeadFailSound` | skynet/3rd/lpeg/lpcode.c:377-399 | For a head-fail pattern the first-set result is 0 and the pattern fails exactly at characters outside its first set. |
| `Analysis.NoFailEmpty` | skynet/3rd/lpeg/lpcode.c:294-367 | For a no-fail pattern the first-set result says, before every follow set, that the empty string is possible. |
| `Analysis.NoFailFirst` | skynet/3rd/lpeg/lpcode.c:294-367 | Before a full follow set the first set of a no-fail pattern is full. |
| `Codegen.NoFailNoTest` | skynet/3rd/lpeg/lpcode.c:614-632 | So no test is emitted in front of a no-fail pattern. |
| `CodegenCorrect.GenCorrect` | skynet/3rd/lpeg/lpcode.c:919-944 | For every tree, follow set, outer test and reusable choice entry: running the generated code arrives where the pattern ends with the stack as it was, or backtracks where the pattern fails; it may fail early only where the follow set excludes the next character. |
| `CodegenCorrect.ChoiceByTestSound` | skynet/3rd/lpeg/lpcode.c:677-693 | Choosing an alternative by its first character alone is right: a refused test means that the first alternative fails, and a passed one that the second is not needed. |
| `CodegenCorrect.RepByTestSound` | skynet/3rd/lpeg/lpcode.c:777-800 | Entering the body of a loop by a test alone is right under the conditions of `coderep`. |
| `CodegenCorrect.SpanIsRep` | skynet/3rd/lpeg/lpcode.c:777-785 | `ISpan` does what repeating a character set means. |
| `CodegenCorrect.RepBodyCorrect` | skynet/3rd/lpeg/lpcode.c:777-815 | A loop that reuses the enclosing choice through `IPartialCommit` ends where the repetition ends, with that choice taken. |
| `Layout.GenTidy` | skynet/3rd/lpeg/lpcode.c:919-944 | Generated code decodes from start to end: every label leads to an instruction inside it or to its end, and the only jumps are those of loops and choices. |
| `Jumps.RankDown` | skynet/3rd/lpeg/lpcode.c:641-645 | Following a jump lowers a rank, so chains of jumps end and `finaltarget` terminates. |
| `Jumps.LinkedRuns` | skynet/3rd/lpeg/lpcode.c:956-995 | Code whose labels and jumps have been redirected along jump chains has the same outcome as the original from related states, whatever the run. |
| `Compiler.CompileState.CodeGen` | skynet/3rd/lpeg/lpcode.c:919-944 | The in-place emitter with its patched offsets appends exactly the code that the specification of code generation gives. |
| `Compiler.CompileState.CodeChoice` | skynet/3rd/lpeg/lpcode.c:677-714 | The four layouts of an ordered choice, with all offsets patched. |
| `Compiler.CompileState.CodeRep` | skynet/3rd/lpeg/lpcode.c:777-815 | The three layouts of a repetition, with all offsets patched. |
| `Compiler.CompileState.CodeAnd` | skynet/3rd/lpeg/lpcode.c:720-739 | Both layouts of the and-predicate. |
| `Compiler.CompileState.CodeNot` | skynet/3rd/lpeg/lpcode.c:823-838 | Both layouts of the not-predicate. |
| `Compiler.CompileState.CodeSeq1` | skynet/3rd/lpeg/lpcode.c:899-912 | The first part of a sequence with its follow set, and the test that still protects what comes next. |
| `Compiler.CompileState.FinalTarget` | skynet/3rd/lpeg/lpcode.c:641-645 | Ends at the last address of the jump chain, which is no jump, in the code as optimized so far. |
| `Compiler.CompileState.Peephole` | skynet/3rd/lpeg/lpcode.c:956-995 | After the in-place pass every instruction acts as the original does at the end of its chain and no label leads to a jump. |
| `Matcher.RawRuns` | skynet/3rd/lpeg/lpvm.c:149-294 | Unoptimized code, run from the start state of `match`, halts with the PEG meaning of the pattern. |
| `Matcher.Compile` | skynet/3rd/lpeg/lpcode.c:1001-1010 | The emitted code implements the pattern for every subject, position and stack limit. |
| `Matcher.CompileCorrect` | skynet/3rd/lpeg/lpcode.c:1001-1010 | Any code that is linked to the generated code by jump chains implements the pattern. |
| `Matcher.SmallerStack` | skynet/3rd/lpeg/lpvm.c:66-86 | With a smaller stack limit a run is the same up to a possible overflow error. |
| `Matcher.RunMachine` | skynet/3rd/lpeg/lpvm.c:149-294 | The interpreter loop halts in the state that the step function of the machine reaches. |
| `Matcher.MatchPattern` | skynet/3rd/lpeg/lpvm.c:149-294 | Running code that implements a pattern returns its PEG meaning, and overflows at most if the limit is below the nesting of the pattern. |
| `Matcher.LpMatch` | skynet/3rd/lpeg/lptree.c:1156-1180 | `finalfix`, `compile` and `match` together give the PEG meaning of the pattern from the requested position on, for every position that may be asked for: from the end of the subject for 0 and every index behind it, from its beginning for one too far before the end. |
| `Matcher.InitPosition` | skynet/3rd/lpeg/lptree.c:1138-1150 | Positive indices count from 1, negative ones from the end; 0 and what lies behind the subject are its end, what lies before it its beginning. |
| `Builders.SeqMeaning` | skynet/3rd/lpeg/lptree.c:532-545 | The shortcuts of `lp_seq` keep the meaning of a sequence and well-formedness. |
| `Builders.ChoiceMeaning` | skynet/3rd/lpeg/lptree.c:551-568 | The shortcuts of `lp_choice`, the union of character sets included, keep the meaning of a choice. |
| `Builders.SubMeaning` | skynet/3rd/lpeg/lptree.c:627-646 | `t1 - t2` matches what `t1` matches where `t2` fails, also as a set difference. |
| `Builders.StarMeaning` | skynet/3rd/lpeg/lptree.c:572-602 | `p^n` is refused exactly for n >= 0 and a pattern that may match the empty string; with n >= 0 it matches n times and then as often as it can, with n < 0 as often as it can up to -n times. |
| `Builders.RepIsGreedy` | skynet/3rd/lpeg/lptree.c:572-602 | A repetition is the greedy match with enough turns. |
| `Builders.BehindMeaning` | skynet/3rd/lpeg/lptree.c:680-690 | A look-behind matches exactly where some match of the pattern ends. |
| `Builders.LiteralMeaning` | skynet/3rd/lpeg/lptree.c:401-411 | The sequence that `fillseq` builds matches exactly the string. |
| `Builders.LiteralLength` | skynet/3rd/lpeg/lptree.c:401-411 | A string of any length may be repeated, and looked behind for exactly if it has at most 255 bytes. |
| `FlatTree.RotateKeeps` | skynet/3rd/lpeg/lptree.c:78-94 | Rotation keeps meaning, analyses and size, and ends with a first child of another kind. |
| `FlatTree.FixedKeeps` | skynet/3rd/lpeg/lptree.c:100-120 | The fixed tree means the same, has the same size and leans to the right throughout. |
| `FlatTree.RotateOnce` | skynet/3rd/lpeg/lptree.c:78-94 | One in-place rotation on the flat array turns Op(Op(a,b),c) into Op(a,Op(b,c)) and touches nothing else. |
| `FlatTree.CorrectAssociativity` | skynet/3rd/lpeg/lptree.c:78-94 | The loop terminates and leaves the flat form of the rotated tree in the same place. |
| `FlatTree.FinalFix` | skynet/3rd/lpeg/lptree.c:100-120 | The array holds the flat form of the fixed tree afterwards, and nothing outside is touched. |
| `TimerWheel.SlotStays` | skynet/skynet-src/skynet_timer.c:111-134 | When the time advances, a timer outside the list that is redistributed is filed where it would be filed now. |
| `TimerWheel.MovedGoesDown` | skynet/skynet-src/skynet_timer.c:100-134 | A timer that is redistributed goes to a strictly lower level. |
| `TimerWheel.NearNow` | skynet/skynet-src/skynet_timer.c:74-92 | The list of the current tick is where exactly the timers that expire now are filed. |
| `TimerWheel.SlotByParts` | skynet/skynet-src/skynet_timer.c:74-92 | The list in numbers: by the highest of the parts from bit 8, 14, 20 and 26 on in which expiry and time differ. |
| `TimerWheel.MovedByParts` | skynet/skynet-src/skynet_timer.c:111-134 | Which list is redistributed, in numbers: every 256 ticks the one of the lowest level whose digit of the time is not zero, and after a wrap the first of the highest level. |
| `Timer.Timer.AddNode` | skynet/skynet-src/skynet_timer.c:74-92 | A node goes to the end of the list that its expiry and the time determine; no other list changes. |
| `Timer.FindLevel` | skynet/skynet-src/skynet_timer.c:83-91 | The mask loop finds the level and index of the list. |
| `Timer.FindMoved` | skynet/skynet-src/skynet_timer.c:111-134 | The loop of the shift finds the list that the new time selects for redistribution, if any. |
| `Timer.Timer.MoveList` | skynet/skynet-src/skynet_timer.c:100-108 | Every node of the list goes to the list for its expiry, in order. |
| `Timer.Timer.TimerAdd` | skynet/skynet-src/skynet_timer.c:94-98 | The request is filed on the unwrapped time line, all invariants kept across 32-bit wraparound. |
| `Timer.Timer.TimerShift` | skynet/skynet-src/skynet_timer.c:111-134 | After a shift every timer is in the list that its expiry and the new time determine. |
| `Timer.Timer.TimerExecute` | skynet/skynet-src/skynet_timer.c:154-165 | Exactly the timers due now are dispatched, in the order added; requests made while the lock is released stay for later. |
| `Timer.Timer.TimerUpdate` | skynet/skynet-src/skynet_timer.c:167-180 | One tick: the first dispatch finds nothing, the second dispatches exactly the timers due at the new tick. |
| `Timer.Timer.Timeout` | skynet/skynet-src/skynet_timer.c:204-224 | A timeout that is not positive is told at once, any other is added. |
| `Timer.Run` | skynet/skynet-src/skynet_timer.c:94-180 | Over any run from the start: tick k dispatches exactly the requests whose tick of adding plus delay is k, each once, in the order requested. |
| `SchedulerSafety.StepGood` | skynet/skynet-src/skynet_server.c:296-351 | Every step of every agent keeps the invariant and makes no assertion fail and uses no freed memory; the one exception faults. What the steps achieve is in `SchedulerFates`, `SchedulerRuns` and `SchedulerTurns`. |
| `SchedulerSafety.Reachable` | skynet/skynet-src/skynet_server.c:125-182 | In every state any interleaving reaches, the next step faults if and only if it is a launcher writing `init` to a context that has been freed. |
| `SchedulerSafety.LateHappens` | skynet/skynet-src/skynet_server.c:163-167 | A concrete run in which that happens. |
| `SchedulerSafety.CarefulRuns` | skynet/skynet-src/skynet_server.c:125-182 | If services are killed from outside only after they are initialised, no interleaving faults. |
| `SchedulerSafety.MutualExclusion` | skynet/skynet-src/skynet_server.c:260-284 | No two callbacks of one service, the initial one included, run together. |
| `SchedulerSafety.Scheduled` | skynet/skynet-src/skynet_mq.c:137-250 | A queue is on the global list or with one agent at most once in total; exactly once while it has messages or is released. |
| `SchedulerSafety.Quiescent` | skynet/skynet-src/skynet_server.c:208-227 | When nothing is under way, nothing has leaked: one reference for each registered context, no other context, no released queue, and every accepted message has met its fate, which by `SchedulerFates.RightFate` is the one it had to meet. |
| `SchedulerHistory.HistoryGrows` | skynet/skynet-src/skynet_mq.c:137-237 | Every step extends each queue history at its end; nothing is accepted after release; a freed queue keeps its history and is freed once. |
| `SchedulerHistory.LeavesInOrder` | skynet/skynet-src/skynet_mq.c:137-209 | What has left a queue is a prefix, in order, of what it accepted. |
| `SchedulerFates.RightFate` | skynet/skynet-src/skynet_server.c:296-351 | For every step from a state of the invariant: if a message leaves a queue, it is handed to the callback exactly if the service has one, and the agent then runs that callback with it; it is freed exactly if the service has none; it is dropped exactly if the service is gone, and then one agent that tells the sender is added. A queue is freed only empty and released. |
| `SchedulerFates.RunsDispatched` | skynet/skynet-src/skynet_server.c:260-284 | A callback runs only for the message in hand, which the same step records as dispatched. |
| `SchedulerRuns.SendArrives` | skynet/skynet-src/skynet_server.c:229-239 | A send to a handle in the table ends with the message last among those accepted by the queue of that service, which is on the global list or with a worker, and with nothing else changed; a send to any other handle changes nothing. |
| `SchedulerRuns.KillDone` | skynet/skynet-src/skynet_handle.c:73-110 | Retiring a handle that nobody else refers to frees the context and leaves its queue released and where a worker finds it; else the reference of the table is given back. |
| `SchedulerRuns.CallbackSet` | skynet/skynet-src/skynet_server.c:790-795 | A service sets its own callback, while it is initialised or in a callback. |
| `SchedulerRuns.LaunchDone` | skynet/skynet-src/skynet_server.c:125-172 | A launch that succeeds leaves the service registered and initialised with one reference, and its empty queue last on the global list. |
| `SchedulerRuns.LaunchFails` | skynet/skynet-src/skynet_server.c:173-181 | A launch that fails leaves nothing of the service. |
| `SchedulerTurns.WorkerTurn` | skynet/skynet-src/skynet_server.c:296-351 | The turn of a worker with any weight: of k messages the first one, or the first (k - 1) / 2^weight if that is more, meet their fate in their order; then the queue is last on the global list and the worker has the first of it. |
| `SchedulerTurns.RoundRobin` | skynet/skynet-src/skynet_server.c:296-351 | The same from an idle worker, which takes the first queue of the global list. |
| `SchedulerTurns.EmptyTurn` | skynet/skynet-src/skynet_server.c:316-319 | An empty queue is left unscheduled and the worker is free. |
| `SchedulerTurns.DropTurn` | skynet/skynet-src/skynet_mq.c:230-250 | The queue of a service that is gone: all messages are dropped in their order, every sender is told, and the queue is freed. |
| `SchedulerTurns.WaitTurn` | skynet/skynet-src/skynet_mq.c:239-250 | The queue of a service that is retired and not yet deleted goes back to the end of the global list. |
| `SchedulerSteps.DeleteKeeps` | skynet/skynet-src/skynet_server.c:208-218 | Deleting a context releases its queue and puts it where a worker finds it. |
| `SchedulerSteps.ReleaseKeeps` | skynet/skynet-src/skynet_server.c:220-227 | The reference count stays the number of references, and exactly one agent deletes the context when it reaches zero. |
| `SchedulerSteps.PushKeeps` | skynet/skynet-src/skynet_mq.c:189-209 | A push schedules an unscheduled queue and keeps the message order. |
| `SchedulerSteps.LeaveKeeps` | skynet/skynet-src/skynet_mq.c:137-172 | A worker that finds its queue empty leaves it unscheduled. |
| `SchedulerSteps.FreeKeeps` | skynet/skynet-src/skynet_mq.c:230-237 | A queue is freed only when it is empty and nobody else has it. |
| `MessageQueue.WindowPush` | skynet/skynet-src/skynet_mq.c:189-201 | Writing at the tail of the ring appends to the sequence it holds. |
| `MessageQueue.WindowPop` | skynet/skynet-src/skynet_mq.c:137-151 | Advancing the head of the ring takes the first element off. |
| `MessageQueue.Ring.MqLength` | skynet/skynet-src/skynet_mq.c:111-125 | The length of the contents, also when the ring has wrapped. |
| `MessageQueue.Ring.ExpandQueue` | skynet/skynet-src/skynet_mq.c:174-187 | Growing keeps the contents in order. |
| `MessageQueue.Ring.MqPush` | skynet/skynet-src/skynet_mq.c:189-209 | Appends the message across ring growth and says whether the queue has to be scheduled. |
| `MessageQueue.Ring.MqPop` | skynet/skynet-src/skynet_mq.c:137-172 | Takes the first message, or unschedules the empty queue; the overload threshold is doubled just as often as it takes to cover the length, and is 1024 again once the queue is empty. |
| `MessageQueue.GlobalQueue.Push` | skynet/skynet-src/skynet_mq.c:43-56 | Appends a queue to the linked list. |
| `MessageQueue.GlobalQueue.Pop` | skynet/skynet-src/skynet_mq.c:58-75 | Takes the first queue off and clears its link. |
| `RwLock.ReadCount` | skynet/skynet-src/rwlock.h:17-48 | In any interleaving of any number of threads `read` counts the readers inside and those between counting themselves and retreating, and `write` is set exactly while a thread owns it. |
| `RwLock.Exclusion` | skynet/skynet-src/rwlock.h:17-48 | A writer is never inside with another writer or a reader. |
| `RwLock.StepInv` | skynet/skynet-src/rwlock.h:17-48 | Each atomic operation keeps the lock invariant. |
| `RwProgress.ReaderPasses` | skynet/skynet-src/rwlock.h:17-48 | A reader on its own gets in while nobody owns the lock, is counted, and leaves the lock as it was. |
| `RwProgress.WriterPasses` | skynet/skynet-src/rwlock.h:17-48 | A writer on its own gets in while nobody is inside, and leaves the lock as it was. |
| `RwProgress.NoDeadlock` | skynet/skynet-src/rwlock.h:17-48 | From every state that can be reached there is a way on after which everybody has got in and out. |
| `SendSafety.StepGood` | skynet/skynet-src/socket_server.c:725-793 | Every step of every thread keeps the invariant and fails no assertion. What the steps achieve is in `SendProgress` and `SendEnding`. |
| `SendSafety.AllRunsSafe` | skynet/skynet-src/socket_server.c:725-793 | In all interleavings: the bytes written are whole messages end to end and a beginning of one more, `wb_size` is what is left in both lists, `sending` counts the requests under way, and no assertion fails. |
| `SendSafety.AllDelivered` | skynet/skynet-src/socket_server.c:579-610 | When nothing waits, what was written is exactly the messages asked for, each once and whole. |
| `SendSafety.NotForgotten` | skynet/skynet-src/socket_server.c:843-885 | While something waits, the write event is on or about to be switched on. |
| `SendSafety.FinishGood` | skynet/skynet-src/socket_server.c:746-748 | The assertion of step 4 holds: both lists are empty and `wb_size` is zero. |
| `SendSafety.RaiseGood` | skynet/skynet-src/socket_server.c:695-710 | The started low message goes to the front of an empty high list. |
| `SendProgress.DrainsAll` | skynet/skynet-src/socket_server.c:725-793 | From every state of the invariant in which the socket thread has just taken the lock: if every `write` takes all that is offered, the bytes that wait are written, the rest of the direct write first, then the high list, then the low list; then nothing waits, the write event is off and the lock is free. |
| `SendProgress.HighWaits` | skynet/skynet-src/socket_server.c:579-610 | After a `write` on the high list that takes less than it is offered the rest waits in its place with the write event on; an interrupted one is tried again. |
| `SendProgress.LowWaits` | skynet/skynet-src/socket_server.c:733-745 | The same on the low list: a message that has been started becomes the high list, any other stays. |
| `SendProgress.WrittenDirectly` | skynet/skynet-src/socket_server.c:1574-1630 | A request of high priority while nothing waits is written by the thread itself; what `write` does not take is left as the direct write buffer with the write event on. |
| `SendProgress.Queued` | skynet/skynet-src/socket_server.c:1574-1660 | While fewer than 65535 requests are counted, every other one, and every one of low priority, goes to the end of the pipe and is counted, and nothing else changes. |
| `SendProgress.Taken` | skynet/skynet-src/socket_server.c:843-885 | The first request of the pipe becomes the high list if nothing waits, else the last buffer of the list of its priority; the write event is on and the count is lower by one. |
| `SendEnding.NeverStuck` | skynet/skynet-src/socket_server.c:579-793 | From every state that can be reached, with requests under way at any point, there is a way on after which exactly the messages asked for are on the wire, each once and whole. |
| `SendOrder.OrderKept` | skynet/skynet-src/socket_server.c:1574-1638 | A message reaches the wire after every message of its priority that was under way when it was asked for, in all interleavings, direct writes included. |
| `SendOrder.BehindStays` | skynet/skynet-src/socket_server.c:1568-1638 | No step lets a message overtake one that was under way before it. |
| `SendOrder.WriteLine` | skynet/skynet-src/socket_server.c:1585-1615 | A direct write overtakes all that waits, so it must not be started while something that has to come first waits. |
| `SendOrder.StageGrows` | skynet/skynet-src/socket_server.c:1568-1571 | What each of the separate reads of the double check rules out. |
| `Bignum.Cmp` | lualib-src/lua-cjson/dtoa.c:1034-1066 | The sign of the result is that of the difference of the numbers. |
| `Bignum.MultAdd` | lualib-src/lua-cjson/dtoa.c:612-667 | The result is exactly b times m plus a, in normal form, in place or in a larger copy. |
| `Bignum.Subtract` | lualib-src/lua-cjson/dtoa.c:2160-2190 | The loop with carry and borrow takes q times S off b, word by word. |
| `Bignum.Estimate` | lualib-src/lua-cjson/dtoa.c:2149-2198 | The estimate from the top words is never too large and too small by one at most. |
| `Bignum.FourZeroBits` | lualib-src/lua-cjson/dtoa.c:2106-2117 | Four leading zero bits of the divisor are enough for the estimate. |
| `Bignum.BorrowBit` | lualib-src/lua-cjson/dtoa.c:2164-2169 | Bit 32 of the wrapped 64-bit difference is the borrow. |
| `Bignum.Quorem` | lualib-src/lua-cjson/dtoa.c:2119-2241 | Returns the quotient and leaves the remainder, in normal form. |
| `BignumPower.AddProduct` | lualib-src/lua-cjson/dtoa.c:846-859 | The inner loop adds a multiple of a number at a word offset. |
| `BignumPower.Mult` | lualib-src/lua-cjson/dtoa.c:805-913 | The exact product without superfluous words. |
| `BignumPower.Pow5Mult` | lualib-src/lua-cjson/dtoa.c:917-972 | The exact product with a power of five; node i of the cached list stays five to the power 4*2^i. |
| `Digits.LShift` | lualib-src/lua-cjson/dtoa.c:974-1032 | The exact product with a power of two, without superfluous words. |
| `Digits.Generate` | lualib-src/lua-cjson/dtoa.c:4284-4296 | The digits and the remainder make up the number; fewer digits only if it comes out even. |
| `Digits.RoundUp` | lualib-src/lua-cjson/dtoa.c:4314-4322 | Adds one in the last place, and overflows exactly when all digits are nines. |
| `Digits.DropZeros` | lualib-src/lua-cjson/dtoa.c:4323-4329 | Drops trailing zeros only. |
| `Digits.Print` | lualib-src/lua-cjson/dtoa.c:4284-4331 | The result is exactly the half-even rounding of b/S to ilim digits, without trailing zeros; the exponent is raised exactly when the rounded value is ten to the ilim. |
| `Digits.HalfEvenIsNearest` | lualib-src/lua-cjson/dtoa.c:4298-4331 | The half-even rounding is no further from the quotient than half a unit, and even if it is that far. |
| `SkipLinks.NextPut` | lualib-src/skiplist/skiplist.c:122-135 | Where links lead and what they span after a node is put in. |
| `SkipLinks.NextTake` | lualib-src/skiplist/skiplist.c:146-155 | The same after a node is taken out. |
| `SkipNodes.Search` | lualib-src/skiplist/skiplist.c:96-108 | On each level the search stops at the last node it may pass, and counts the members passed. |
| `SkipNodes.Walk` | lualib-src/skiplist/skiplist.c:100-107 | The same for one level. |
| `SkipNodes.PutLinked` | lualib-src/skiplist/skiplist.c:122-135 | After insertion every link leads to the next node of its level and every span is the distance in the list. |
| `SkipNodes.PutBackward` | lualib-src/skiplist/skiplist.c:137-142 | Backward links and the tail are right after insertion. |
| `SkipNodes.RaisedLinked` | lualib-src/skiplist/skiplist.c:114-121 | New levels start at the header with a span of the whole list. |
| `SkipNodes.PutSorted` | lualib-src/skiplist/skiplist.c:91-111 | A member put in at its rank keeps the order. |
| `SkipDelete.TakeLinked` | lualib-src/skiplist/skiplist.c:146-155 | After deletion every link and span is right. |
| `SkipDelete.RemoveNode` | lualib-src/skiplist/skiplist.c:146-164 | Links, spans, backward links, tail, level and length are right after a node is removed and freed. |
| `SkipDelete.Lower` | lualib-src/skiplist/skiplist.c:161-162 | Empty levels are dropped and no others. |
| `SkipList.SkipList.Insert` | lualib-src/skiplist/skiplist.c:91-143 | For every level that the random choice may give, the members are the old ones with the new one at its rank in the order of `SkipNodes.LessIsOrder`, and so are the levels. |
| `SkipList.SkipList.Delete` | lualib-src/skiplist/skiplist.c:167-191 | Removes the member if it is there, and says so. |
| `SkipList.SkipList.DeleteByRank` | lualib-src/skiplist/skiplist.c:195-221 | Removes exactly the members of the given places and hands them out in order. |
| `SkipList.SkipList.GetRank` | lualib-src/skiplist/skiplist.c:227-248 | The place of a member that is there, if members are distinct. For every key and all heights: the first place at which the search stops, on some level, at a node with the member asked for, and 0 exactly if there is none. |
| `SkipRank.RightExactly` | lualib-src/skiplist/skiplist.c:223-248 | For distinct members and given heights the answer is the place of the key, or 0 if it is not there, if and only if the search does not stop at a smaller key with the same member. |
| `SkipRank.RightForAllHeights` | lualib-src/skiplist/skiplist.c:223-248 | It is so for every choice of levels if and only if no smaller key has the same member. |
| `SkipRank.WrongRank` | lualib-src/skiplist/skiplist.c:223-248 | With the one member `a` of score 1, asking for `a` with score 2 gives place 1, whatever the levels are. |
| `SkipRank.ByHeights` | lualib-src/skiplist/skiplist.c:223-248 | With a second member between the two scores the answer is 0 or 1 by the levels. |
| `SkipList.SkipList.GetNodeByRank` | lualib-src/skiplist/skiplist.c:251-273 | The node at a place, or none if there is no such place. |
| `SkipList.SkipList.FirstInRange` | lualib-src/skiplist/skiplist.c:277-313 | The first node not below the minimum if the list reaches into the range. |
| `SkipList.SkipList.LastInRange` | lualib-src/skiplist/skiplist.c:317-334 | The last node not above the maximum if the list reaches into the range. |
| `SkipList.SkipList.RankRange` | lualib-src/skiplist/lua-skiplist.c:94-119 | The members of the places between the two, backwards if the first is the larger. |
| `SkipList.SkipList.ScoreRange` | lualib-src/skiplist/lua-skiplist.c:121-153 | Exactly the members with scores in the range, in order, or in reverse order. |
| `Common.CompareChains` | lualib-src/skiplist/skiplist.c:81-85 | The comparison of members is transitive; `CompareIsOrder` says which order it is. |
| `Common.CompareIsOrder` | lualib-src/skiplist/skiplist.c:81-85 | One string is less than another exactly if it is a proper prefix, or has the smaller byte at the first place in which they differ. |
| `SkipNodes.LessIsOrder` | lualib-src/skiplist/skiplist.c:91-108 | Members are ordered by score, and those of equal score by that order of their bytes. |
| `SharedTable.FillNoColliding` | skynet/lualib-src/lua-sharedata.c:212-235 | After the first pass every wanted main position is taken by one of its keys, and the array part holds the array pairs. |
| `SharedTable.SomeEmpty` | skynet/lualib-src/lua-sharedata.c:252-259 | While a key has no slot, some slot is empty, so the assertion of the second pass holds. |
| `SharedTable.FillColliding` | skynet/lualib-src/lua-sharedata.c:237-272 | After the second pass every key is placed, on the chain of its main position. |
| `SharedTable.CompletelyFull` | skynet/lualib-src/lua-sharedata.c:276-325 | No slot stays empty. |
| `SharedTable.CountSize` | skynet/lualib-src/lua-sharedata.c:67-89 | The number of keys that belong to the hash part. |
| `SharedTable.HashOfShort` | skynet/lualib-src/lua-sharedata.c:91-101 | The hash of a short string, as a number. |
| `SharedLookup.LookupKey` | skynet/lualib-src/lua-sharedata.c:501-530 | Finds the slot of a key, or nothing if no slot has it, for every table and key. |
| `SharedLookup.Table.Index` | skynet/lualib-src/lua-sharedata.c:532-566 | Reading a key gives what the source table has for it, present or absent. |
| `SharedLookup.Table.NextKey` | skynet/lualib-src/lua-sharedata.c:589-646 | The key after the given one in the order of the walk. |
| `SharedLookup.WalkComplete` | skynet/lualib-src/lua-sharedata.c:579-646 | The order of the walk has every key of the source table, no other, and none twice. |
| `SharedLookup.Table.Walk` | skynet/lualib/skynet/sharedata/corelib.lua:107-117 | The loop over a shared table, from no key to the end, gives exactly the pairs of the source table, each once. |
| `KeyExchange.MulModP` | skynet/lualib-src/lua-crypt.c:717-737 | The product modulo P with 64-bit arithmetic that may wrap. |
| `KeyExchange.PowModP` | skynet/lualib-src/lua-crypt.c:739-750 | The power modulo P; a base of P is returned unreduced for exponent 1. |
| `KeyExchange.PowMod64` | skynet/lualib-src/lua-crypt.c:752-758 | The same for every 64-bit base. |
| `KeyExchange.WhenPower` | skynet/lualib-src/lua-crypt.c:752-758 | The result is the power modulo P if and only if it is not the case that the base is P and the exponent 1. |
| `KeyExchange.PrimeIs` | skynet/lualib-src/lua-crypt.c:711-715 | The modulus is 2^64 - 59. |
| `KeyExchange.SameSecret` | skynet/lualib-src/lua-crypt.c:775-810 | Both sides compute the same secret from each other's public value, for all nonzero private keys. |
| `KeyExchange.SecretIs` | skynet/lualib-src/lua-crypt.c:775-810 | The secret is 5 to the product of the private keys, modulo 2^64 - 59. |
| `KeyExchange.ExchangeAccepted` | skynet/lualib-src/lua-crypt.c:775-810 | The public value is 5 to the private key, modulo 2^64 - 59; it is never zero, so the other side never refuses it. |
| `Common.BytesBack` | skynet/lualib-src/lua-crypt.c:760-773 | A number written in bytes with the lowest first is read back as the number. |
| `BignumDiff.Diff` | lualib-src/lua-cjson/dtoa.c:1068-1141 | The absolute difference without leading zero words, and its sign. |
| `HandleTable.Tried` | skynet/skynet-src/skynet_handle.c:43-58 | A search that does not pass the last handle tries every slot; one that does tries every slot but the first. |
| `HandleTable.NeverFirst` | skynet/skynet-src/skynet_handle.c:43-58 | A search that passes the last handle never tries the first slot. |
| `HandleTable.MoveOne` | skynet/skynet-src/skynet_handle.c:62-66 | The slot that a context moves to when the table doubles is empty, as the source asserts. |
| `HandleTable.AllMoved` | skynet/skynet-src/skynet_handle.c:60-69 | The larger table has the same contexts under the same handles, and an empty slot besides the first. |
| `HandleTable.HandleStorage.Register` | skynet/skynet-src/skynet_handle.c:34-71 | A new handle of the harbor that is not 0 and nobody has; no other handle is affected; exactly when the search fails for want of room, and exactly when the growth reads a slot without a context. |
| `HandleTable.LateGrowth` | skynet/skynet-src/skynet_handle.c:34-71 | A run from the start: three contexts stay, others come and go one at a time, and registration 2^22 + 3 reads the handle of an empty slot. |
| `HandleTable.HandleStorage.Retire` | skynet/skynet-src/skynet_handle.c:73-110 | The handle is free, no other is affected, and exactly its names are gone, the others in their order. |
| `HandleTable.OthersKept` | skynet/skynet-src/skynet_handle.c:81-95 | A name of a retired handle is unknown afterwards, and every other name still means what it did. |
| `HandleTable.HandleStorage.RetireAll` | skynet/skynet-src/skynet_handle.c:112-134 | No handle is left. |
| `HandleTable.HandleStorage.Grab` | skynet/skynet-src/skynet_handle.c:136-153 | The context of the handle, or none. |
| `HandleTable.HandleStorage.FindName` | skynet/skynet-src/skynet_handle.c:155-183 | The handle of the name by binary search, or 0. |
| `HandleTable.HandleStorage.NameHandle` | skynet/skynet-src/skynet_handle.c:185-244 | A new name gets the handle, a known one keeps its own, and no other name changes. |
| `Seri.IntBack` | skynet/lualib-src/lua-seri.c:142-174 | Every 64-bit integer is read back from the width that is chosen for it. |
| `Seri.StrBack` | skynet/lualib-src/lua-seri.c:190-213 | Every string is read back from its short or long form. |
| `Seri.RoundTrip` | skynet/lualib-src/lua-seri.c:296-340 | Every value, with anything behind it, is read back from its bytes. |
| `Seri.AllBack` | skynet/lualib-src/lua-seri.c:342-349 | So is every list of values. |
| `SeriBytes.IntBytes` | skynet/lualib-src/lua-seri.c:142-174 | The bytes of every integer of 32 bits: 2 for zero, else 10, 18 or 34 and one, two or four bytes, the lowest first. |
| `SeriBytes.LongBytes` | skynet/lualib-src/lua-seri.c:142-174 | The bytes of every other integer: 50 and eight bytes, the lowest first. |
| `SeriBytes.StrBytes` | skynet/lualib-src/lua-seri.c:190-213 | The bytes of every string: up to 31 bytes behind 4 + 8 times its length, else behind 21 or 37 and the length in two or four bytes. |
| `SeriBytes.TableBytes` | skynet/lualib-src/lua-seri.c:215-340 | The bytes of every table: 6 + 8 times the size of the array part up to 30, else 254 and that size as an integer, then the elements, the pairs and a zero byte. |
| `SeriBytes.Boundaries` | skynet/lualib-src/lua-seri.c:142-340 | The bytes written literally for the values at which the form changes, and for a small table. |
| `SeriBlocks.WriteBlock.Push` | skynet/lualib-src/lua-seri.c:65-85 | The bytes go behind those written so far, across any number of blocks. |
| `SeriBlocks.WriteBlock.PackOne` | skynet/lualib-src/lua-seri.c:296-340 | Writes the bytes of the value, and fails exactly if it is nested too deeply. |
| `SeriBlocks.Flatten` | skynet/lualib-src/lua-seri.c:534-553 | What was pushed comes out as one buffer. |
| `SeriBlocks.FlattenBlocks` | skynet/lualib-src/lua-seri.c:534-553 | The list of blocks is copied to exactly the bytes that were pushed. |
| `SeriBlocks.Pack` | skynet/lualib-src/lua-seri.c:599-612 | The bytes of all values, or an error exactly if one is nested too deeply. |
| `SeriBlocks.ReadBlock.UnpackOne` | skynet/lualib-src/lua-seri.c:523-532 | Reads from the cursor what the bytes stand for, for every stream whose string lengths fit an `int`. |
| `SeriBlocks.ReadBlock.UnpackTable` | skynet/lualib-src/lua-seri.c:434-465 | Reads the array part and then pairs up to a nil. |
| `SeriBlocks.Unpack` | skynet/lualib-src/lua-seri.c:555-597 | Reads all values of a stream, or reports that it is not valid. |
| `SeriBlocks.PackAndUnpack` | skynet/lualib-src/lua-seri.c:555-612 | Packing and unpacking gives the same list of values. |
| `WsFrames.MaskTwice` | lualib-src/lua-websocketnetpack.c:310-332 | Masking twice gives the payload back; `XorBit` says what masking is. |
| `WsFrames.XorBit` | lualib-src/lua-websocketnetpack.c:310-332 | Each bit of the result is the exclusive or of the two bits, for every pair of numbers. |
| `WsFrames.MaskedBits` | lualib-src/lua-websocketnetpack.c:310-332 | Bit by bit, a masked payload is the payload with the key byte for each place added without carry; the key begins again every four bytes. |
| `WsFrames.MaskSplit` | lualib-src/lua-websocketnetpack.c:310-332 | A payload may be unmasked piece by piece. |
| `WsFrames.Pieces` | lualib-src/lua-websocketnetpack.c:457-664 | For every stream and every place where it is cut: the payloads and the rest are those of reading the first piece and then its rest with the second. |
| `WsFrames.HeadOf` | lualib-src/lua-websocketnetpack.c:239-308 | The head of every data frame of section 5.2 of RFC 6455 is read as its length, key and place of the payload. |
| `WsBytes.HeadByBytes` | lualib-src/lua-websocketnetpack.c:239-308 | What the first bytes of every stream decide, in bytes: which are passed over, which close, where the payload begins, how long it is, and which four bytes are its key. |
| `WsBytes.YieldedBits` | lualib-src/lua-websocketnetpack.c:310-332 | Every bit of a payload that is handed out is the one on the wire or, in a masked frame, the exclusive or of that and the bit of key byte i % 4 (section 5.3 of RFC 6455). |
| `WsBytes.MaskedText` | lualib-src/lua-websocketnetpack.c:310-332 | The frame 82 83 01 02 03 04 60 60 60 yields 61 62 63. |
| `WsFrames.FramesBack` | lualib-src/lua-websocketnetpack.c:457-664 | Frames one behind the other, masked or not and with any form of the length, are read as their payloads, and nothing is left. |
| `WsFrames.WholeExactly` | lualib-src/lua-websocketnetpack.c:393-395 | A data frame is read as its payload if and only if that has at most 10240 bytes; else it is cut there. |
| `WsFilter.DecodeMask` | lualib-src/lua-websocketnetpack.c:310-332 | The bytes are unmasked in place, each bit the exclusive or of the bit and that of the key, and no others change. |
| `WsFilter.FillHeader` | lualib-src/lua-websocketnetpack.c:475-546 | The head of a frame is completed byte by byte, taking exactly what belongs to it. |
| `WsFilter.FillMore` | lualib-src/lua-websocketnetpack.c:547-556 | A piece of a payload leaves a record that stands for all bytes of the frame so far. |
| `WsFilter.NetPack.FindUncomplete` | lualib-src/lua-websocketnetpack.c:132-154 | Takes the record of a connection out of its chain and leaves all others. |
| `WsFilter.NetPack.PushData` | lualib-src/lua-websocketnetpack.c:190-210 | The message goes behind those in the queue, also when it grows. |
| `WsFilter.NetPack.PushMore` | lualib-src/lua-websocketnetpack.c:368-445 | All frames of a piece go to the queue in order, and what is left to the table. |
| `WsFilter.NetPack.Finish` | lualib-src/lua-websocketnetpack.c:547-579 | A waiting frame is completed, and what is behind it is read on. |
| `WsFilter.NetPack.Filter` | lualib-src/lua-websocketnetpack.c:457-664 | For every stream without close frames and negative lengths: the messages of the waiting bytes and the piece, unmasked as `WsBytes.YieldedBits` says, come out at once or by the queue, and the rest waits; other connections are not affected. |
| `WsServe.Run` | lualib-src/lua-websocketnetpack.c:457-664 | Any number of connections, their streams cut and mixed in any way, with closes: the messages of each connection are the payloads of its streams. |
| `WsServe.FramesSoFar` | lualib-src/lua-websocketnetpack.c:457-664 | Of a stream of frames cut anywhere the first payloads have come out. |
| `WsServe.LPack` | lualib-src/lua-websocketnetpack.c:794-835 | A message becomes one binary frame without a mask, its length in the shortest form. |
| `WsServe.PackedBack` | lualib-src/lua-websocketnetpack.c:794-835 | A packed message is read back if and only if it is not above the limit. |
| `JsonText.CharsBack` | lualib-src/lua-cjson/lua_cjson.c:897-955 | Every string of bytes is read back from its escaped form. |
| `JsonText.EscapeForm` | lualib-src/lua-cjson/lua_cjson.c:467-491 | How every byte is written: in two bytes, in six with small hexadecimal digits, or as it is; and each is read as the byte. |
| `JsonText.EscapeBack` | lualib-src/lua-cjson/lua_cjson.c:831-887 | A character written as one escape, or as a surrogate pair (section 7 of RFC 8259), is read as its UTF-8 bytes. |
| `JsonText.Utf8Back` | lualib-src/lua-cjson/lua_cjson.c:787-820 | The UTF-8 bytes stand for the character (section 3 of RFC 3629), in as few bytes as it needs. |
| `JsonText.Utf8Marks` | lualib-src/lua-cjson/lua_cjson.c:787-820 | The first byte tells how many there are, and every other byte is from 0x80 to 0xBF. |
| `JsonText.TextPlain` | lualib-src/lua-cjson/lua_cjson.c:467-713 | The text of a value has no control character and no zero byte. |
| `JsonText.ValueBack` | lualib-src/lua-cjson/lua_cjson.c:1236-1263 | The text of a value, with anything behind it, is parsed as the value. |
| `JsonText.RoundTrip` | lualib-src/lua-cjson/lua_cjson.c:1265-1303 | Whatever can be written is read back, holes of arrays as null. |
| `JsonText.Writable` | lualib-src/lua-cjson/lua_cjson.c:540-713 | A value can be written if and only if it is nested at most 1000 deep and no array has too many holes. |
| `JsonEnd.DecodeByPrefix` | lualib-src/lua-cjson/lua_cjson.c:1265-1303 | Whether a text is taken, and as what, is decided by the bytes in front of its first zero byte, and all from there on is ignored. |
| `JsonEnd.IgnoredExactly` | lualib-src/lua-cjson/lua_cjson.c:1265-1303 | A text that is taken is read to its end if and only if it has no zero byte. |
| `JsonEnd.TakenBehind` | lualib-src/lua-cjson/lua_cjson.c:1294-1298 | The text of a value with something behind it is taken if and only if only spaces follow, or spaces and then a zero byte. |
| `JsonEnd.HiddenRest` | lualib-src/lua-cjson/lua_cjson.c:1294-1298 | Anything behind a zero byte is ignored, though the source means to refuse further input. |
| `JsonGrammar.CharsRead` | lualib-src/lua-cjson/lua_cjson.c:897-955 | Every string of the grammar of RFC 8259, with any mixture of escapes, is read as what it means. |
| `JsonGrammar.DocRead` | lualib-src/lua-cjson/lua_cjson.c:1236-1263 | The text of every derivation without numbers, with spaces anywhere between tokens, is parsed as what it means. |
| `JsonGrammar.DocDerived` | lualib-src/lua-cjson/lua_cjson.c:1236-1263 | What is parsed has a derivation that means the result, within the depth limit. |
| `JsonGrammar.TakenExactly` | lualib-src/lua-cjson/lua_cjson.c:1265-1303 | A text without a zero byte is taken as a value if and only if it has a derivation that means the value. |
| `JsonGrammar.Language` | lualib-src/lua-cjson/lua_cjson.c:1265-1303 | The same for every text, by the bytes in front of its first zero byte. |
| `JsonCompact.WrittenIsText` | lualib-src/lua-cjson/lua_cjson.c:672-744 | What is written for a value is a text of the grammar without a space between tokens, and means the value. |
| `JsonCodec.AppendQuoted` | lualib-src/lua-cjson/lua_cjson.c:467-491 | The room made first is enough for all unchecked appends, and the string is written in its escaped form. |
| `JsonCodec.ArrayLength` | lualib-src/lua-cjson/lua_cjson.c:497-538 | The largest index of an array, or an error exactly if it has too many holes. |
| `JsonCodec.AppendData` | lualib-src/lua-cjson/lua_cjson.c:672-713 | Writes the text of the value, and fails exactly if it cannot be written. |
| `JsonCodec.Encode` | lualib-src/lua-cjson/lua_cjson.c:715-744 | The text of a value, or nothing. |
| `JsonCodec.Parser.AppendUnicodeEscape` | lualib-src/lua-cjson/lua_cjson.c:831-887 | Reads no byte behind the end of the text, and what is appended without a check is shorter than what is read. |
| `JsonCodec.Parser.NextString` | lualib-src/lua-cjson/lua_cjson.c:897-955 | For every text: all unchecked appends have room, and the token is the decoded string or an error. |
| `JsonCodec.Parser.NextToken` | lualib-src/lua-cjson/lua_cjson.c:1026-1103 | The next token of every text, read within its bounds. |
| `JsonCodec.Parser.ParseArray` | lualib-src/lua-cjson/lua_cjson.c:1198-1233 | Parses an array as the grammar of tokens says, within the depth limit. |
| `JsonCodec.Parser.ParseObject` | lualib-src/lua-cjson/lua_cjson.c:1147-1195 | The same for an object. |
| `JsonCodec.Decode` | lualib-src/lua-cjson/lua_cjson.c:1265-1303 | Parses a whole text. |
| `JsonCodec.WriteAndRead` | lualib-src/lua-cjson/lua_cjson.c:715-1303 | A value nested at most 1000 deep without too many holes is read back from its text. |

## Left out

- LPeg captures, run-time captures, grammars, calls (`ICall`, `IRet`, `IOpenCall`) and printing: not modelled.
- LPeg character sets are sets of bytes: the 32-byte bitmap, its complement and the encoding of single characters by
  `charsettype` on bitmaps are not modelled; `realloccode`, instruction widths and the 16-bit offsets are not either.
- LPeg `lp_P`, `lp_set`, `lp_range`, `lp_locale` and the copying of subtrees by the builders: patterns are values there.
- Matcher.MatchPattern: the stack limit is a parameter; the source takes the larger of its setting and 400 and
  doubles the stack on the way there.
- Timer.Run: the conversion of the system clock into ticks, and the wait between updates, are not modelled; the
  nodes of a list are a sequence, so that `next` pointers and `free` are not.
- Scheduler: a queue's ring is a sequence there (`MessageQueue` proves the ring); the handle table is a set of handles, so
  that its hashing, growth and the name table are not part of it; handles are not reissued while a queue bearing them is alive, and
  registration, creation of the queue and the assignment of `ctx->handle` are one step.
- Scheduler: `skynet_context_reserve`, monitors, overload messages, log files and profiling are not modelled; an operation that
  a callback makes is an operation of another agent, which allows more interleavings than the source has.
- Scheduler: that a worker is woken up in time (condition variables) is not modelled. `SchedulerRuns` and `SchedulerTurns` say
  what an operation or a turn achieves from any state of the invariant if the other agents stand still meanwhile; that the
  threads get their turns (fairness) is not modelled, here and in `SendProgress`, `SendEnding` and `RwProgress`.
- SendPath: one connected TCP socket with plain buffers; closing, half-close, connecting sockets, fatal write errors, UDP, user
  objects and the `warn_size` report are not modelled; memory is sequentially consistent.
- RwLock: memory is sequentially consistent; the `pthread` variant is not modelled.
- Digits.Print: the shortest-string and fixed-point modes of `dtoa`, the floating-point quick path, the extraction of the
  significand and `strtod` are not modelled; digits are numbers, not characters.
- Bignum: allocation (`Balloc`, the free list) only decides capacities here; the lock around the cached powers is not modelled.
- Bignum.Cmp: of a zero with a word and a zero without one, which no caller in dtoa.c compares, the former counts as larger.
- Bignum.Quorem: requires the highest word of the divisor to exceed the estimated quotient, which the four zero bits of
  `dshift` give; without that one correction may not be enough.
- SkipList.SkipList.Insert: the level is any from 1 to 32 and the address any that is not in use; scores are reals, so NaN is not
  modelled; unsigned widths of ranks and spans are not either.
- Digits.LShift: a number without words is refused: the source would read a word that is not in use.
- SharedTable: string keys stand for themselves, not for their index in the string table; nested tables are opaque values;
  integer keys fit 32 bits, because the source truncates larger ones to `int`, so that keys may then coincide.
- KeyExchange: the other ciphers and digests of lua-crypt.c are not modelled; the exponent 0, on which `powmodp` does not
  terminate, is refused by both callers.
- Scheduler: the handle table is a set of handles there; `HandleTable` proves the table itself, under the assumption
  that a context has its handle as soon as it is registered, which the source assigns behind the call.
- HandleTable: lookups by several threads at once are under the lock, which `RwLock` proves; contexts are numbers here.
- Seri: `__pairs` of a table, the order in which `lua_next` walks the hash part (a table is its array part and the other
  pairs in the order of the walk), errors of `lua_rawset` on foreign streams (a NaN key) and other byte orders are
  not modelled; floats and pointers are their eight bytes.
- SeriBlocks.ReadBlock.UnpackOne: a string length of 2^31 or more is a negative `int` in `rb_read`, where the bounds test
  passes; the model takes such a stream as invalid.
- WsFilter: the handshake, close frames and lengths that are negative when truncated to an `int` are not modelled; records are values and chains sequences, so that `next` pointers
  and allocation are not; a piece has at least one byte, as the socket sends it.
- JsonText: numbers, as values and as keys, are not modelled; parsing stops where it meets one. An object is the sequence of
  its assignments, so that the order of `lua_next` and the overriding of equal keys are outside the model; the settings
  are the default ones; lengths do not overflow an `int`.
- Of the other codecs, lua-bson.c, lua-mongo.c, lua-netpack.c and lua-cluster.c are not modelled.
