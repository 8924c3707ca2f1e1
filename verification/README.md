# Verified models of kernel-driver and text-tool functions

A set of C functions, modelled in Dafny, with what they promise proved for all inputs and all runs.  Each family is a
few modules; `Wrappers` and `Arithmetic` are shared.

**NVMe over FC target engine** (`Nvmet*`).  One target queue owns a fixed pool of I/O descriptors (fods).  Commands that
find the pool empty are deferred; a released fod takes up the first deferred command.  Completions from the driver and
from the upper layer, abort marks and one deletion of the queue come in on any thread at any moment.  `NvmetModel` is the
step system: a task is a function between two of its lock sections, a step runs one section.  Nothing in it says that a
fod has one task at a time; that is part of the invariant (`NvmetInvariant`) which every step keeps (`NvmetSteps`).
`NvmetTheorems`, `NvmetTransfer` and `NvmetProgress` draw the consequences: exactly-once release, conservation of the
pool, the exact reference count, order, tiling of the data, and that work always comes to rest; `NvmetAnswers` says which
commands are refused, when data is sent, and that every command is answered once or given up for a cause.  `NvmetTargetQueue` is the
queue object with the functions as methods on its fields; each is shown to be an undisturbed stretch of steps
(`NvmetQueue`); the sections of the abort and of the deletion are also single steps of their own, from any state.  Some
results are about what the code does not promise, with the exact condition and, in `NvmetWitness`, a run for every number
of fods: a reference is kept for every command ever deferred, so a queue that deferred a command is not freed by its
deletion; an abort that has loaded the pointer to a fod can use a queue that has been freed, or mark the command that has the
fod next (`NvmetAborts`); a command bound to a fod that the deletion has just passed is not aborted by it; a command can be left waiting beside a free fod when its list entry is allocated with the lock
released; and a DMA mapping that counts fewer segments than there are pages leaves the pages not counted allocated for ever.

**Ordered locking of two completion queues** (`CqLocks`).  Any number of threads, each with any list of pairs to lock and
unlock, null and equal members included.

**Glob matcher** (`Glob`, `GlobLanguage`, `GlobChoice`).  The pointer matcher against a declarative language of patterns.

**Run-length compressor** (`RunLength`), **text field files** (`TextFile`) and **DEX debug info** (`DexDebug`).  Each is a
loop proved against an independent reading of its output: a decoder, the loader, and an interpreter that notes for every
address what a register holds.  The exact defects are part of the theorems: runs of 257k+1 bytes, surrogate pairs, and
addresses past 32 bits.

**Work-queue rings** (`WqeRing`, `RecvQueue`).  Wrapped writes and reads of a byte ring, and receive slots under wrapping
counters with completions in the middle of a batch.

**FAAD bit reader** (`BitReader`), **USB mixer cache** (`Mixer`, `MixerCache`, `MixerElem`), **MAC and VLAN tables**
(`KeyTable`) and **blue-flame registers** (`Bfreg`).  Each object is a fast or fallible form of something simple: a bit
cursor, the device's own values, a map from keys to counts, a multiset of registers in use.

Where the code falls short of a property, the exact condition is stated as an equivalence, or an input or run that
breaks it is given.

Code that updates state in place is a class or a method with loops, tied by its `ensures` to a function; the theorems are
about the functions.  A transfer that can fail, a page that cannot be had, a firmware call that is refused or the number
of a command's data pages is a parameter, so that the results hold for every answer.

## Model

| member | source | states |
|---|---|---|
| `NvmetSteps.StepKeeps` | Data/119/nonvuln/CWE-119_non-vul_439.c:14-91 | Whichever thread runs its next lock section -- driver completion, nvmet completion, arrival, abort mark, deletion -- a fod stays either in the pool with no thread of work, or outside with exactly one; the links between fod and request stay inverse, every command stays in exactly one place, the reference count stays the sum of its reasons, and the transfers stay on plan |
| `NvmetSteps.RunKeeps` | Data/119/nonvuln/CWE-119_non-vul_439.c:14-91 | The same over every interleaving of any length |
| `NvmetTheorems.PoolConservation` | Data/119/nonvuln/CWE-119_non-vul_469.c:8-19 | In every run: a fod is in `fod_list` and unbound, or has exactly one thread of work; `fcpreq` and `nvmet_fc_private` are inverse to each other; pool size plus fods outside is `sqsize` |
| `NvmetTheorems.ReleasedAtMostOnce` | Data/119/nonvuln/CWE-119_non-vul_449.c:13-21 | In every run no command gets two fods or is released twice, none is both released and refused or drained, and a released command is linked to no fod any more |
| `NvmetTheorems.ReleasedExactlyOnceAtRest` | Data/119/nonvuln/CWE-119_non-vul_439.c:14-91 | In every run that has come to rest, each command ever given a fod has been released exactly once, and the commands that arrived are those released, drained, refused or still waiting |
| `NvmetTheorems.BusyCanStep` | Data/119/nonvuln/CWE-119_non-vul_456.c:19-89 | A fod outside the pool never blocks: some thread can take its next step |
| `NvmetTheorems.PutHoldsRef` | Data/119/nonvuln/CWE-119_non-vul_449.c:31-31 | A thread about to drop a queue reference still holds it: the count is not zero |
| `NvmetProgress.StepProgress` | Data/119/nonvuln/CWE-119_non-vul_439.c:29-89 | Every step of work under way decreases a measure of commands to start, chunks left and sections left, whatever the driver and the upper layer answer |
| `NvmetProgress.EveryRunComesToRest` | Data/119/nonvuln/CWE-119_non-vul_439.c:14-91 | No schedule keeps the engine at work for ever on the commands it has: every infinite schedule reaches a point where it picks no enabled step |
| `NvmetTheorems.DeferredInOrder` | Data/119/nonvuln/CWE-119_non-vul_449.c:24-41 | In every run the deferred commands are taken up in the order in which they were deferred |
| `NvmetTheorems.StrandingStep` | Data/119/nonvuln/CWE-119_non-vul_441.c:61-79 | A command comes to wait beside a free fod exactly when its list entry was allocated with the lock released and a fod came back meanwhile |
| `NvmetWitness.StrandedCommand` | Data/119/nonvuln/CWE-119_non-vul_441.c:61-79 | For every number of fods but none, with deferral: a run comes to rest with every fod free and a command waiting, which only another command's end takes up |
| `NvmetWitness.StrandingIff` | Data/119/nonvuln/CWE-119_non-vul_441.c:48-79 | No command ever waits beside a free fod, at any moment or at rest, if and only if the driver does not defer commands or the queue has no fods |
| `NvmetTheorems.QueueLifetime` | Data/119/nonvuln/CWE-119_non-vul_449.c:23-64 | In every run the reference count equals creation reference, lookups under way, fods outside the pool, pending commands and commands ever taken off the pending list; when it is zero the queue is deleted, and no arrival, no fod at work and no pending command is left |
| `NvmetTheorems.OnlyAbortsAfterFree` | Data/119/nonvuln/CWE-119_non-vul_433.c:5-26 | In every run, once the count is zero, the only threads that can still touch the queue are aborts that loaded the pointer to a fod before: one that tests the fod, or one that takes the lock |
| `NvmetTheorems.FreedUnusedIff` | Data/119/nonvuln/CWE-119_non-vul_433.c:5-26 | In every run a queue whose count is zero is used by no thread any more if and only if every abort that loaded the pointer to a fod has ended |
| `NvmetWitness.AbortAfterLastPut` | Data/119/nonvuln/CWE-119_non-vul_433.c:5-26 | For every number of fods but none there are such runs: the count is zero, and an abort is about to test a fod of the queue, or to take its lock |
| `NvmetAborts.StepAborts` | Data/119/nonvuln/CWE-119_non-vul_433.c:5-26 | At every step, the command of an abort that loaded the pointer to a fod is tied to that fod or has been released |
| `NvmetAborts.AbortHits` | Data/119/nonvuln/CWE-119_non-vul_433.c:15-27 | In every run, whatever came between: the lock section of an abort marks its own command if and only if that has not been released, marks another command if and only if that has been released and the fod has been bound again, and changes nothing in the cases left over |
| `NvmetWitness.AbortMarksOther` | Data/119/nonvuln/CWE-119_non-vul_433.c:15-27 | For every number of fods but none: a run in which an abort is about to mark another command than its own |
| `NvmetTheorems.FreedForGood` | Data/119/vuln/CWE-119_vul_019.c:12-21 | A count that is zero is never raised again |
| `NvmetTheorems.FreedIffNeverDeferred` | Data/119/nonvuln/CWE-119_non-vul_464.c:43-72 | After a deletion that has come to rest the queue is freed if and only if no command was ever deferred; otherwise the count stays at the number of deferrals, on the reuse path and in the drain loop alike |
| `NvmetInvariant.InitInv` | Data/119/nonvuln/CWE-119_non-vul_422.c:33-43 | The queue as allocated, with all fods in the pool and one reference, satisfies the invariant |
| `NvmetTransfer.IssuedOnPlan` | Data/119/nonvuln/CWE-119_non-vul_470.c:14-33 | In every run, with aborts and errors anywhere, the transfers tried for a command are an initial part of the plan for its length |
| `NvmetTransfer.ChunksMeet` | Data/119/nonvuln/CWE-119_non-vul_470.c:14-33 | Consecutive chunks of a plan meet in the data and in the scatter list, all but the last are of full size, and only the last can carry the response |
| `NvmetTransfer.PlanEnds` | Data/119/nonvuln/CWE-119_non-vul_430.c:10-28 | A complete plan starts with the data and the scatter list and ends at the end of the data and of the list allocated for it, after ceil(total / (max_sg_cnt * PAGE_SIZE)) chunks |
| `NvmetTransfer.CoversOnce` | Data/119/nonvuln/CWE-119_non-vul_470.c:14-33 | Every byte of the data is in exactly one chunk of a complete plan |
| `NvmetTransfer.ResponseAllOrNothing` | Data/119/nonvuln/CWE-119_non-vul_439.c:47-81 | In every run a response is handed to the driver only after every chunk was moved in full, or none was tried; the response that goes along with the last chunk of a read, only after every other chunk was |
| `NvmetTransfer.WriteArrivesWhole` | Data/119/nonvuln/CWE-119_non-vul_439.c:16-45 | In every run a write reaches the upper layer only after all chunks were asked for and arrived in full |
| `NvmetTransfer.PagesBackIff` | Data/119/nonvuln/CWE-119_non-vul_457.c:7-17 | In every run, when a command is about to be released and while its fod is pooled, as many of its pages are still allocated as the DMA mapping counted fewer segments than there are pages; so all are back if and only if it counted every one, and the list is gone if and only if it counted any |
| `NvmetTransfer.OldListForgotten` | Data/119/nonvuln/CWE-119_non-vul_456.c:44-45 | Pages that were not given back are forgotten when the next command is started |
| `NvmetWitness.LeakingRun` | Data/119/nonvuln/CWE-119_non-vul_430.c:30-34 | For every length, and every count from 0 to the number of pages that the mapping may give: a run after which the command is released, its fod pooled, and as many pages left as were not counted |
| `NvmetAnswers.StepAnswers` | Data/119/nonvuln/CWE-119_non-vul_439.c:14-91 | What holds of the past of every command is kept by every step: which statuses, answers and troubles lead where |
| `NvmetAnswers.StartedIff` | Data/119/nonvuln/CWE-119_non-vul_456.c:19-86 | In every run a command is refused if and only if the flags of its header disagree with it: a writing flag without a writing command, a reading flag alone with a writing one, or no flag and some data; any other goes on, a write to its first chunk and the rest to the upper layer, unless that refuses it or the pages cannot be had |
| `NvmetAnswers.ReadDataByStatus` | Data/119/nonvuln/CWE-119_non-vul_485.c:23-51 | In every run, with a response due or at the driver for a command whose header says read and whose mapping counted any segment: a completion with status 0 means that all of the data the header asks for was sent, and any other status that none was tried |
| `NvmetAnswers.OtherDataByHeader` | Data/119/nonvuln/CWE-119_non-vul_439.c:16-45 | In every run, with a response due or at the driver: a command whose header says write and that got its pages has had all of its data fetched, and one whose header says neither has had none moved |
| `NvmetAnswers.ReadDataRspIff` | Data/119/nonvuln/CWE-119_non-vul_470.c:28-33 | In every run data of a read is at the driver only after a completion with status 0, and the response goes along with it if and only if it is the last chunk and the driver can combine the two |
| `NvmetAnswers.AnsweredOrGivenUp` | Data/119/nonvuln/CWE-119_non-vul_439.c:14-91 | In every run a command about to be released had exactly one response completed by the driver, or was given up and had at most one; it was given up if and only if its header disagreed with it, the driver refused an operation or did not complete one in full, or its abort flag was found raised when an operation or the request was done |
| `NvmetAnswers.ReleasedAnswered` | Data/119/nonvuln/CWE-119_non-vul_449.c:13-21 | In every run, at rest or not, each released command had exactly one response completed or was given up, and never more than one |
| `NvmetAnswers.AskedOnce` | Data/119/nonvuln/CWE-119_non-vul_417.c:10-18 | In every run the driver is told at most once to abort a command, and a command that is given up was aborted already or it is told |
| `NvmetAnswers.VisitedIsMarked` | Data/119/nonvuln/CWE-119_non-vul_464.c:15-34 | In every run a fod in use when the deletion comes by has its abort flag set until it is released, and counts as aborted if it was waiting for write data then |
| `NvmetAnswers.MarkedBeforeDraining` | Data/119/nonvuln/CWE-119_non-vul_464.c:15-34 | In every run, when the deletion has gone through the fods, each fod in use has its abort flag set unless it serves a deferred command |
| `NvmetWitness.EscapesDeletion` | Data/119/nonvuln/CWE-119_non-vul_449.c:43-53 | For every number of fods but none, with deferral: a run in which a deferred command is bound to a fod that the deletion has just passed, and is in use without its abort flag when the deletion goes on to the pending list |
| `NvmetQueue.SettleIsRun` | Data/119/nonvuln/CWE-119_non-vul_439.c:14-91 | One call of a function of the engine, undisturbed, is a run of the step system made of internal steps, and keeps the invariant |
| `NvmetQueue.SettleHandsOff` | Data/119/nonvuln/CWE-119_non-vul_439.c:14-91 | Such a call ends with the fod handed to the driver, to the upper layer or to a work item, or back in the pool |
| `NvmetTargetQueue.TargetQueue.constructor` | Data/119/nonvuln/CWE-119_non-vul_426.c:8-17 | The object starts as the initial state of the step system, all fods in the pool in order |
| `NvmetTargetQueue.TargetQueue.FreeFcpIod` | Data/119/nonvuln/CWE-119_non-vul_449.c:13-59 | Releases the command and pools the fod, or rebinds it to the first deferred command: the undisturbed steps, on the real fields |
| `NvmetTargetQueue.TargetQueue.AbortOp` | Data/119/nonvuln/CWE-119_non-vul_417.c:8-18 | Gives the pages back and frees the fod: the undisturbed steps |
| `NvmetTargetQueue.TargetQueue.FreeTgtPgs` | Data/119/nonvuln/CWE-119_non-vul_457.c:7-17 | Frees one page for each segment counted and then the list, and clears list and count, unless there is no list or its count is 0; nothing else changes |
| `NvmetTargetQueue.TargetQueue.XmtFcpRsp` | Data/119/nonvuln/CWE-119_non-vul_473.c:7-14 | Sends the response or aborts: the undisturbed steps |
| `NvmetTargetQueue.TargetQueue.PrepareData` | Data/119/nonvuln/CWE-119_non-vul_470.c:10-33 | Fills the request for the next chunk: length, and the combined response on the last read chunk |
| `NvmetTargetQueue.TargetQueue.TransferFcpData` | Data/119/nonvuln/CWE-119_non-vul_470.c:10-54 | Submits the next chunk, or runs the error path: the undisturbed steps |
| `NvmetTargetQueue.TargetQueue.FodOpAbort` | Data/119/nonvuln/CWE-119_non-vul_432.c:8-18 | Says whether the operation was aborted and has then finished it: the undisturbed steps |
| `NvmetTargetQueue.TargetQueue.FodOpDone` | Data/119/nonvuln/CWE-119_non-vul_439.c:9-91 | Completion of an operation: the undisturbed steps up to the next hand-off |
| `NvmetTargetQueue.TargetQueue.OpComplete` | Data/119/nonvuln/CWE-119_non-vul_423.c:4-11 | A driver completion stored in the request and handled: the undisturbed steps |
| `NvmetTargetQueue.TargetQueue.CmdDone` | Data/119/nonvuln/CWE-119_non-vul_485.c:10-51 | Completion of a request by the upper layer: abort, data to send, or response, as the undisturbed steps |
| `NvmetTargetQueue.TargetQueue.ReqComplete` | Data/119/nonvuln/CWE-119_non-vul_467.c:4-7 | The upper layer's callback: the undisturbed steps |
| `NvmetTargetQueue.TargetQueue.SetUpRequest` | Data/119/nonvuln/CWE-119_non-vul_456.c:19-89 | The checks and fields of a new command and where it goes from there: abort, completion with an error, first write chunk, or execution |
| `NvmetTargetQueue.TargetQueue.HandleFcpRqst` | Data/119/nonvuln/CWE-119_non-vul_456.c:19-89 | A queued command is started: the undisturbed steps |
| `NvmetTargetQueue.TargetQueue.FindTargetQueue` | Data/119/vuln/CWE-119_vul_019.c:12-21 | The lookup takes a reference exactly if the queue is connected and not freed |
| `NvmetTargetQueue.TargetQueue.RcvFcpReq` | Data/119/nonvuln/CWE-119_non-vul_441.c:20-85 | Arrival: result code, pool, pending list and reference count for each of not connected, accepted, no deferral, no memory and deferred |
| `NvmetTargetQueue.RcvFields` | Data/119/nonvuln/CWE-119_non-vul_441.c:20-85 | The whole arrival, field by field, and which of the five results it has |
| `NvmetTargetQueue.TargetQueue.AbortLoadFod` | Data/119/nonvuln/CWE-119_non-vul_433.c:5-5 | The load of the pointer, at any moment: finds exactly the fod linked to the request |
| `NvmetTargetQueue.TargetQueue.AbortTestFod` | Data/119/nonvuln/CWE-119_non-vul_433.c:9-11 | The unlocked test, at any later moment: goes on exactly if the fod is still tied to the request |
| `NvmetTargetQueue.TargetQueue.AbortMarkFod` | Data/119/nonvuln/CWE-119_non-vul_433.c:15-27 | The lock section, at any later moment and whatever the fod serves by then: one step, which marks an active fod and nothing else |
| `NvmetTargetQueue.TargetQueue.RcvFcpAbort` | Data/119/nonvuln/CWE-119_non-vul_433.c:5-27 | The three with nothing in between: marks exactly the fod linked to the request, if it is active |
| `NvmetTargetQueue.TargetQueue.StartDeletion` | Data/119/nonvuln/CWE-119_non-vul_464.c:11-13 | The queue is not connected any more, and the marking begins |
| `NvmetTargetQueue.TargetQueue.TakeDeferred` | Data/119/nonvuln/CWE-119_non-vul_464.c:44-50 | The lock section that takes the first deferred command or finds none, whatever other threads did before: one step |
| `NvmetTargetQueue.TargetQueue.DropCreationRef` | Data/119/nonvuln/CWE-119_non-vul_464.c:72 | The last put, whatever other threads did before: one step |
| `NvmetTargetQueue.TargetQueue.DeleteTargetQueue` | Data/119/nonvuln/CWE-119_non-vul_464.c:11-72 | With nothing in between: marks every active fod, frees the spare list entries, drains the pending list, drops the creation reference, and leaves pool and links alone |
| `NvmetTargetQueue.TargetQueue.MarkOutstanding` | Data/119/nonvuln/CWE-119_non-vul_464.c:15-34 | The loop over the fods |
| `NvmetTargetQueue.TargetQueue.DrainPending` | Data/119/nonvuln/CWE-119_non-vul_464.c:43-64 | The loop over the deferred commands empties the list |
| `NvmetTargetQueue.AllocTgtPgs` | Data/119/nonvuln/CWE-119_non-vul_430.c:10-48 | One entry per page, in the order the allocator gives them, full pages but for the last, adding up to the length, with the count of the mapping; nothing, and every page taken given back, if the list or a page cannot be had |
| `CqLocks.DeadlockFree` | Data/119/nonvuln/CWE-119_non-vul_135.c:4-28 | With any number of threads, null and equal CQs included: while some thread is unfinished some thread can go on |
| `CqLocks.EveryRunFinishes` | Data/119/nonvuln/CWE-119_non-vul_120.c:4-26 | Every run that cannot go on has finished all jobs of all threads and left no lock taken |
| `CqLocks.RunIsBounded` | Data/119/nonvuln/CWE-119_non-vul_135.c:4-28 | A run of n steps uses up exactly n of the sections there were to run |
| `CqLocks.StepKeeps` | Data/119/nonvuln/CWE-119_non-vul_135.c:4-28 | Every lock is held by the one thread that took it and has not dropped it |
| `CqLocks.UnlockReverses` | Data/119/nonvuln/CWE-119_non-vul_120.c:4-26 | Unlocking drops exactly the locks taken, in the opposite order |
| `CqLocks.BothLocked` | Data/119/nonvuln/CWE-119_non-vul_135.c:6-17 | Both CQs of a pair are locked if and only if different CQs have different numbers |
| `CqLocks.Protected` | Data/119/nonvuln/CWE-119_non-vul_135.c:4-28 | With distinct numbers a thread at work holds each of its CQs and no other thread holds any of them |
| `CqLocks.LockCqs` | Data/119/nonvuln/CWE-119_non-vul_135.c:4-28 | Acquires exactly the locks of the pair one by one in the order of the CQ numbers, as the log of acquisitions shows |
| `CqLocks.UnlockCqs` | Data/119/nonvuln/CWE-119_non-vul_120.c:4-26 | Releases exactly those, one by one in the opposite order, as the log of releases shows |
| `CqLocks.OrderAgrees` | Data/119/nonvuln/CWE-119_non-vul_135.c:4-28 | The two orders on the CQ objects are the lock and unlock orders of the step system |
| `GlobLanguage.SubMatchExact` | Data/119/nonvuln/CWE-119_non-vul_757.c:4-17 | For patterns without classes and braces that do not end in a star: null if and only if no prefix of the name is in the pattern's language, and otherwise the end of the shortest such prefix |
| `GlobLanguage.EndsInOrder` | Data/119/nonvuln/CWE-119_non-vul_757.c:8-13 | Why stopping at the first hit of a star is enough: a match that starts later does not end earlier |
| `GlobLanguage.WildMatchExact` | Data/119/nonvuln/CWE-119_non-vul_896.c:7-13 | For those patterns WildMatch accepts exactly the names in the language that have no proper prefix in it |
| `GlobLanguage.WildMatchStarFree` | Data/119/nonvuln/CWE-119_non-vul_896.c:7-13 | Without stars WildMatch decides the language |
| `GlobLanguage.WildMatchEndStar` | Data/119/nonvuln/CWE-119_non-vul_757.c:5-7 | With a star at the end WildMatch decides the language |
| `GlobLanguage.WildMatchIncomplete` | Data/119/nonvuln/CWE-119_non-vul_896.c:7-13 | In general it does not: `*a` refuses `aa` |
| `GlobChoice.ElementsSound` | Data/119/nonvuln/CWE-119_non-vul_757.c:68-82 | With `{a,b}` alternatives every end returned delimits a prefix in the declarative language |
| `GlobChoice.WildMatchSound` | Data/119/nonvuln/CWE-119_non-vul_896.c:7-13 | With `{a,b}` alternatives an accepted name is in the language |
| `GlobChoice.ElementsFoundIff` | Data/119/nonvuln/CWE-119_non-vul_757.c:68-82 | With `{a,b}` alternatives that have no stars in them, and stars anywhere else: an end is found if and only if some prefix of the name is in the language |
| `GlobChoice.WildMatchComplete` | Data/119/nonvuln/CWE-119_non-vul_896.c:7-13 | For those patterns a name in the language with no proper prefix in it is accepted |
| `GlobChoice.StarInChoiceMissed` | Data/119/nonvuln/CWE-119_non-vul_757.c:68-82 | With a star inside an alternative this fails: `{*a}b` refuses `aab` |
| `Glob.UnclosedIsSkipped` | Data/119/nonvuln/CWE-119_non-vul_757.c:68-89 | An opening brace that is neither closed nor followed by a comma is skipped |
| `Glob.SubMatch` | Data/119/nonvuln/CWE-119_non-vul_757.c:4-91 | The pointer loop with its recursive calls computes the match function, for every pattern without classes, well-formed or not, and terminates |
| `Glob.StarLoop` | Data/119/nonvuln/CWE-119_non-vul_757.c:8-13 | The loop over the places after a star |
| `Glob.AltLoop` | Data/119/nonvuln/CWE-119_non-vul_757.c:70-82 | The loop over the alternatives, unclosed braces included |
| `Glob.FindSep` | Data/119/nonvuln/CWE-119_non-vul_757.c:71 | The scan for the end of an alternative |
| `Glob.FindClose` | Data/119/nonvuln/CWE-119_non-vul_757.c:74-75 | The scan for the closing brace |
| `RunLength.Compress` | Data/119/vuln/CWE-119_vul_043.c:121-163 | The pointer loops write the token of every maximal run, in order |
| `RunLength.CountRun` | Data/119/vuln/CWE-119_vul_043.c:135-136 | The inner count is the length of the maximal run |
| `RunLength.EmitRun` | Data/119/vuln/CWE-119_vul_043.c:144-154 | The triples of a long run |
| `RunLength.RoundTrip` | Data/119/vuln/CWE-119_vul_043.c:121-163 | Decoding the output gives the line with every maximal run of length 257k+1, k >= 1, lengthened by 256 and nothing else changed |
| `RunLength.LosslessIff` | Data/119/vuln/CWE-119_vul_043.c:121-163 | The compressor is lossless if and only if the line has no maximal run of length 257k+1, k >= 1 |
| `RunLength.DecodeTriples` | Data/119/vuln/CWE-119_vul_043.c:144-154 | What the triples of one run decode to, the wrapped count included |
| `RunLength.SizeBound` | Data/119/vuln/CWE-119_vul_043.c:121-163 | The output is at most 3/2 as long as the line |
| `RunLength.SizeBoundIsTight` | Data/119/vuln/CWE-119_vul_043.c:121-163 | Lines of every even length reach the bound |
| `TextFile.Save` | Data/119/vuln/CWE-119_vul_025.c:30-58 | The byte-order mark followed by the bytes of every unit up to the terminator |
| `TextFile.SaveUtf8` | Data/119/vuln/CWE-119_vul_025.c:34-51 | The UTF-8 loop |
| `TextFile.SaveUcs2` | Data/119/vuln/CWE-119_vul_025.c:55-58 | The UCS-2 loop |
| `TextFile.WriteUnit` | Data/119/vuln/CWE-119_vul_025.c:35-50 | The four branches for one unit and the one behind it |
| `TextFile.Load` | Data/119/nonvuln/CWE-119_non-vul_948.c:10-56 | Format detection and the loop for the format |
| `TextFile.ReadUtf8` | Data/119/nonvuln/CWE-119_non-vul_948.c:26-46 | The UTF-8 loop, truncated sequences and a full buffer included |
| `TextFile.ReadChar` | Data/119/nonvuln/CWE-119_non-vul_948.c:27-45 | The branches for one character, with EOF read as -1 |
| `TextFile.ReadUcs2` | Data/119/nonvuln/CWE-119_non-vul_948.c:48-56 | The UCS-2 loop in either byte order |
| `TextFile.Ucs2Composition` | Data/119/nonvuln/CWE-119_non-vul_948.c:48-56 | A text saved as UCS-2 loads as itself, up to the room there is, also with the bytes of the file swapped |
| `TextFile.Utf8Composition` | Data/119/vuln/CWE-119_vul_025.c:34-51 | A text saved as UTF-8 loads with the low half of every surrogate pair doubled, up to the room there is |
| `TextFile.Utf8LosslessIff` | Data/119/vuln/CWE-119_vul_025.c:34-51 | With room enough the UTF-8 round trip is lossless if and only if the text has no surrogate pair |
| `TextFile.HeadRoundTrip` | Data/119/vuln/CWE-119_vul_025.c:35-50 | The bytes of a unit (section 3 of RFC 3629), or of a surrogate pair (sections 2.1 and 2.2 of RFC 2781), are read back as that unit or that pair |
| `TextFile.ExpandGrows` | Data/119/vuln/CWE-119_vul_025.c:40-45 | The doubled text is longer exactly if there is a pair, and at most twice as long |
| `TextFile.UnitIsUtf8` | Data/119/vuln/CWE-119_vul_025.c:35-50 | A unit that starts no surrogate pair is written as the shortest UTF-8 form of its number (section 3 of RFC 3629) |
| `TextFile.PairIsUtf8` | Data/119/vuln/CWE-119_vul_025.c:40-45 | The two units of any number from 0x10000 to 0x10ffff (section 2.1 of RFC 2781) are written as the UTF-8 form of that number |
| `TextFile.HeadIs` | Data/119/nonvuln/CWE-119_non-vul_948.c:27-45 | What is read for each first byte, stray continuation bytes included, and which two units a four-byte form gives |
| `DexDebug.ParseOpcodes` | Data/119/vuln/CWE-119_vul_038.c:83-251 | The opcode loop over the array of locals computes the state machine, with its early return and the accesses it does not check |
| `DexDebug.EmitIfLive` | Data/119/vuln/CWE-119_vul_038.c:119-134 | Closes the range of a live register at the current address |
| `DexDebug.RangesAreTheTrace` | Data/119/vuln/CWE-119_vul_038.c:83-251 | For every opcode sequence that runs to its end: the ranges of a register are ordered and do not overlap, positions never go back, and the ranges with the open one cover exactly the addresses at which a naive interpreter has the register live, with the same declaration, up to the address reached -- if and only if the addresses fit 32 bits; the converse rests on the address reached, and the order has its own condition in OrderedIff (Dalvik Executable format, section debug_info_item) |
| `DexDebug.FitsIsFaithful` | Data/119/vuln/CWE-119_vul_038.c:83-251 | The half of it that holds, by induction over the opcodes, with the final address |
| `DexDebug.StepAgrees` | Data/119/vuln/CWE-119_vul_038.c:85-249 | One opcode keeps ranges and trace in agreement |
| `DexDebug.StepOrdered` | Data/119/vuln/CWE-119_vul_038.c:85-249 | One opcode keeps the ranges ordered |
| `DexDebug.WrapAround` | Data/119/vuln/CWE-119_vul_038.c:89-95 | A run in which the address wraps round leaves a range that ends before it starts |
| `DexDebug.PositionsAreTheRows` | Data/119/vuln/CWE-119_vul_038.c:232-248 | There is one position per special opcode, with the address and line moves up to it summed and cut to 32 bits and the file named last |
| `DexDebug.SpecialMoves` | Data/119/vuln/CWE-119_vul_038.c:232-248 | The special opcode 0x0a + 15 a + (l + 4), for any address step a and line step l from -4 to 10, moves the address by a and the line by l in 32 bits, appends that position and changes nothing else |
| `DexDebug.SpecialPasses` | Data/119/vuln/CWE-119_vul_038.c:232-248 | The naive interpreter passes a addresses for it, with the register as it is |
| `DexDebug.SpecialDecodes` | Data/119/vuln/CWE-119_vul_038.c:232-236 | Every special opcode is that of exactly one pair of steps |
| `DexDebug.RunStops` | Data/119/vuln/CWE-119_vul_038.c:112-116 | An early return keeps its result whatever follows |
| `DexDebug.OutcomeIff` | Data/119/vuln/CWE-119_vul_038.c:112-220 | The loop gets to the end if and only if every register named exists; else the first opcode that names one that does not decides: a declaration returns early, DBG_END_LOCAL and DBG_RESTART_LOCAL go past the locals |
| `DexDebug.WrapWhileLive` | Data/119/vuln/CWE-119_vul_038.c:89-95 | A register live when the address wraps round to below its start gets a range that ends before it starts, however it is ended |
| `DexDebug.RegisterOrder` | Data/119/vuln/CWE-119_vul_038.c:83-251 | For every run and register, by induction over the opcodes: the ranges of the register are ordered if and only if the addresses, cut to 32 bits, at which opcodes open or close one of them never go back |
| `DexDebug.OrderedIff` | Data/119/vuln/CWE-119_vul_038.c:83-251 | The exact condition for the order of all ranges at the end of a run, in terms of the opcodes: for no register does the address, cut to 32 bits, go back between two opcodes that open or close a range of it, or from one to the end |
| `WqeRing.SetDataInlSeg` | Data/119/nonvuln/CWE-119_non-vul_133.c:12-37 | Gathers all entries behind the header at consecutive positions going round the ring and changes nothing else; fails exactly if they are too long, with the entries before the limit written; the size in 16-byte units is the least that holds them |
| `WqeRing.SetRegUmrInlineSeg` | Data/119/nonvuln/CWE-119_non-vul_214.c:8-16 | The same for one block without a header |
| `WqeRing.CopyWrapped` | Data/119/nonvuln/CWE-119_non-vul_133.c:22-30 | A copy in one or two pieces is one write going round the ring |
| `WqeRing.ReadFirst` | Data/119/nonvuln/CWE-119_non-vul_151.c:15-34 | The tests and the first copy: fails exactly if the queue is empty, the buffer is too short for a control segment, or the entry or the copy reaches past the user's memory |
| `WqeRing.ReadRest` | Data/119/nonvuln/CWE-119_non-vul_151.c:48-53 | The second copy: fails if it reaches past the user's memory, else goes past the buffer if the entry is too long for it |
| `WqeRing.ReadUserWqe` | Data/119/nonvuln/CWE-119_non-vul_151.c:15-53 | What is read for every queue and memory: the bytes up to the end of the queue or the buffer, then those from its start, the length returned, and each failure |
| `WqeRing.LengthFromControl` | Data/119/nonvuln/CWE-119_non-vul_151.c:36-41 | The length of a send entry is 16 times the low six bits of the second word of its control segment, read with the highest byte first |
| `WqeRing.ReadableIff` | Data/119/nonvuln/CWE-119_non-vul_151.c:22-34 | An entry of a queue in the user's memory can be read if and only if there is one and, for a send queue, the buffer has room for 16 bytes |
| `WqeRing.EntryComesOut` | Data/119/nonvuln/CWE-119_non-vul_151.c:31-53 | For a queue in the user's memory, an entry that fits the buffer and the queue comes out contiguous, however it lies in the ring |
| `WqeRing.WrittenTwice` | Data/119/nonvuln/CWE-119_non-vul_133.c:14-31 | Two writes in a row are one write of their concatenation |
| `WqeRing.HeaderInFront` | Data/119/nonvuln/CWE-119_non-vul_133.c:33 | The header written last is as if written first |
| `WqeRing.ReadWritten` | Data/119/nonvuln/CWE-119_non-vul_151.c:31-53 | A read that covers what was written returns it, in its place |
| `WqeRing.GatherThenRead` | Data/119/nonvuln/CWE-119_non-vul_151.c:21-53 | What is gathered, header and data, is what a read of the entry around it returns, wrapped or not, and every other byte of the ring is as before |
| `WqeRing.WrittenFrame` | Data/119/nonvuln/CWE-119_non-vul_133.c:12-33 | A write leaves every byte outside its stretch alone |
| `WqeRing.TwoPieces` | Data/119/nonvuln/CWE-119_non-vul_151.c:31-53 | The two pieces of a wrapped read are the bytes going round the ring |
| `WqeRing.Fitting` | Data/119/nonvuln/CWE-119_non-vul_133.c:17-20 | Where the length limit is passed |
| `RecvQueue.RunIsAQueue` | Data/119/nonvuln/CWE-119_non-vul_199.c:27-75 | Over every interleaving of batches and completions with wrapping 32-bit counters: completions find the posted requests in order, each request left has its own slot with its number and segments, and there are never more than `max_post` |
| `RecvQueue.MaxPostIff` | Data/119/nonvuln/CWE-119_non-vul_175.c:6-15 | In every run completions find the requests in turn if and only if `max_post` is at most the number of slots |
| `RecvQueue.OneKeeps` | Data/119/nonvuln/CWE-119_non-vul_199.c:29-63 | Posting a request fills a slot that no outstanding request has |
| `RecvQueue.CompleteKeeps` | Data/119/nonvuln/CWE-119_non-vul_199.c:60 | A completion finds the number of the oldest outstanding request |
| `RecvQueue.EndKeeps` | Data/119/nonvuln/CWE-119_non-vul_199.c:66-67 | Moving the head at the end of a batch keeps the queue |
| `RecvQueue.OverflowIff` | Data/119/nonvuln/CWE-119_non-vul_175.c:6-15 | The room test fails exactly if the queue is full |
| `RecvQueue.ReceiveQueue.Arrive` | Data/119/nonvuln/CWE-119_non-vul_175.c:6-12 | Completions during a batch take requests behind the head out of the queue, in order, and leave the batch alone |
| `RecvQueue.ReceiveQueue.WqOverflow` | Data/119/nonvuln/CWE-119_non-vul_175.c:6-15 | With any completions between the two looks at the counters: no room exactly if the queue is full at the second look |
| `RecvQueue.ReceiveQueue.PostRecv` | Data/119/nonvuln/CWE-119_non-vul_199.c:20-79 | With any completions before and inside every room test: appends the requests up to the first that does not fit; which error, how many, the new head and the doorbell; a broken device refuses all unless draining |
| `RecvQueue.ReceiveQueue.FillEntry` | Data/119/nonvuln/CWE-119_non-vul_199.c:46-53 | The entry: the segments, an invalid one behind them if there is room |
| `RecvQueue.ReceiveQueue.PostOne` | Data/119/nonvuln/CWE-119_non-vul_199.c:42-62 | One slot filled is one step of the batch |
| `BitReader.Bitfile.InitBits` | Data/119/nonvuln/CWE-119_non-vul_569.c:11-47 | The cursor is at bit 0; an empty buffer only sets the error flag |
| `BitReader.Bitfile.RewindBits` | Data/119/nonvuln/CWE-119_non-vul_574.c:5-28 | The cursor is back at bit 0 |
| `BitReader.Bitfile.ResetBits` | Data/119/vuln/CWE-119_vul_022.c:4-33 | A seek puts the cursor at the bit asked for, its loads inside the buffer, if its word starts in the buffer or at its end; in every other case the unsigned count wraps round and a load goes past the end of the buffer |
| `BitReader.Bitfile.FlushBitsEx` | Data/119/nonvuln/CWE-119_non-vul_570.c:5-16 | Crossing a word boundary advances the cursor by the argument |
| `BitReader.Bitfile.FlushBits` | Data/119/nonvuln/CWE-119_non-vul_568.c:7 | A flush of up to 32 bits advances the cursor by its argument |
| `BitReader.Bitfile.ByteAlign` | Data/119/nonvuln/CWE-119_non-vul_568.c:3-10 | Rounds the cursor up to a multiple of 8 and returns the distance |
| `BitReader.Bitfile.GetProcessedBits` | Data/119/nonvuln/CWE-119_non-vul_567.c:3 | The place of the cursor, as a 32-bit number |
| `BitReader.Load` | Data/119/nonvuln/CWE-119_non-vul_570.c:6-15 | The next word, zero padded, and what is left behind it |
| `BitReader.FlushesAreASeek` | Data/119/vuln/CWE-119_vul_022.c:4-33 | A seek gives the very state that any list of flushes with that sum gives |
| `BitReader.LookAhead` | Data/119/nonvuln/CWE-119_non-vul_570.c:5-16 | The two words hold the bits of the bytes of the buffer from the cursor on, the highest first, and zeros behind its end |
| `BitReader.WordBits` | Data/119/nonvuln/CWE-119_non-vul_569.c:24-27 | The bits of a word are those of its four bytes, the highest first |
| `Mixer.ConversionRoundTrip` | Data/119/nonvuln/CWE-119_non-vul_516.c:3-25 | A value comes back from its bytes if and only if it fits the type, and what is read always fits |
| `Mixer.BytesAre` | Data/119/nonvuln/CWE-119_non-vul_506.c:3-15 | The bytes of a value are the value itself in the width of the type; 1 or 0 for a boolean, and the opposite for an inverted one |
| `Mixer.UserValueRoundTrip` | Data/119/nonvuln/CWE-119_non-vul_497.c:3-10 | Every value the user can choose, 0 to ceil((max-min)/res), survives the way to the device's range and back |
| `Mixer.RelIsStepBelow` | Data/119/nonvuln/CWE-119_non-vul_497.c:5-10 | A device value between two steps is shown as the lower one, one below the range as 0, and one at or above its end as the topmost step |
| `Mixer.AbsIsClamped` | Data/119/nonvuln/CWE-119_non-vul_552.c:3-11 | A negative value is the minimum; as long as nothing overflows any other is that many steps above it, up to the maximum |
| `Mixer.ZeroResolution` | Data/119/nonvuln/CWE-119_non-vul_497.c:3-4 | A resolution of 0 counts as 1 |
| `Mixer.AbsInRangeIff` | Data/119/nonvuln/CWE-119_non-vul_552.c:3-11 | For every value of the user, in 32-bit arithmetic: it becomes one between minimum and maximum if and only if it is negative, or product and sum do not overflow, or both wrap round to above the range |
| `Mixer.LargeValueLeavesRange` | Data/119/nonvuln/CWE-119_non-vul_552.c:3-11 | For every control with an even resolution the topmost 32-bit value becomes one a step below the minimum |
| `MixerCache.RunCoherentIff` | Data/119/nonvuln/CWE-119_non-vul_503.c:16-23 | Over every run of gets, puts, device changes and resets, with any failing transfers, the cached values are the device's all the way if and only if every event is safe |
| `MixerCache.SafeIff` | Data/119/nonvuln/CWE-119_non-vul_537.c:6-26 | An event keeps the cache coherent if and only if it is safe: a put writes no value that does not fit, a change is reported on a channel listened to, a reset loses no value that is not written back |
| `MixerCache.PutKeepsIff` | Data/119/nonvuln/CWE-119_non-vul_517.c:8-34 | A put, stopped or not, leaves the cache coherent if and only if every value that reaches a channel it can write fits the type |
| `MixerCache.InRangeIsSafe` | Data/119/nonvuln/CWE-119_non-vul_552.c:3-11 | Values that land in the range of the control are safe to put |
| `MixerCache.GetIsTheDevice` | Data/119/nonvuln/CWE-119_non-vul_498.c:8-29 | The cache is transparent: a get returns the device's values, and succeeds if and only if every channel is cached or answers |
| `MixerCache.PutThenGet` | Data/119/nonvuln/CWE-119_non-vul_517.c:8-34 | After a successful put of offered values every later get, from cache or device, returns them on the channels that can be written and the old values on the others |
| `MixerCache.PutUpToIs` | Data/119/nonvuln/CWE-119_non-vul_517.c:10-23 | What each channel shows after a put of any values, stopped or not, exactly which channels disagree with the device, and when it reports a change |
| `MixerCache.GetUpToIs` | Data/119/nonvuln/CWE-119_non-vul_498.c:10-19 | What is cached after a get, stopped or not |
| `MixerCache.WriteKeepsIff` | Data/119/nonvuln/CWE-119_non-vul_503.c:16-23 | An accepted write leaves the cache coherent if and only if the value fits the type |
| `MixerCache.RestoreIff` | Data/119/nonvuln/CWE-119_non-vul_537.c:6-26 | After a reset the restore makes the cache coherent if and only if the cached channels it does not write -- read-only ones, and those from the first refused write on -- show what they showed before |
| `MixerCache.NotifyIff` | Data/119/nonvuln/CWE-119_non-vul_550.c:10-43 | A change reported by interrupt leaves the cache coherent if and only if the channel is not cached, or the interrupt reaches the control with a channel below MAX_CHANNELS, or the value is the same |
| `MixerCache.InvalidateHeals` | Data/119/nonvuln/CWE-119_non-vul_550.c:36-39 | If the cache agrees with the device but for the channel of the interrupt, it agrees on all afterwards |
| `MixerElem.MixerElem.GetCurMixValue` | Data/119/nonvuln/CWE-119_non-vul_546.c:6-20 | The cached value, or the device's put into the cache |
| `MixerElem.MixerElem.SetCurMixValue` | Data/119/nonvuln/CWE-119_non-vul_503.c:5-23 | Device and cache written, or nothing for a read-only channel or a failed transfer |
| `MixerElem.MixerElem.GetAbsValue` | Data/119/nonvuln/CWE-119_non-vul_552.c:3-11 | The clamped value in 32-bit arithmetic; a zero resolution becomes 1 |
| `MixerElem.MixerElem.GetRelativeValue` | Data/119/nonvuln/CWE-119_non-vul_497.c:3-10 | The user's value; a zero resolution becomes 1 |
| `MixerElem.MixerElem.FeatureGet` | Data/119/nonvuln/CWE-119_non-vul_498.c:8-29 | The loop over the channel mask, or the master channel, is the control's get |
| `MixerElem.MixerElem.FeaturePut` | Data/119/nonvuln/CWE-119_non-vul_517.c:8-36 | The loop over the channel mask, or the master channel, is the control's put |
| `MixerElem.MixerElem.RestoreMixerValue` | Data/119/nonvuln/CWE-119_non-vul_537.c:6-28 | The loop over the channel mask, or the master channel, is the restore |
| `MixerElem.EveryBitHasARank` | Data/119/nonvuln/CWE-119_non-vul_517.c:9-22 | The loop counter is the rank of the bit among the bits set |
| `MixerElem.Interrupt` | Data/119/nonvuln/CWE-119_non-vul_550.c:10-59 | Exactly the controls that the interrupt is about -- the only one of the unit, or the one numbered -- lose the channel, or all channels for the master one, and are coherent again if they were but for that channel |
| `KeyTable.RegisterKeeps` | Data/119/vuln/CWE-119_vul_014.c:9-43 | A failed registration changes nothing and a successful one adds one reference to the key and none to others, unless the key is new and all scanned slots are taken while the table claims room: then slot -1 is written, the total raised and index -1 returned as success, or only slot -1 written if the firmware refuses |
| `KeyTable.RunCountsIff` | Data/119/vuln/CWE-119_vul_014.c:9-43 | Every run on a fresh table ends with a good table and the right counts if and only if the table claims no more room than it has scanned slots |
| `KeyTable.OneTooMany` | Data/119/vuln/CWE-119_vul_014.c:31-43 | With more room claimed, registering one key more than scanned slots writes to slot -1 and leaves the total one too high |
| `KeyTable.ScanIs` | Data/119/vuln/CWE-119_vul_013.c:8-22 | The scan finds the slot of the key if there is one, and else the first free slot |
| `KeyTable.UnregisterKeeps` | Data/119/nonvuln/CWE-119_non-vul_276.c:6-17 | Takes one reference from the key of the slot and none from others; a free slot is left alone |
| `KeyTable.ZeroMacIff` | Data/119/vuln/CWE-119_vul_014.c:10-20 | A MAC address of 0, once accepted, leaves the table good if and only if the scan meets a slot that holds 0 before a second free slot or, if none holds it, exactly one scanned slot is free |
| `KeyTable.RunCounts` | Data/119/vuln/CWE-119_vul_013.c:8-43 | Over every run of registrations and unregistrations with a fallible firmware, on a table with no more room than scanned slots, the keys stay distinct, the total is the number of slots in use, and a key's count is its successful registrations less its unregistrations |
| `KeyTable.EmptyIsGood` | Data/119/nonvuln/CWE-119_non-vul_270.c:6-11 | The initial table satisfies the invariant and counts nothing |
| `KeyTable.Ports.Init` | Data/119/nonvuln/CWE-119_non-vul_270.c:6-11 | Every slot is cleared |
| `KeyTable.Ports.RegisterMac` | Data/119/vuln/CWE-119_vul_014.c:9-46 | The MAC scan, which does not look at the count of a slot before comparing its key |
| `KeyTable.Ports.RegisterVlan` | Data/119/vuln/CWE-119_vul_013.c:8-46 | The VLAN scan, which does |
| `KeyTable.Ports.Take` | Data/119/vuln/CWE-119_vul_014.c:24-43 | The part behind the scan, with the firmware's refusal undone |
| `KeyTable.Ports.UnregisterKey` | Data/119/nonvuln/CWE-119_non-vul_274.c:5-24 | Special slots and free slots are left alone; the last reference clears the slot |
| `Bfreg.RunKeeps` | Data/119/nonvuln/CWE-119_non-vul_155.c:6-18 | Over every run with matched frees: counts are the registers out and sum to their number, a high register has one user at most, register 0 is out at version 2 only without a medium class, and below version 2 no other is |
| `Bfreg.AllocsStayLevel` | Data/119/nonvuln/CWE-119_non-vul_168.c:4-18 | In a run of allocations alone the medium class is untouched until the high class is used up, and its loads stay at most one apart |
| `Bfreg.ClassOrder` | Data/119/nonvuln/CWE-119_non-vul_155.c:6-18 | A medium register is given out only when every high one is taken, and is a least loaded one; register 0 exactly below version 2 or without any other choice |
| `Bfreg.Classes` | Data/119/nonvuln/CWE-119_non-vul_163.c:6-9 | The last `num_low_latency_bfregs` registers are the high class and those between register 0 and them the medium one; with no room for that many there is no medium class and every register but 0 is high |
| `Bfreg.ClassesPart` | Data/119/nonvuln/CWE-119_non-vul_260.c:6-7 | Each register is register 0, a medium or a high one, and only one of these |
| `Bfreg.HighCount` | Data/119/nonvuln/CWE-119_non-vul_163.c:6-9 | There are exactly as many high registers as were asked for, or all but register 0 |
| `Bfreg.ChosenIs` | Data/119/nonvuln/CWE-119_non-vul_155.c:6-18 | What is given out, by the numbers: register 0 below version 2, then the first free one of the last registers, then the first least used one before them, then register 0 |
| `Bfreg.BfregInfo.AllocHighClass` | Data/119/nonvuln/CWE-119_non-vul_179.c:6-13 | The first unused high register, or none if all are taken |
| `Bfreg.BfregInfo.AllocMedClass` | Data/119/nonvuln/CWE-119_non-vul_168.c:4-18 | The first least loaded medium register, although the search stops at a zero; none without a medium class |
| `Bfreg.BfregInfo.AllocBfreg` | Data/119/nonvuln/CWE-119_non-vul_155.c:6-20 | The classes in order; exactly one count goes up by one |
| `Bfreg.BfregInfo.FreeBfreg` | Data/119/nonvuln/CWE-119_non-vul_160.c:4 | Exactly one count goes down by one |

## Left out

- NVMe: a second deletion of a queue, the association and login messages, the layout of the response and of the completion entry with the queue head counters, and the DMA mapping of fods; a failure of that mapping while the pool is filled is not part of this model.
- NVMe: lengths and offsets are unbounded numbers, not 32-bit ones; each arrival is a command of its own, so that reuse of a request by the driver is a new command.
- NVMe: the driver completes each operation it accepts once and the upper layer each request once; both may take any time and give any result.  The variant that queues completions to a work item is covered, since a task may wait at any point.
- NVMe: the malformed-header check at the head of the arrival is left out; such a command takes no reference and no fod.
- NvmetTargetQueue.TargetQueue.RcvFcpAbort: nothing comes between its three sections; AbortLoadFod, AbortTestFod and AbortMarkFod are the sections with anything in between.
- NVMe: a DMA mapping that counts more segments than the list has entries, which the interface of the mapping rules out; without a device the count is the number of entries.
- NvmetTargetQueue.TargetQueue.DeleteTargetQueue: no other thread runs between its sections; StartDeletion, TakeDeferred and DropCreationRef are the sections with anything in between.
- CqLocks: what the locks protect, the sparse-checker annotations, and the interrupt state that the caller saves.
- Glob: character classes `[...]`, matching that ignores case, and a null pattern.  The language is given for alternatives that are not nested and are closed; the matcher itself is modelled for all braces.
- RunLength: the removal of zeros at both ends of a line and the printer's command strings.  The decoder is the reading of the triples that the comments of the driver give.
- TextFile: files without a mark, whose conversion from the local encoding is not part of this model; opening, dialogs and the allocation of the buffer.
- DexDebug: the variable-length numbers and string tables (operands come decoded), the loop that sets up the parameters (their registers are a given start state), failures of `malloc`, and the printing and database part.
- DexDebug.ParseOpcodes: an access past the locals is the result `Unchecked`, since the code does not test the register of DBG_END_LOCAL and DBG_RESTART_LOCAL.
- WqeRing: the address arithmetic of entries in pages, and the sum of lengths is an unbounded number.
- WqeRing.ReadUserWqe: a copy past the end of the buffer is the result `Overrun`, since the code leaves it to its caller; `ib_umem_copy_from` is given its meaning, since its code is not part of this model.
- RecvQueue: the optional signature segment, the queue pair for general services, and memory barriers.  `& (wqe_cnt - 1)` is written as a remainder, which it equals for powers of two.  Completions take the number at the tail and advance it; that code is not part of this model.
- BitReader: `faad_flushbits`, `getdword` and `getdword_n` are given meanings, since their code is not part of this model.
- BitReader.Bitfile.ResetBits: a negative bit number; the words that loads outside the buffer give are not stated.
- BitReader.Bitfile.FlushBits: taken as "subtract if fewer than the bits left, else cross the word boundary".
- Mixer: value types of 32 bits, ranges that do not fit the value type, resolutions below 0, and the number that an error is turned into.  A failed transfer leaves the device as it was.
- MixerElem: bits of the channel mask from MAX_CHANNELS on; notification of listeners.
- KeyTable: the mutex and the firmware's mailbox; what lies in memory at slot -1, and an unregistration of index -1.
- KeyTable.ScanIs: does not cover a MAC address of 0, which is the subject of KeyTable.ZeroMacIff, or a key wider than the mask.
- Bfreg: the page arithmetic that gives the number of registers, and the width of the counts.
- Everything else in the repository: user-interface, drawing and printing functions, parsers whose helpers are not there, and functions that copy attributes.
