# Kernel objects and a serial port server, verified

This project models eight pieces of a uClinux distribution (its linux2510 kernel
and the sercd server) in Dafny and proves what they are for. Each piece keeps one
simple meaning under intricate list surgery, buffering or arithmetic; the proofs
connect the two.

| area | files | simple meaning |
|---|---|---|
| POSIX record locks | RecordLocks, LockEffects, LockShape, LockOverwrite, LockWrap, LockSystem, LockRuns, LockMeaning, LockAnswers, LockWakes, LockWaits, LockTables | a table of bytes with an owner and a kind; nobody waits in vain; when owners wait in a circle |
| System V semaphores | Semaphores, SemLedger, SemAnswers, SemOutcomes, SemMaximum, SemQueue, SemFates, SemWakeups, SemPids, SemArrays, SemPending, SemLinked | vectors applied from left to right, all or nothing; values and adjustments always balance; who sleeps has to |
| System V messages | MessageQueues, MessageRuns, MessageAnswers, MessageMeetings, MessageCalls | first in, first out by type; nobody sleeps next to a message for it |
| sequential files | SeqFile, SeqReads, SeqRuns, SeqCalls | a reader of the concatenation of all records |
| mount tree | MountTree, MountWalk, MountSteps, MountCalls, MountAnswers | a forest, walked in preorder, copied and taken apart |
| pipes | Rings, PipeRing, PipeRuns, PipeAnswers, PipeCalls | one queue of bytes, small writes in one piece |
| exec arguments | ExecImage, ExecCalls | argv and envp as two tables of strings |
| sercd and comp_t | Telnet, TelnetRuns, SercdAnswers, Sercd, SercdFrames, SercdClient, SercdConnections, SercdPeer, SercdRounds, SercdCalls, CompT | escaping that is undone; rings that redirection never overflows; the nearest 13+3 bit number |

`Options`, `Seqs`, `Chains`, `Relations` and `Bytes` hold what the areas share.

How the areas are built: the effect of an operation is a function on values
(`Apply`, `Update`, `Next`, ...), and the properties are lemmas about those
functions and about all runs of the machines made of them. Code that works in
place is a class whose methods have the loops of the original and are proved
equal to those functions through a `View()` of the object's fields. A task that
sleeps ends its event; the event of waking up is a new one, in any order with
those of other tasks, which is exactly what the big kernel lock, the per-set and
per-queue spin locks and the pipe semaphore allow.

## Where the code does not do what one would expect

Seventeen statements that one would like to make are false of the code. In each case
the model follows the code, a lemma gives the exact condition, and another shows an
input.

- `posix_lock_file` tests `fl_start > fl_end + 1` in a signed 64-bit offset.
  A request up to OFFSET_MAX wraps there. `ApplyIsOverwriteIff` proves that the
  lock list is right afterwards if and only if the request does not reach
  OFFSET_MAX while the caller already holds a lock of its kind that ends at or
  behind the byte before the request; `RunMeansIff` says the same of whole runs, and
  `LockingTwiceToTheEnd` is the shortest example. There the bytes are still right:
  `BytesRightIff` says that they go wrong exactly if a lock of another kind lies behind
  such a lock, as in `TwoKindsOnAByte`.
- `posix_locks_deadlock` follows the one lock that each sleeper is queued on, but a write
  request waits for every reader in its way. So owners can end up asleep in a circle.
  `SystemFreeIff`: a run never has such a circle if and only if no request goes to sleep
  that an owner of any lock in its way is waiting for. `DeadlockPastTheCheck` is a run of
  five requests, `OneStopperNoDeadlock` shows that it takes a sleeper stopped by two
  owners, and `NoFalseAlarm` that -EDEADLK is always right.
- `seq_read` does not reset `m->count` when it enlarges the buffer.
  `ReadCorrectIff`: a read is right if and only if it did not have to enlarge its
  buffer; `PageLongRecord` is an example, and `ShortIsClean` shows that records
  shorter than a page never lead there.
- `sem_exit` adds adjustments without an upper check. `ExitKeepsMaximumIff`: exit,
  update_queue included, keeps the values within SEMVMX if and only if no sum of a value
  and the process's adjustment exceeds it; `RunKeepsMaximumIff` shows that nothing else
  in a run goes over the top, and `ExitOverTheTop` is a run that does.
- `update_queue` is a single pass, so a sleeper can be left asleep although it could go
  on. `LeavesBehindIff`: a vector that is performed for its sleeper can leave an earlier
  sleeper behind if and only if it raises something. `PassServes` gives the condition on a
  whole queue, and `NobodySleepsInVain` shows that in runs there are just two ways into
  that state: a vector that raises and lowers nothing goes to sleep, or a process that has
  been told to try again exits without adjustments. `LeftAsleep` and `MarkLost` are a run
  of each kind. The second way is narrow: a sleeper that is killed first returns from
  schedule() and tries again (sem.c:952-957), so sem_exit finds it in the queue
  (sem.c:1002-1014) only if it dies inside sys_semop.
- A vector that fails is taken back, but not always in what GETPID shows:
  `try_atomic_semop` shifts `sempid` by one process per operation, has room for two, and
  shifts back at the wait-for-zero exit what it had not shifted in. `GetpidKeptIff` says
  exactly when the answer is unchanged; `WrongPidShown` is a call after which it is wrong.
- The copy loop of `load_flat_binary` compares a signed index with the unsigned
  `bprm->p`. `CopyDownEndsIff`: it ends if and only if `p` is not 0; `Exec` says for which
  calls that is, and `PageFillingArgument` is one that is accepted and does not end.
- sercd sends its COM port replies through `EscWriteChar`, which stuffs a NUL
  between a carriage return and the byte that follows. `ReplyIsFramedIff`: a reply is the
  proper suboption for its data if and only if binary mode is on or no byte of the data
  asks for a NUL; `ReplyAfterCarriageReturn` is a run that sends a spoilt one.
- sercd's two `Last` bytes differ around an option that is sent between two data bytes:
  `EscWriteChar` remembers the data, a peer that parses like `EscRedirectChar` the option.
  `LogReadIff` says of every stream of data and options exactly when each item arrives as
  it was; `OfferInARun` is a run of three events in which one does not.
- sercd dispatches a suboption when the number of bytes that its kind asks for has come, and
  undoes the doubling of IAC in a signature only. `FrameReadIff`: a suboption, whatever its
  option and parameters, is read as what the client meant if and only if it is a signature,
  or has no parameter 255 and is as long as its kind asks for; `DoubledParameter` is one
  after which the device gets the end of the command.
- sercd reads every other command as three bytes, and RFC 854 has some of two, such as NOP.
  `SignalSwallows`: the byte behind one is always lost; `NopAndALetter` is an example.
  `StreamReadIff` says of every stream of characters, new lines, commands and suboptions
  exactly when every item is read right, and `DeviceGetsTheCharacters` carries it to runs.
  Besides these two kinds of items, characters fail that are sent in another mode than the
  server is in; `ReturnAfterTheOffer` is one.
- A new connection gets fresh rings and options, but the parser stays as the client before
  left it. `ConnectionReadIff`: the items of a new client are read right if and only if they
  are clear and the client before did not leave in the middle of a command;
  `EveryClientIsServed` follows any number of clients, and `LeftInTheMiddle` is a pair of
  whom the second loses two characters.
- sercd confirms an option again that is already agreed on, which RFC 854 forbids because it
  can go on for ever. `NegotiationEndsIff`: with a peer that answers in the same way, an
  offer that sercd knows comes to an end if and only if one of the two had asked for it.
- sercd asks select about network input before the round, and divides the room that is left
  in the round by a byte's worst case. `MayAskForNothingIff` says exactly in which states a
  round can then ask for 0 bytes and take the answer for the end of the connection
  (sercd.c:1076-1093); `OneByteTooMany` is such a round.
- The room for a modem state notice is also looked up before the round, and alone.
  `NoticeFitsIff`: it is certain to fit if and only if the room before the round was enough
  for a read from the device, a reply and the notice; `NoticeTooLate` is a round in which it
  does not.
- `sys_msgsnd` tests for room before it looks for a receiver that would take the message
  without any, and `sys_msgrcv` does not look at sleeping senders. `RunMeetIff` says exactly
  which calls lead to a sender and a receiver that sleep next to each other;
  `FullButWanted` is a run of either kind.
- A write of at most PIPE_BUF bytes is in one piece, but not always whole: where the end of
  the ring divides it, `copy_from_user` may fail for the second part. `Put` says exactly when
  and what is then in the ring, `ShortWriteWholeIff` what that does to the call, and
  `TornWrite` is a case.

## Model

| member | source | states |
|---|---|---|
| LockOverwrite.ApplyIsOverwriteIff | linux2510/fs/locks.c:915-1029 | on every list that is sorted, disjoint and merged within contiguous owner groups, and every valid request: the new list has that shape again and holds exactly the old bytes with the caller's range set to the new kind (or cleared), if and only if the request is not one whose `fl_end + 1` wraps against an own lock |
| LockOverwrite.WrapsBreaksTheList | linux2510/fs/locks.c:935-936 | every request of the wrapping family on a well-formed list leaves a list that is not |
| LockOverwrite.LockingTwiceToTheEnd | linux2510/fs/locks.c:927-936 | read-locking a whole file twice leaves two overlapping locks of one owner |
| LockOverwrite.NoWrap | linux2510/fs/locks.c:935-936 | away from that family the caller's end is below OFFSET_MAX wherever the loop computes `fl_end + 1`, so it does not wrap |
| LockWrap.BytesRightIff | linux2510/fs/locks.c:915-1029 | on every well-formed list and valid request: the bytes, apart from the shape of the list, are the old ones with the range overwritten, if and only if the request is not of the wrapping family with an own lock of another kind behind an own lock of its kind that it touches |
| LockWrap.TwoKindsOnAByte | linux2510/fs/locks.c:935-936 | with a read lock on byte 0 and a write lock on byte 5, read-locking the whole file leaves byte 5 locked in both kinds by one owner |
| LockEffects.UnwokenLocksOnlyGrow | linux2510/fs/locks.c:927-1028 | on ANY list: a lock whose waiters are not woken is still there, with its identity, owner and kind, and covers at least what it covered |
| LockEffects.NoStrayBytes | linux2510/fs/locks.c:927-1028 | on ANY list: no byte is locked afterwards that was not locked before or asked for |
| LockEffects.UniqueApply | linux2510/fs/locks.c:876-883 | identities of locks stay pairwise different when the two structures allocated in advance are new |
| LockEffects.NoUnlocksApply | linux2510/fs/locks.c:1005-1012 | F_UNLCK never becomes the type of a listed lock |
| LockShape.Assemble | linux2510/fs/locks.c:1005-1029 | replacing the middle of an owner's group by left remnant, new lock and right remnant keeps order, groups and every byte outside the range |
| RecordLocks.Skip | linux2510/fs/locks.c:919-924 | the first lock of the owner: everything before it is foreign |
| LockSystem.FirstConflict | linux2510/fs/locks.c:887-893 | a lock that stops the request, or none does |
| LockMeaning.TestLockAgrees | linux2510/fs/locks.c:638-652 | posix_test_lock, which swaps the arguments of the conflict test, names the very lock that the scan of posix_lock_file stops at |
| LockMeaning.ScanIsFree | linux2510/fs/locks.c:887-906 | the scan finds nothing exactly when no byte of the range is held by somebody else in a conflicting way |
| LockAnswers.AnswerIs | linux2510/fs/locks.c:886-905 | over who holds which byte, in every well-formed state: granted exactly if nobody else holds a byte of the range with either of the two writing; else -EAGAIN without waiting; else -EDEADLK exactly if the owner of the first lock in the way waits, perhaps through others, for the caller; else asleep |
| LockAnswers.OnlySleepersAreEntered | linux2510/fs/locks.c:886-905 | exactly then the caller is asleep afterwards, on the first lock in its way; nobody else goes to sleep, and a request that is hindered changes no lock |
| LockWakes.WokenLocksChange | linux2510/fs/locks.c:927-1028 | on ANY list with distinct identities: a lock whose waiters are woken is then gone, of another kind, or no longer covers what it did |
| LockWakes.StaysAsleepIff | linux2510/fs/locks.c:444-463 | through every event a sleeper stays asleep if and only if it is not interrupted and the lock that it sleeps on stands with at least what it had |
| LockMeaning.CloseMeans | linux2510/fs/locks.c:1726-1755 | a close clears exactly the bytes of that file and those owners, and keeps the shape of the lists |
| LockMeaning.NextMeansIff | linux2510/fs/locks.c:865-1041 | an event leaves well-formed lists that denote what a machine on plain bytes gets, if and only if it does not grant a request of the wrapping family |
| LockMeaning.RunMeansIff | linux2510/fs/locks.c:865-1041 | a run does so at every step if and only if it grants no such request; then its end denotes the table that the machine on plain bytes, which knows no lists, merges or splits, arrives at |
| LockRuns.InvGrant | linux2510/fs/locks.c:915-1029 | granting keeps: different owners never clash on a byte, every sleeper is stopped by the very lock it sleeps on, nobody sleeps twice, the waits-for graph has no cycle |
| LockRuns.InvSleep | linux2510/fs/locks.c:893-905 | going to sleep after posix_locks_deadlock said no closes no cycle and keeps the rest |
| LockRuns.InvClose | linux2510/fs/locks.c:1726-1755 | so does a close |
| LockRuns.InvInterrupt | linux2510/fs/locks.c:619-626 | so does the end of an interrupted wait |
| LockRuns.InvNext | linux2510/fs/locks.c:865-1041 | so does every event in every such state |
| LockRuns.InvRun | linux2510/fs/locks.c:865-1041 | so does every run |
| LockMeaning.RunIsSafe | linux2510/fs/locks.c:546-580 | in every reachable state locks of different owners on one byte are both read locks, and each sleeper's own blocker still stops it, so the scan would stop it again |
| LockMeaning.SomebodyIsAwake | linux2510/fs/locks.c:654-694 | in every reachable state the chain of recorded blockers, one for each sleeper, ends at an owner that is awake |
| LockWaits.OthersKept | linux2510/fs/locks.c:915-1029 | on ANY list: a granted request changes no lock of another owner |
| LockWaits.GrantWaits | linux2510/fs/locks.c:915-1029 | with who-waits-for-whom over all locks that stop a sleeper, a grant closes no circle of waiting owners |
| LockWaits.SleepWaits | linux2510/fs/locks.c:893-905 | going to sleep makes the owner wait for every owner of a lock in its way, and changes nothing else |
| LockWaits.NextFreeIff | linux2510/fs/locks.c:865-1041 | an event closes such a circle if and only if it puts a request to sleep that some owner of a lock in its way waits for, in one or more steps |
| LockWaits.RunFreeIff | linux2510/fs/locks.c:865-1041 | from every state without a circle: a run never has one if and only if it has no such event |
| LockWaits.SystemFreeIff | linux2510/fs/locks.c:865-1041 | the same of every run of the system from its start |
| LockWaits.NoFalseAlarm | linux2510/fs/locks.c:668-694 | -EDEADLK is only returned to a request that would have closed a circle |
| LockWaits.DeadlockNeedsTwo | linux2510/fs/locks.c:668-694 | in every circle that the check let through somebody is stopped by two owners |
| LockWaits.OneStopperNoDeadlock | linux2510/fs/locks.c:668-694 | over every run: where nobody is stopped by two owners there is no circle |
| LockWaits.DeadlockPastTheCheck | linux2510/fs/locks.c:680-693 | a run of five requests after which two owners sleep, each stopped by a lock of the other |
| Relations.AddFromIff | linux2510/fs/locks.c:668-694 | edges from an owner that had none close a circle if and only if one of their ends leads back to it |
| Chains.ChainEnds | linux2510/fs/locks.c:680-693 | in a graph without cycles following the edges ends, which is why posix_locks_deadlock terminates |
| LockTables.LockTable.WakeUpBlocks | linux2510/fs/locks.c:444-463 | exactly the waiters of that lock leave the block lists, the others keep their order |
| LockTables.LockTable.FindConflict | linux2510/fs/locks.c:887-893 | the loop finds the first lock that stops the request |
| LockTables.LockTable.NextOwner | linux2510/fs/locks.c:680-691 | the search of blocked_list finds whose lock the owner waits for |
| LockTables.LockTable.DeadlockCheck | linux2510/fs/locks.c:668-694 | ends, and answers yes exactly when the chain from the blocker's owner reaches the caller |
| LockTables.LockTable.DeleteLock | linux2510/fs/locks.c:483-522 | the lock is unlinked and exactly its waiters are woken |
| LockTables.LockTable.VisitSameKind | linux2510/fs/locks.c:929-957 | the loop body for a lock of the caller's kind: merge, absorb, pass or stop, on the list and the block lists |
| LockTables.LockTable.VisitOtherKind | linux2510/fs/locks.c:958-997 | the loop body for another kind: trim, split, replace, delete, pass or stop |
| LockTables.LockTable.ScanLocks | linux2510/fs/locks.c:926-1003 | the whole loop |
| LockTables.LockTable.TrimLocks | linux2510/fs/locks.c:1013-1028 | both remnants are trimmed and their waiters woken |
| LockTables.LockTable.FinishLocks | linux2510/fs/locks.c:1005-1029 | insertion, split and trims |
| LockTables.LockTable.ApplyLock | linux2510/fs/locks.c:915-1029 | the new lists and block lists are those of the value model |
| LockTables.LockTable.PosixLockFile | linux2510/fs/locks.c:865-1041 | decides (granted, -EAGAIN, -EDEADLK, asleep) and moves exactly as the machine does, and keeps its invariant; on well-formed lists it grants exactly what nobody hinders and returns -EAGAIN exactly for a hindered request that may not wait |
| LockTables.LockTable.RemovePosix | linux2510/fs/locks.c:1726-1755 | with a restart at the head after each deletion, removes exactly the locks of the closing owner |
| LockTables.LockTable.PosixTestLock | linux2510/fs/locks.c:638-652 | finds the lock that posix_lock_file would stop at |
| SemArrays.SemSet.TryAtomicSemop | linux2510/ipc/sem.c:243-312 | for every vector, also with repeated semaphores: the result is that of a pure run from left to right; on success without do_undo all of it is committed to semval, semadj and sempid, otherwise semval and semadj are restored, also from the early exits, and sempid is what the shifts to and fro leave |
| SemArrays.SemSet.DoOp | linux2510/ipc/sem.c:252-277 | one operation with its tests between the updates, and its shift of sempid |
| SemArrays.SemSet.Forward | linux2510/ipc/sem.c:251-278 | where the forward loop stops and what it has done by then, to sempid too |
| SemArrays.SemSet.RollBack | linux2510/ipc/sem.c:300-309 | the reverse loop takes back exactly that from semval and semadj, and shifts sempid back once for each operation |
| SemPids.ForthPushes | linux2510/ipc/sem.c:251-278 | the forward loop shifts the caller into sempid once for each operation that the reverse loop will take back, but for a wait-for-zero exit |
| SemPids.GetpidKeptIff | linux2510/ipc/sem.c:243-312 | a vector that fails leaves what GETPID shows for a semaphore unchanged if and only if it took back none of its operations, or one that had been shifted in, or one that had not where both halves of sempid agree, or several where no process was shown |
| SemPids.WrongPidShown | linux2510/ipc/sem.c:255-256 | after a failed wait for zero GETPID shows the process before the last one |
| SemArrays.UnshiftShift | linux2510/ipc/sem.c:300-309 | taking back an operation undoes performing it, for the value and the adjustment |
| SemQueue.ExecIsShiftAll | linux2510/ipc/sem.c:250-284 | a vector that succeeds has performed every operation |
| SemAnswers.ExecIs | linux2510/ipc/sem.c:250-298 | by partial sums: a vector fails at its first operation that finds a value other than zero to wait for, would make it negative or more than 32767, or an adjustment that leaves 16 bits; with sleep, or -EAGAIN if that operation carries IPC_NOWAIT, in the first two cases and -ERANGE in the others; without such an operation the values and adjustments change by the sums |
| SemAnswers.SucceedsIff | linux2510/ipc/sem.c:250-284 | it succeeds if and only if there is none |
| SemAnswers.NowaitNeverSleeps | linux2510/ipc/sem.c:840-1055 | over every run nobody sleeps whose operations all carry IPC_NOWAIT |
| SemOutcomes.SemopMeans | linux2510/ipc/sem.c:840-927 | a call that is not acceptable changes nothing; a vector that succeeds is performed, one that is refused is not, and the pass follows if it can change anything; the caller sleeps exactly if the answer is to wait, queued unmarked, last if it can change anything and else first |
| SemOutcomes.ResumeMeans | linux2510/ipc/sem.c:952-971 | a process that was told to try again is out, or asleep unmarked exactly if it still has to wait |
| SemOutcomes.SignalMeans | linux2510/ipc/sem.c:958-971 | an interrupted sleeper is out and the pass follows |
| SemOutcomes.SetValMeans | linux2510/ipc/sem.c:635-650 | exactly a legal value is set, all adjustments to it are cleared and everything else stays, before the pass |
| SemOutcomes.SetAllMeans | linux2510/ipc/sem.c:580-600 | likewise for all values |
| SemOutcomes.ExitMeans | linux2510/ipc/sem.c:992-1055 | the process leaves the queue, its adjustments are made and no value is below zero, it has none left and those of others stay, before the pass |
| SemOutcomes.QueueInOrder | linux2510/ipc/sem.c:922-925 | over every run those who only wait for zero stand before all others |
| SemFates.PassDecides | linux2510/ipc/sem.c:317-343 | in a pass each sleeper that is reached unmarked meets what its vector answers at that moment: it stays, is told to try again, is performed, or gets its error |
| SemLedger.ExecBalance | linux2510/ipc/sem.c:258-278 | a vector that succeeds changes semval plus semadj by its operations without SEM_UNDO and by nothing else |
| SemLedger.ExecKeeps | linux2510/ipc/sem.c:252-278 | it keeps values non-negative and adjustments in range, and touches adjustments only with SEM_UNDO |
| SemQueue.UpdateQueueSpec | linux2510/ipc/sem.c:317-343 | one pass: the values are the old ones with the committed vectors performed; calls complete in the order of the queue; survivors keep their order and their marks; at most one is newly marked for retry, and that one decreases and can run; a call committed on behalf of a sleeper does not decrease |
| SemQueue.UpdateFinishes | linux2510/ipc/sem.c:317-343 | only queued calls are completed |
| SemQueue.UpdateSurvivors | linux2510/ipc/sem.c:317-343 | who stays is who was not completed, in the old order |
| SemQueue.UpdateInOrder | linux2510/ipc/sem.c:322-342 | calls are completed in the order of the queue |
| SemLedger.QueueBalanced | linux2510/ipc/sem.c:317-343 | after a change that a log accounts for, update_queue leaves books that the longer log accounts for |
| SemLedger.SemopBalanced | linux2510/ipc/sem.c:840-978 | semop keeps every value non-negative and the books exact |
| SemLedger.ResumeBalanced | linux2510/ipc/sem.c:952-971 | so does the retry of a woken sleeper |
| SemLedger.SignalBalanced | linux2510/ipc/sem.c:958-971 | so does an interrupted sleep |
| SemLedger.SetValBalanced | linux2510/ipc/sem.c:635-650 | so does SETVAL, with its reset logged |
| SemLedger.SetAllBalanced | linux2510/ipc/sem.c:580-600 | so does SETALL |
| SemLedger.ExitBalanced | linux2510/ipc/sem.c:1016-1050 | so does exit: only what the clamp at zero adds is new |
| SemLedger.NextBalanced | linux2510/ipc/sem.c:840-1055 | so does every event |
| SemLedger.RunBalanced | linux2510/ipc/sem.c:840-1055 | over every run: values non-negative, adjustments in range, and semval plus all live adjustments changed exactly by operations without SEM_UNDO, SETVAL and SETALL, and the clamp on exit |
| SemMaximum.UpdateAtMost | linux2510/ipc/sem.c:317-343 | a pass moves no value across SEMVMX, in either direction |
| SemMaximum.ExitKeepsMaximumIff | linux2510/ipc/sem.c:992-1055 | from values within SEMVMX, exit with its pass of update_queue leaves them there if and only if the process has no adjustment whose sum with the value exceeds SEMVMX |
| SemMaximum.NextKeepsMaximumIff | linux2510/ipc/sem.c:840-1055 | no other event takes a value over SEMVMX |
| SemMaximum.RunKeepsMaximumIff | linux2510/ipc/sem.c:840-1055 | a run stays within SEMVMX throughout if and only if none of its exits finds such a sum |
| SemMaximum.ExitOverTheTop | linux2510/ipc/sem.c:1041-1047 | a run of three calls that ends with the value 32768 |
| SemWakeups.PassServes | linux2510/ipc/sem.c:317-343 | after a pass over a queue in which no vector that raises and lowers nothing stands behind an unmarked sleeper, no unmarked sleeper could go on unless a marked one will |
| SemWakeups.LeavesBehindIff | linux2510/ipc/sem.c:317-343 | a vector that lowers nothing and is performed for its sleeper can leave an earlier sleeper asleep in vain if and only if it raises something |
| SemWakeups.NextAttends | linux2510/ipc/sem.c:840-1055 | every event keeps it so, except that such a vector goes to sleep, or that a marked sleeper without adjustments exits |
| SemWakeups.NobodySleepsInVain | linux2510/ipc/sem.c:840-1055 | so over every run without those two: no unmarked sleeper could go on unless a marked one will |
| SemWakeups.LeftAsleep | linux2510/ipc/sem.c:317-343 | a run of three calls after which a sleeper is unmarked, alone and could go on |
| SemWakeups.MarkLost | linux2510/ipc/sem.c:1002-1014 | a run after which the exit of the marked sleeper leaves the next one asleep in vain |
| SemArrays.SemSet.VisitEntry | linux2510/ipc/sem.c:322-342 | one entry of the queue: passed, retried later, completed or kept |
| SemArrays.SemSet.UpdateQueue | linux2510/ipc/sem.c:317-343 | the loop performs one pass of the value model |
| SemArrays.SemSet.Inspect | linux2510/ipc/sem.c:870-881 | the scan of a vector: all in the set, any SEM_UNDO, decreases, alters |
| SemArrays.SemSet.SysSemop | linux2510/ipc/sem.c:840-927 | result and new state up to the sleep or the return, including the three refusals |
| SemArrays.SemSet.AfterSleep | linux2510/ipc/sem.c:945-971 | state and result of the retry, or of an interrupted sleep (-EINTR) |
| SemArrays.SemSet.ClearUndos | linux2510/ipc/sem.c:642-643 | the adjustment of one semaphore is cleared in every record |
| SemArrays.SemSet.SetVal | linux2510/ipc/sem.c:614-650 | SETVAL with its two errors |
| SemArrays.SemSet.SetAll | linux2510/ipc/sem.c:580-600 | SETALL with its error |
| SemArrays.SemSet.Adjust | linux2510/ipc/sem.c:1041-1047 | adds a whole record, clamped at zero, and leaves the process in every sempid |
| SemArrays.SemSet.RemovePending | linux2510/ipc/sem.c:999-1014 | the exiting process leaves the queue |
| SemArrays.SemSet.SemExit | linux2510/ipc/sem.c:992-1055 | exit on one set, update_queue included |
| SemPending.PendingList.Append | linux2510/ipc/sem.c:209-214 | with pointers to pointers: the node is last, everything else unchanged |
| SemPending.PendingList.Prepend | linux2510/ipc/sem.c:216-225 | the node is first |
| SemPending.PendingList.Bypass | linux2510/ipc/sem.c:229-233 | the pointers on both sides skip the node |
| SemPending.PendingList.Remove | linux2510/ipc/sem.c:227-236 | the node is out, the queue is well formed and otherwise unchanged |
| SemLinked.LinkedSet.Enqueue | linux2510/ipc/sem.c:922-925 | the node and its entry are last or first, in the links and in the set |
| SemLinked.LinkedSet.MarkNode | linux2510/ipc/sem.c:334-338 | the entry of the node is marked, in its place of the linked queue; nothing else changes |
| SemLinked.LinkedSet.TakeOut | linux2510/ipc/sem.c:339-340 | a completed call leaves the links and the set |
| SemLinked.LinkedSet.Visit | linux2510/ipc/sem.c:322-342 | the loop body on the node: afterwards its next pointer, also when it was just taken out, leads to the next entry |
| SemLinked.LinkedSet.UpdateQueue | linux2510/ipc/sem.c:317-343 | the walk along the links performs one pass, and the links still spell out the queue |
| MessageRuns.RunInv | linux2510/ipc/msg.c:626-849 | in every state of every run: no listed receiver matches a queued message, q_qnum and q_cbytes are exact, no unwoken sender could go on, and per type what was sent is what was delivered followed by what is queued, so each message is queued or was handed to one receiver, in order |
| MessageRuns.InitInv | linux2510/ipc/msg.c:626-849 | an empty queue is such a state |
| MessageRuns.NextInv | linux2510/ipc/msg.c:626-849 | every event keeps it |
| MessageRuns.SendInv | linux2510/ipc/msg.c:651-699 | sending keeps it: handed over, queued, asleep or refused |
| MessageRuns.ReceiveInv | linux2510/ipc/msg.c:745-844 | receiving keeps it |
| MessageRuns.SleepInv | linux2510/ipc/msg.c:799-815 | a receiver that goes to sleep misses no queued message |
| MessageRuns.BestIsOldest | linux2510/ipc/msg.c:754-769 | the message taken is the oldest of its type; for a negative type none of a smaller type matches; otherwise nothing older matches |
| MessageAnswers.ReceiveMeans | linux2510/ipc/msg.c:709-844 | in terms of the arguments alone: the oldest message, the oldest of the type, with MSG_EXCEPT the oldest of another type, for a negative type the oldest of the least type up to it is taken and all sleeping senders try again, unless it is too long; if there is none the caller is refused or listed, and matches from then on exactly what it asked for |
| MessageAnswers.BestIsChosen | linux2510/ipc/msg.c:754-769 | that message is found, and none exactly if none is queued |
| MessageAnswers.SendMeans | linux2510/ipc/msg.c:651-693 | a message that is too long or has no type is refused; without room it is refused or waits; else the first listed receiver that can take it gets it, and without one it is queued last |
| MessageAnswers.OthersMean | linux2510/ipc/msg.c:540-558 | a new limit makes all sleeping senders and receivers try again; who stops waiting leaves its list |
| MessageRuns.PipelineSpec | linux2510/ipc/msg.c:600-624 | who is left waiting was waiting and everybody who does not match is; if nobody took the message nobody left matches it; a taker matched it and had room for it |
| MessageRuns.PipelineIs | linux2510/ipc/msg.c:600-624 | the first receiver that can take the message takes it; in front of it exactly those that do not match stay, in order; those behind it stay |
| MessageRuns.ReceiversAccounted | linux2510/ipc/msg.c:600-849 | over every run a receiver that went to sleep is listed, was handed a message, was told -E2BIG, or left on its own, and each just once |
| MessageRuns.WantedTypeNotQueued | linux2510/ipc/msg.c:578-598 | a waiting receiver that matches a message proves that none of its type is queued |
| MessageMeetings.NextMeetIff | linux2510/ipc/msg.c:651-674 | an event leads to an unwoken sender and a receiver that would take its message, both asleep, if and only if a sender goes to sleep on a full queue next to such a receiver or a receiver next to such a sender |
| MessageMeetings.RunMeetIff | linux2510/ipc/msg.c:626-849 | a run never has such a pair if and only if no call goes to sleep like that |
| MessageMeetings.FullButWanted | linux2510/ipc/msg.c:651-674 | two runs of four calls from an empty queue that end with such a pair |
| MessageCalls.BestTightened | linux2510/ipc/msg.c:758-767 | lowering the type to one below the candidate found goes on to the same choice |
| MessageCalls.MsgQueue.PipelinedSend | linux2510/ipc/msg.c:600-624 | walks and unlinks exactly as the value model |
| MessageCalls.MsgQueue.MsgSnd | linux2510/ipc/msg.c:626-707 | reply and new queue up to the sleep or the return |
| MessageCalls.MsgQueue.FindMsg | linux2510/ipc/msg.c:754-769 | the search that lowers its type as it goes finds the best message |
| MessageCalls.MsgQueue.MsgRcv | linux2510/ipc/msg.c:728-849 | reply (message and number of bytes copied, -E2BIG, -ENOMSG, asleep) and new queue; the message is the one chosen by msgtyp and MSG_EXCEPT |
| SeqReads.ReadCorrectIff | linux2510/fs/seq_file.c:45-134 | a read returns the next piece of the concatenated records and the file then stands behind it, if and only if it did not have to enlarge its buffer; it never returns more than asked |
| SeqReads.PageLongRecord | linux2510/fs/seq_file.c:79-97 | reading a single record of a page goes wrong, whatever fresh memory holds |
| SeqReads.NothingReadIff | linux2510/fs/seq_file.c:45-134 | a read of a positive size that does not enlarge the buffer returns nothing exactly at the end, or behind empty records before one that is too long |
| SeqReads.ShortReadMeans | linux2510/fs/seq_file.c:98-126 | a read that returns less than asked for has come to the end, or to a record that does not fit into the buffer behind the others |
| SeqReads.RefillAccounts | linux2510/fs/seq_file.c:78-126 | what a refill delivers and keeps is what its first record left in the buffer and then the following records, byte by byte |
| SeqReads.FillAppends | linux2510/fs/seq_file.c:100-115 | the second loop appends whole records and takes back one that overflows |
| SeqRuns.TraverseLands | linux2510/fs/seq_file.c:144-184 | a pass of traverse stands where that many bytes have been read, or overflowed |
| SeqRuns.SeekLands | linux2510/fs/seq_file.c:198-226 | a seek goes to the offset (origin 0) or as far from the position (origin 1), and the file stands there as if that many bytes had been read from the start; before the start and for other origins it is refused and changes nothing |
| SeqRuns.RunIsPlain | linux2510/fs/seq_file.c:45-226 | any series of reads and seeks that never enlarges the buffer in a read returns what a reader of the plain concatenation gets |
| SeqRuns.ReadAgain | linux2510/fs/seq_file.c:198-226 | a read, a seek back by what it returned, and another read deliver bytes from the same place |
| SeqRuns.PiecesInARow | linux2510/fs/seq_file.c:45-134 | reads alone return consecutive pieces |
| SeqRuns.ShortIsClean | linux2510/fs/seq_file.c:79-97 | with records shorter than a page no series of calls ever enlarges the buffer in a read |
| SeqRuns.ReadsAfterSeek | linux2510/fs/seq_file.c:198-226 | with such records, reads after a seek return consecutive pieces from that offset on |
| SeqRuns.EmptyReadMeansEnd | linux2510/fs/seq_file.c:45-134 | with such records, reads that end with an empty one have delivered everything |
| SeqCalls.Sequential.constructor | linux2510/fs/seq_file.c:27-37 | a new file has no buffer and stands at the start |
| SeqCalls.Sequential.Show | linux2510/fs/seq_file.c:279-295 | a record behind what is there, or count = size on overflow |
| SeqCalls.Sequential.FirstRecord | linux2510/fs/seq_file.c:79-97 | the loop that doubles the buffer until the first record fits |
| SeqCalls.Sequential.Fill | linux2510/fs/seq_file.c:100-115 | the loop that adds further records |
| SeqCalls.Sequential.Flush | linux2510/fs/seq_file.c:63-77 | what is in the buffer goes out first |
| SeqCalls.Sequential.Refill | linux2510/fs/seq_file.c:78-126 | both loops and the delivery |
| SeqCalls.Sequential.Read | linux2510/fs/seq_file.c:45-134 | seq_read does what the value model does, and is right exactly when it does not enlarge the buffer |
| SeqCalls.Sequential.Pass | linux2510/fs/seq_file.c:144-190 | one traverse, or -EAGAIN |
| SeqCalls.Sequential.Traverse | linux2510/fs/seq_file.c:209-210 | the retries end |
| SeqCalls.Sequential.Lseek | linux2510/fs/seq_file.c:198-226 | result, position and new state of seq_lseek for every origin; the file represents the records again |
| MountWalk.WalkVisitsAllOnce | linux2510/fs/namespace.c:118-132 | the walk visits every mount of the subtree, each exactly once |
| MountWalk.ParentEarlier | linux2510/fs/namespace.c:118-132 | every mount of it hangs on an earlier one |
| MountWalk.Build | linux2510/fs/namespace.c:118-132 | in every forest of mounts such a walk exists below every mount |
| MountSteps.NextPlace | linux2510/fs/namespace.c:118-132 | the next place in the tree is the next mount of the walk |
| MountSteps.LookDown | linux2510/fs/namespace.c:120-121 | what the first half of next_mnt finds |
| MountSteps.LookUp | linux2510/fs/namespace.c:122-129 | what one round of its loop finds |
| MountCalls.MountTable.NextMnt | linux2510/fs/namespace.c:118-132 | from the j-th mount of the walk to the next, or to the end |
| MountTree.DetachInv | linux2510/fs/namespace.c:98-107 | detaching keeps parent pointers, child lists and d_mounted counts exact and the graph free of loops |
| MountTree.AttachInv | linux2510/fs/namespace.c:109-116 | so does hanging a detached mount where its own subtree does not reach |
| MountCalls.MountTable.DetachMnt | linux2510/fs/namespace.c:98-107 | the new table |
| MountCalls.MountTable.AttachMnt | linux2510/fs/namespace.c:109-116 | the new table |
| MountCalls.MountTable.CheckMnt | linux2510/fs/namespace.c:89-96 | the climb ends, and says whether the mount is in the tree of that root |
| MountTree.MoveInv | linux2510/fs/namespace.c:590-597 | a move that passes the loop check keeps the forest and the counts; with both ends under one root every mount still reaches the root it reached |
| MountTree.MoveKeepsTops | linux2510/fs/namespace.c:590-597 | the same for each mount, on the graph of parents |
| MountTree.LoopCheckExact | linux2510/fs/namespace.c:590-593 | the loop check refuses exactly the moves that would close a loop |
| MountCalls.MountTable.Ancestor | linux2510/fs/namespace.c:591-593 | the climb of the loop check ends and meets the mount exactly if it is an ancestor |
| MountCalls.MountTable.MoveMount | linux2510/fs/namespace.c:566-597 | reply for every case; a refused move changes nothing; every mount stays under its root |
| MountAnswers.MoveAnswerIs | linux2510/fs/namespace.c:566-593 | each of the answers exactly for its cause, in terms of who is below whom |
| MountAnswers.MoveMeans | linux2510/fs/namespace.c:590-597 | the mount hangs at the new place, before the others there, with exact counts; every other mount hangs where it hung |
| MountAnswers.DetachMeans | linux2510/fs/namespace.c:98-107 | the mount is a root of its own, with exact counts; every other mount hangs where it hung |
| MountSteps.KillList | linux2510/fs/namespace.c:265-283 | the kill list holds the subtree once each, children before parents |
| MountCalls.MountTable.CollectTree | linux2510/fs/namespace.c:265-268 | it is the walk backwards |
| MountCalls.MountTable.KillOne | linux2510/fs/namespace.c:270-283 | one mount of it is detached, the rest of the table unchanged |
| MountCalls.MountTable.UmountTree | linux2510/fs/namespace.c:260-284 | exactly the subtree is detached, children first; nothing hangs on any of it any more; everything else is as it was |
| MountSteps.CopyStep | linux2510/fs/namespace.c:430-438 | one more clone, hung on the clone of its parent at the same dentry |
| MountSteps.CopyUndone | linux2510/fs/namespace.c:442-448 | taking a partial copy apart leaves the old table |
| MountCalls.MountTable.ClimbBoth | linux2510/fs/namespace.c:426-429 | climbing in the original and the copy together arrives at the clone of the parent |
| MountCalls.MountTable.CloneTop | linux2510/fs/namespace.c:418-423 | the clone of the top |
| MountCalls.MountTable.CloneAttach | linux2510/fs/namespace.c:430-438 | clone and attach |
| MountCalls.MountTable.AbandonCopy | linux2510/fs/namespace.c:442-448 | the way out when memory runs short |
| MountCalls.MountTable.CopyRound | linux2510/fs/namespace.c:425-440 | one round of the loop keeps the copy exact |
| MountCalls.MountTable.CopyWalk | linux2510/fs/namespace.c:413-449 | the loop, for a given walk |
| MountCalls.MountTable.CopyTree | linux2510/fs/namespace.c:413-449 | one clone for each mount of the subtree, in the order of the walk, each on the clone of its parent at the same dentry, child lists reversed; or, when memory runs short, the old table |
| PipeRuns.BytesComeOutInOrder | linux2510/fs/pipe.c:61-122 | over every run: what was read is a prefix of what was written and the rest is in the ring |
| PipeRuns.CallsAreHonoured | linux2510/fs/pipe.c:137-249 | over every run, with faults at any point of a copy: each call has moved exactly the bytes it reports; a write of at most PIPE_BUF bytes is in one piece, and is there not at all or whole unless its copy faulted |
| PipeRuns.ShortWriteWholeIff | linux2510/fs/pipe.c:166-206 | a short write that finds room is in whole if and only if its copy does not fault; otherwise it reports how far it got |
| PipeAnswers.BlockingWriteIsWhole | linux2510/fs/pipe.c:186-231 | over every run a blocking write that returns without an error has written everything |
| PipeAnswers.StatusIff | linux2510/fs/pipe.c:40-249 | each way to sleep or to return exactly for its cause: a signal, no reader, a fault, nothing to read or too little room without or with waiting, and a reader that wants more goes back to sleep exactly if writers wait |
| PipeAnswers.MovesWhatItCan | linux2510/fs/pipe.c:86-110 | an event moves all there is to copy, or as far as the copy got, and otherwise nothing |
| PipeAnswers.BlockingWritesAreWhole | linux2510/fs/pipe.c:40-249 | over every run from every such state only blocking calls sleep and blocking writes come back whole |
| PipeRuns.NewCall | linux2510/fs/pipe.c:40-163 | a call starts with what its caller asked for |
| PipeRuns.RunGoesOn | linux2510/fs/pipe.c:86-106 | over every run: what a call has moved stays moved, a reader gets in all no more than it asked for, and a call that has returned is left alone |
| PipeRuns.EmptyReadMeansNoWriters | linux2510/fs/pipe.c:61-84 | a read of a positive count that returns nothing without an error has met an empty ring and no writer |
| PipeRuns.WantsMoreOnlyOnEmpty | linux2510/fs/pipe.c:112-122 | a reader that wants more after the copy loop has emptied the ring, so the BUG check never fires, whether it then sleeps or returns |
| PipeRuns.InvBeginRead | linux2510/fs/pipe.c:40-135 | starting a read keeps the invariant |
| PipeRuns.InvBeginWrite | linux2510/fs/pipe.c:138-249 | starting a write keeps it |
| PipeRuns.InvResume | linux2510/fs/pipe.c:27-37 | waking up in pipe_wait, with or without a signal, keeps it |
| PipeRuns.InvNext | linux2510/fs/pipe.c:40-249 | every event keeps it |
| PipeRing.Ring.TakeChunk | linux2510/fs/pipe.c:88-106 | one piece that does not wrap: out in order |
| PipeRing.Ring.Take | linux2510/fs/pipe.c:88-110 | the loop takes what is wanted or all there is, around the end of the ring; wanting more means the ring is empty; it faults exactly if the caller's buffer does not reach that far, and has then taken just the pieces that it could copy whole |
| PipeRing.Ring.PutChunk | linux2510/fs/pipe.c:191-205 | one piece in |
| PipeRing.Ring.Put | linux2510/fs/pipe.c:186-206 | the loop puts in as much as fits, in order; it faults exactly if the caller's buffer does not reach that far, and has then put in just the pieces that it could copy whole |
| PipeRing.TornWrite | linux2510/fs/pipe.c:191-206 | two bytes around the end of the ring, of which one can be read: one is in |
| PipeCalls.Pipe.constructor | linux2510/fs/pipe.c:40-249 | an empty pipe with one reader and one writer |
| PipeCalls.Pipe.LengthIsExact | linux2510/fs/pipe.c:88-106 | PIPE_LEN is what was accepted and not yet read, and the ring holds just that |
| PipeCalls.Pipe.Transfer | linux2510/fs/pipe.c:86-110 | the copy loop on the ring does what the machine does; wanting more means PIPE_LEN is 0 |
| PipeCalls.Pipe.ReadLoop | linux2510/fs/pipe.c:86-135 | the rest of pipe_read up to the sleep or the return, with the BUG check shown not to fire |
| PipeCalls.Pipe.CopyIn | linux2510/fs/pipe.c:184-206 | the copy loop on the ring does what the machine does, with the fault where the buffer ends |
| PipeCalls.Pipe.WriteLoop | linux2510/fs/pipe.c:184-231 | the rest of pipe_write up to the sleep or the return |
| PipeCalls.Pipe.PipeRead | linux2510/fs/pipe.c:40-135 | starting a read is that event of the machine, on the ring |
| PipeCalls.Pipe.PipeWrite | linux2510/fs/pipe.c:138-249 | starting a write is that event |
| PipeCalls.Pipe.SetEnds | linux2510/fs/pipe.c:319-360 | other tasks open and close the two ends |
| PipeCalls.Pipe.WakeReader | linux2510/fs/pipe.c:71-83 | a reader that wakes up in pipe_wait |
| PipeCalls.Pipe.WakeWriter | linux2510/fs/pipe.c:171-181 | a writer that wakes up in pipe_wait, in either of its waits |
| ExecCalls.Exec | linux2510/fs/exec.c:911-961 | from execve to the new stack, for all lists of strings: accepted exactly when no list is too long and the strings fit; of the accepted calls the copy loop ends exactly for those that leave a byte free; and then argc and two tables whose i-th pointer addresses the i-th string and which end with a null pointer |
| ExecCalls.Binprm.CopyPiece | linux2510/fs/exec.c:216-258 | a piece within a page is stored, a new page is zero around it, all else unchanged |
| ExecCalls.Binprm.CopyString | linux2510/fs/exec.c:196-260 | one string below the others, across pages, or refused and nothing changed |
| ExecCalls.Binprm.CopyStrings | linux2510/fs/exec.c:190-266 | all strings in order below what is there; refused exactly when they do not fit |
| ExecCalls.Binprm.DoExecve | linux2510/fs/exec.c:924-959 | the image is argv, then envp, then the file name; refused exactly when a list or the image is too long |
| ExecCalls.Binprm.RemoveArgZero | linux2510/fs/exec.c:789-811 | steps over everything up to the first NUL, page by page |
| ExecImage.WithoutFirst | linux2510/fs/exec.c:789-811 | for an image of argv that is the image of argv without its first string |
| ExecImage.NulEnds | linux2510/fs/binfmt_flat.c:135-148 | in an image, each string ends at the first NUL |
| ExecImage.HoldsString | linux2510/fs/binfmt_flat.c:135-148 | the i-th string of a list lies where the i-th pointer points |
| ExecImage.CopyDownEndsIff | linux2510/fs/binfmt_flat.c:886-891 | the loop that copies the image down ends exactly if p is not 0 |
| ExecImage.PageFillingArgument | linux2510/fs/exec.c:924-959 | one argument that do_execve accepts and that leaves p at 0 |
| ExecCalls.Stack.CopyImage | linux2510/fs/binfmt_flat.c:886-891 | the image lies below the top, byte by byte, and the loop ends exactly if p is not 0 |
| ExecCalls.Stack.SkipString | linux2510/fs/binfmt_flat.c:137-139 | steps behind one string |
| ExecCalls.Stack.FillTable | linux2510/fs/binfmt_flat.c:135-141 | one of the two loops: a pointer for each string, then null; nothing else changes |
| ExecCalls.Stack.CreateFlatTables | linux2510/fs/binfmt_flat.c:109-152 | argc, the two table addresses and both tables |
| ExecCalls.Stack.LoadArguments | linux2510/fs/binfmt_flat.c:859-891 | image and tables together, between the program's data and the top of its stack, exactly if the loop ends |
| TelnetRuns.EscapingIsUndone | apps/sercd/sercd.c:430-472 | for every byte string and either setting of binary mode: what EscWriteChar writes EscRedirectChar reads back, and is in its normal state again |
| TelnetRuns.ReplyIsFramedIff | apps/sercd/sercd.c:411-425 | a reply with any data (signature, speed or one byte) is the proper COM port suboption exactly if binary mode is on or no byte of the data, other than a line feed or IAC, follows a carriage return |
| TelnetRuns.EscapedIsDoubledIff | apps/sercd/sercd.c:430-443 | EscWriteChar doubles IAC and does nothing else exactly under that condition |
| SercdPeer.ReplyAfterCarriageReturn | apps/sercd/sercd.c:656-668 | from every state between commands: a carriage return from the device and a data size command lead to a reply with a NUL in front of the answer |
| SercdPeer.DeviceComesBack | apps/sercd/sercd.c:430-472 | over every run without a reply and without a switch of binary mode, a peer with the same setting gets back what the device sent |
| SercdPeer.OptionBetweenIff | apps/sercd/sercd.c:589-599 | with an option sent between two data bytes, the peer gets the second one right exactly if both Last bytes agree on a carriage return where it matters |
| SercdPeer.LogReadIff | apps/sercd/sercd.c:589-599 | for every log of data and options: each item arrives as it was if and only if both Last bytes agree on a carriage return at every data byte where it matters |
| SercdPeer.DeviceComesBackWithOptions | apps/sercd/sercd.c:1420-1487 | over every run without COM port replies in which they agree, a peer gets back what the device sent |
| SercdPeer.OfferInARun | apps/sercd/sercd.c:589-599 | a carriage return from the device, a request for echo from the client and a letter from the device make a run that sends a NUL in front of the letter |
| SercdPeer.OfferReadBack | apps/sercd/sercd.c:589-599 | what the peer makes of that: carriage return, NUL, letter |
| TelnetRuns.EscapedSize | apps/sercd/sercd.c:427-443 | escaping at most doubles |
| TelnetRuns.HandleBudget | apps/sercd/sercd.c:670-1075 | no command draws a reply longer than HandleIACCommand_bytes |
| SercdAnswers.NegotiationIs | apps/sercd/sercd.c:943-1073 | every answer is about the same option and from the other side, and agrees exactly if an option was asked for that sercd knows; when there is none |
| SercdAnswers.OptionsFollow | apps/sercd/sercd.c:943-1073 | an option is on exactly if it was asked for and sercd knows it; all others stay |
| SercdAnswers.NegotiationEndsIff | apps/sercd/sercd.c:943-1040 | two peers that answer like that come to an end exactly if one had asked before |
| SercdAnswers.ComPortIs | apps/sercd/sercd.c:685-905 | the answer to command k has the code k + 100 and carries the setting that k names |
| SercdAnswers.HandleMeans | apps/sercd/sercd.c:916-1075 | suboptions count only for the COM port option while it is on for either side; the four verbs are negotiated and the COM port option turns on port control; all other commands have no effect |
| SercdAnswers.LineFollows | apps/sercd/sercd.c:797-905 | a command changes at most break, the masks and the flow of input, as it says |
| TelnetRuns.RedirectBudget | apps/sercd/sercd.c:445-587 | for every byte in every state: IACPos stays within IACCommand, at most EscRedirectChar_bytes_SockB bytes go to the network ring and one to the device ring |
| TelnetRuns.DecodeJoin | apps/sercd/sercd.c:449-587 | reading a stream in two parts is reading it at once |
| TelnetRuns.RedirectDecodes | apps/sercd/sercd.c:449-587 | one call is one step of the decoder, whatever the port answers |
| Telnet.ParseKeeps | apps/sercd/sercd.c:483-580 | only complete commands are dispatched |
| Sercd.InvNext | apps/sercd/sercd.c:1420-1487 | every batch that main asks for fits, and keeps the rings exact |
| Sercd.RunInv | apps/sercd/sercd.c:1420-1487 | so does every run |
| Sercd.DeviceGetsTheStream | apps/sercd/sercd.c:1420-1487 | over every run, however the streams are cut and with every notice that fits: no ring overflows, and the device gets in order exactly what the parser makes of the whole network stream |
| SercdFrames.CommandIsWhole | apps/sercd/sercd.c:483-580 | between commands IACCommand holds what it held before, or a whole command |
| SercdFrames.FrameReadIff | apps/sercd/sercd.c:483-570 | from every state between commands and for every option and every string of parameters, IAC doubled among them: the suboption is read as what was meant and nothing else if and only if it is a signature, or has no IAC and as many bytes as its kind asks for |
| SercdFrames.DoubledParameter | apps/sercd/sercd.c:559-569 | from every state between commands, setting the modem mask to 255 sends the last byte of the command to the device |
| SercdFrames.SignatureRead | apps/sercd/sercd.c:495-532 | a signature is read whole, whatever is in it, as far as there is room |
| SercdClient.SignalSwallows | apps/sercd/sercd.c:572-580 | from every state between commands: of a command of two bytes and the byte behind it nothing reaches the device and no option changes |
| SercdClient.NopAndALetter | apps/sercd/sercd.c:572-580 | a client that sends NOP and a letter loses the letter |
| SercdClient.ReturnAfterTheOffer | apps/sercd/sercd.c:461-463 | a client that offers binary mode and sends a carriage return as a terminal would makes the device get a NUL |
| SercdClient.ReadRightIff | apps/sercd/sercd.c:445-587 | a character in either mode, new line, command of two or three bytes or suboption is read right if and only if it is not: a carriage return with its NUL while the server is in binary mode, a NUL behind a carriage return while it is not, a command of two bytes, a suboption that FrameReadIff excludes |
| SercdClient.StreamReadIff | apps/sercd/sercd.c:445-587 | for every stream of such items: every item is read right where it comes if and only if none is of those kinds; then the device gets exactly the characters and the server is between commands |
| SercdClient.DeviceGetsTheCharacters | apps/sercd/sercd.c:1420-1487 | over every run whose network input is such a stream, however it is cut: the device gets, in order, the characters that the client sent |
| SercdConnections.OffersAreNoted | apps/sercd/sercd.c:601-618 | tnstate remembers exactly the offers that are sent |
| SercdConnections.ConnectInv | apps/sercd/sercd.c:1507-1514 | a new connection, with its six offers in the network ring, is the beginning of runs like any other |
| SercdConnections.FirstItemIff | apps/sercd/sercd.c:454-582 | from EVERY state of the parser: a first item other than a suboption is read right if and only if it is clear and the server is between commands |
| SercdConnections.ConnectionReadIff | apps/sercd/sercd.c:1507-1514 | so every item of a new client is read right if and only if all are clear and the client before did not leave in the middle of a command |
| SercdConnections.EveryClientIsServed | apps/sercd/sercd.c:1420-1537 | over every series of connections and every run of each: if all that the clients send is clear, the device gets the characters of every one of them and no ring overflows |
| SercdConnections.LeftInTheMiddle | apps/sercd/sercd.c:1507-1514 | two connections: the first client leaves behind an IAC, and two characters of the second are lost |
| SercdRounds.AsksForNothingIff | apps/sercd/sercd.c:1472-1482 | a round that found the network readable asks it for nothing if and only if its earlier steps left less than a byte's worst case of room |
| SercdRounds.MayAskForNothingIff | apps/sercd/sercd.c:1385-1388 | from a state in which network input is asked about, some round asks for nothing if and only if device input is not suspended and the room is less than a byte's worst case and a full read from the device |
| SercdRounds.OneByteTooMany | apps/sercd/sercd.c:1385-1388 | with just a byte's worst case of room, one byte from the device leads there |
| SercdRounds.NoticeFitsIff | apps/sercd/sercd.c:1378-1381 | for every amount of room: the notice fits at the end of every round of every state with that much, replies to the network input of the round included, if and only if it is at least 1546 bytes |
| SercdRounds.NoticeTooLate | apps/sercd/sercd.c:1540-1549 | with just the room for a notice, two bytes from the device leave too little |
| SercdRounds.OneReply | apps/sercd/sercd.c:1472-1485 | the bytes that a round may read from the network draw at most one reply |
| Sercd.NetworkGetsTheLog | apps/sercd/sercd.c:1420-1487 | over every run what the network gets is, in order, the escaped bytes of the device and the replies; the data bytes among them are what the device sent |
| Sercd.Buffer.constructor | apps/sercd/sercd.c:288-294 | an empty ring |
| Sercd.Buffer.Reset | apps/sercd/sercd.c:288-294 | the ring is empty again |
| Sercd.Buffer.Length | apps/sercd/sercd.c:298-302 | the number of bytes in the ring, however it wraps |
| Sercd.Buffer.AddToBuffer | apps/sercd/sercd.c:327-334 | the byte is last |
| Sercd.Buffer.GetFromBuffer | apps/sercd/sercd.c:337-343 | the byte was first |
| Sercd.Buffer.GetBufferString | apps/sercd/sercd.c:347-356 | a prefix of the contents, not empty unless they are |
| Sercd.Buffer.BufferPopBytes | apps/sercd/sercd.c:359-364 | that many bytes are gone from the front |
| Sercd.EscWriteChar | apps/sercd/sercd.c:430-443 | the escaped byte is behind the contents |
| Sercd.EscWriteAll | apps/sercd/sercd.c:620-632 | the escaped string is behind the contents |
| Sercd.SendSuboption | apps/sercd/sercd.c:634-668 | header, escaped data and trailer are behind the contents |
| SercdCalls.Redirector.constructor | apps/sercd/sercd.c:239-250 | both rings are empty and the parser is in its normal state |
| SercdCalls.Redirector.SignatureByte | apps/sercd/sercd.c:495-532 | a byte of a signature, kept within IACCommand |
| SercdCalls.Redirector.CommandByte | apps/sercd/sercd.c:483-580 | a byte of a command, and whether it completes it |
| SercdCalls.Redirector.ParseByte | apps/sercd/sercd.c:455-582 | the switch on the escape state, in place |
| SercdCalls.Redirector.NewClient | apps/sercd/sercd.c:1507-1514 | both rings, tnstate and the six offers as a new client finds them; parser and Last bytes unchanged |
| SercdCalls.Redirector.OfferedOption | apps/sercd/sercd.c:943-991 | WILL: tnstate and the answer are those of the negotiation |
| SercdCalls.Redirector.RequestedOption | apps/sercd/sercd.c:994-1040 | DO likewise |
| SercdCalls.Redirector.RefusedOption | apps/sercd/sercd.c:1043-1073 | DONT and WONT likewise |
| SercdCalls.Redirector.SetControl | apps/sercd/sercd.c:797-862 | flow control and break: the line and the state to report |
| SercdCalls.Redirector.HandleCPCCommand | apps/sercd/sercd.c:674-911 | for every COM port command: the line afterwards, and the reply behind the contents of the network ring |
| SercdCalls.Redirector.HandleIACCommand | apps/sercd/sercd.c:916-1075 | with the branches of the original: the reply is behind the contents of the network ring, and options and line are those of the negotiation and of the command |
| SercdCalls.Redirector.EscRedirectChar | apps/sercd/sercd.c:445-587 | with room for one byte's worst case in both rings: state and rings move exactly as the decoder and the reply say, and the parser stays valid |
| SercdCalls.Daemon.constructor | apps/sercd/sercd.c:238-294 | empty rings, and the start of a run |
| SercdCalls.Daemon.Accept | apps/sercd/sercd.c:1507-1514 | the beginning of the next connection |
| SercdCalls.Daemon.DeviceInput | apps/sercd/sercd.c:1420-1436 | the loop escapes what was read into the network ring: that event of the machine |
| SercdCalls.Daemon.DeviceOutput | apps/sercd/sercd.c:1438-1451 | a piece of the device ring is written and popped: that event |
| SercdCalls.Daemon.SocketOutput | apps/sercd/sercd.c:1453-1466 | a piece of the network ring is written and popped: that event |
| SercdCalls.Daemon.NetworkByte | apps/sercd/sercd.c:1483-1485 | one byte from the network through EscRedirectChar |
| SercdCalls.Daemon.NetworkInput | apps/sercd/sercd.c:1468-1487 | all bytes that were read: that event |
| SercdCalls.Daemon.ModemNotice | apps/sercd/sercd.c:1548-1549 | the notice is behind the contents of the ring, if it fits: that event |
| CompT.ErrorBound | linux2510/kernel/acct.c:232-261 | decoding gives the value back to within half of 8^k, k being the number of rounds, and exactly up to 8191 |
| CompT.EncodeFits | linux2510/kernel/acct.c:232-261 | a 32-bit value is encoded in 16 bits |
| CompT.EncodeMonotone | linux2510/kernel/acct.c:232-261 | a larger value never gets a smaller code |
| CompT.NearestCode | linux2510/kernel/acct.c:232-261 | no code at all decodes to a number closer to the value |
| CompT.PackExact | linux2510/kernel/acct.c:247-260 | packing loses nothing, also when rounding overflowed the mantissa |
| CompT.ShiftsIsLeast | linux2510/kernel/acct.c:241-245 | the loop stops as soon as the value fits |
| CompT.RoundedBounds | linux2510/kernel/acct.c:241-253 | round half up |
| CompT.EncodeCompT | linux2510/kernel/acct.c:236-261 | the loop with its rounding bit computes that code |

## Left out

- flock and lease locks, mandatory locking, lock_may_read and /proc/locks: separate schemes in locks.c that add easy branches or text output.
- Locks of file systems with their own `lock` operation, and the failed allocation (-ENOLCK) at the head of posix_lock_file.
- The list of all locks (file_lock_list) and asynchronous notification: no decision depends on them.
- A woken request is a new SetLock event of its owner, and a task that sleeps in one call cannot make another; requests that an NFS server makes on behalf of others can break the second assumption, as the comment above posix_locks_deadlock says.
- Timestamps, permissions, IPC_RMID, IPC_STAT and the GET commands of semctl but GETPID: bookkeeping or removal.
- SemArrays.SemSet.SysSemop: says nothing about sempid, which the calls of TryAtomicSemop in it and in update_queue change as that method says; the same holds for the other calls that run update_queue.
- SemArrays.SemSet.SetAll: the vector has one value per semaphore; the copy from user space that ensures it is not modelled.
- SemLinked.LinkedSet.UpdateQueue: the set keeps its queue as a sequence beside the links; entering the queue and the pass of update_queue are done on both, the other calls on the sequence alone.
- Message texts (only their lengths are modelled), msgctl beyond changing q_qbytes, removal of a queue, and the system-wide message counters.
- Errors of copy_to_user, of allocation and of the show operation in seq_file; records are assumed not to change between calls, and a record is shown whole or not at all.
- The mount hash table, reference counts, path lookup, sys_pivot_root and copy_namespace: they need assumptions about where the current root is attached or about the order of children that attach_mnt reverses.
- MountCalls.MountTable.MoveMount: the dead-directory, whole-mount and file-or-directory tests on the two paths are parameters.
- Which sleeper of a pipe is scheduled when: every order is allowed, so nothing is said about when a sleeper gets its turn.
- Reading and relocating the program file, other binary formats, and the fake return addresses for shared libraries in binfmt_flat.c.
- ExecCalls.Stack.CreateFlatTables: words are 4 bytes, flat_stack_align does nothing and the two table addresses are on the stack, as on the architectures whose macros say so; addresses do not wrap below 0, which is what the lower bounds on addresses require.
- sercd's sockets, termios, lock file, logging and the opening of the port: I/O and foreign calls. A connection that is dropped ends its run, so batches are of bytes that were read or written; SercdRounds says when a round asks for 0 bytes, which drops it. The -1 with EWOULDBLOCK that IOResultError lets through is not modelled.
- A notice that does not fit ends the run at the assertion in AddToBuffer; SercdRounds has the condition and an input.
- SercdConnections.FirstItemIff: leaves out a suboption as the first item; a client sends none before an option has been agreed on.
- The copy of a client's signature for the log (sercd.c:699) takes the larger of two lengths, so it always asks for 254 bytes from IACCommand[4] on: unless there is a NUL among the last 251 bytes of IACCommand, it reads 3 bytes beyond them.
- SercdCalls.Redirector.HandleIACCommand: what the port answers is a parameter, an `unsigned long` has 4 bytes and a signature at most 254; logging is left out.
- What a peer makes of a stream with COM port suboptions in it: the project has no client's parser for them.
- The other fields of the accounting record in acct.c.
