# A verified model of the transactional memory in `415640/` and the programs around it

The repository implements a word-based software transactional memory (versioned locks, commit-time locking, a
global even version counter) and grades it with a concurrent bank. This project models that code in Dafny 4.11
and proves what it promises. `dafny verify dfyconfig.toml` checks everything.

## How it is organised

**The transaction manager.** `VersionLock` is the lock word. `Protocol` is the manager as a transition system: any
number of transactions, one shared-memory operation per step (a lock load, a compare-and-swap, a fetch-and-add, a
word copy, a version store), an arbitrary hash of words onto locks. Its state also records the write sets that
passed validation, by write version (`hist`). `Replay` replays them; `Reference` is the single-lock implementation
of `reference/tm.c` as the serial specification: a transaction is the list of its calls, and `RunLog` executes it
alone on a memory. `ProtocolInvariant`, `CommitSteps` and `RunRecord` hold the inductive invariant and its
preservation by all steps; `Serializability` and `Runs` state what follows in every reachable state and over every
run. `Conflicts` says why transactions abort. `SoloRuns` is the converse of serializability: whatever the reference
can do, the manager can do. `SplitRead` shows which read-only transactions suffer from the order of the second lock
check and the copy in `tm_read`. `TransactionManager` is the code of `tm.c` and `utils.c` itself, loops and callbacks
included. Its region records the run that led to its state: each method prolongs that run by steps the transition
system allows its transaction, and by any steps of others in between, so the theorems about runs hold of that code,
within a call and across calls; and for calls left alone the contracts say whether they succeed, and what becomes of
memory, locks and segments.

**The bank.** `Bank` (segments, the conservation law, transfers), `BankAllocation` and `BankAudit` describe the logs
that the bank's transactions can produce and prove that they keep the law on a serial memory, and which accounts they
create, destroy, change and leave alone; `BankCode` is their loops as code, proved to produce such logs, to keep the
bank and to terminate; `BankOverStm` lifts all this through serializability to any concurrent mix, after an opening
round in which every worker runs `init` (`grading/grading.cpp:172-173`); `CounterCheck` does the same for the counter of
`check`. `BankRuns` builds runs of the bank, and among them one in which an audit fails; `MoneylessBank` is the one kind
of bank in which none can.

**The heap structures.** `Dictionary` (`dict.c`), `SegmentList` (`ll.c`) and `ReferenceList` (`reference/tm.c`) are
classes over real nodes, relinked in place.

**The small protocols.** `Barrier`, `Sync` (with `Latch`), `RingLockFree` and `RingCondVar` are state machines with
inductive invariants over all interleavings, for any number of threads, workers and rounds and any buffer size. Besides
safety they promise that nobody waits longer than needed, that no run ends in a deadlock, and that no round, or run,
takes more than a known number of steps with an effect, whatever the scheduler does. `Counting` and `RingSlots` are the
arithmetic they share.

## Where the code falls short of its documentation, or may surprise

- The interface promises that a transaction reads one consistent state. `tm_read` makes its second lock check
  before the copy (`415640/tm.c:272-278`), and a writer can commit in between. `ReadOnlySerializableIff` says which
  read-only transactions are served all the same: for any list of words, those that read it are serializable in all
  runs exactly if it has at most one word, or check and copy are one step; whatever the hash, and even if it is one
  word twice (`TornRead`, `TornNowhere`). The code performs two steps, so any two word reads can tear.
  `ReadsAreSnapshots` and `ReadOnlyIsSerial` hold without one-step reads unless a newer commit slips in just there, and
  `CheckAfterCopyIsEnough` shows that a lock check passing at the moment of the copy repairs it. Read-write
  transactions are not affected, because validation catches the late writer (`CommittedIsSerial`).
- For the same reason `long_tx` of the bank can report a violation although the bank is intact. For every bank and every
  hash, no run does so exactly if check and copy are one step or the initial balance is zero (`AuditsNeverFailIff`);
  `TornBankRun` is the run in all other cases.
- The comment at `415640/utils.c:78-80` says that words in both sets are removed from the read set; the code keeps
  them, and the model follows the code.
- Validation treats a word that was read and not written as locked by somebody else, even if the transaction has locked
  it itself for another word with the same hash (`415640/utils.c:88-94`). Such a transaction aborts without any
  conflict if anybody has taken a version since it began (`SelfConflict`): the last alternative of `AbortsAreConflicts`,
  and part of the exact condition in `TmEnd`.
- `lock_release` is documented for locks owned by the caller only; `ReleasesOwnLock` shows that it is called on no
  others, and `ReleaseUndoesOneTake` that it is called once per lock taken.

## Model

| member | source | states |
|---|---|---|
| `VersionLock.CheckComparesVersions` | 415640/version_types.c:34-50 | the shifted comparisons of both checks decide exactly "free and not newer" and "not newer" |
| `Protocol.StepIsReachable` | 415640/tm.c:143-360 | any enabled operation of any transaction may come next; with the guards and effects of `Enabled`, `NextTx` and `Apply` this is the step relation of the manager |
| `Protocol.Config.LockOf` | 415640/utils.c:162-166 | an arbitrary hash, reduced to the lock array |
| `Replay.ValIsMemAt` | 415640/utils.c:107-115 | replaying write sets word by word and map by map agree |
| `Replay.ValWriter` | 415640/utils.c:107-115 | a replayed value is zero or the newest committed write of the word |
| `Reference.OverlayRuns` | reference/tm.c:155-163 | a log whose reads see own writes first and otherwise memory `m` is a run of the reference on `m`, ending in `m` overlaid with the last writes |
| `ProtocolInvariant.CheckExcludesTaint` | 415640/tm.c:257-272 | a passing lock check means that no commit newer than the read version can have reached the word |
| `ProtocolInvariant.CasKeepsInv` | 415640/version_types.c:5-15 | acquiring a lock, or failing to, keeps the whole invariant |
| `ProtocolInvariant.ReleaseKeepsInv` | 415640/version_types.c:52-55 | storing the new version keeps it |
| `ProtocolInvariant.RollBackKeepsInv` | 415640/version_types.c:28-31 | giving a lock back keeps it |
| `ProtocolInvariant.FetchKeepsInv` | 415640/tm.c:207 | taking a write version keeps it, and with the successor version all reads are already confirmed |
| `ProtocolInvariant.ValidateKeepsInv` | 415640/utils.c:81-104 | validating a word confirms it up to the write version |
| `CommitSteps.DecisionKeepsInv` | 415640/tm.c:209-227 | entering the history after validation keeps the invariant |
| `CommitSteps.PublishKeepsInv` | 415640/utils.c:107-115 | copying one word of the write set keeps it |
| `CommitSteps.StepKeepsInv` | 415640/tm.c:143-360 | every step of every transaction keeps the invariant |
| `RunRecord.StepKeepsSegments` | 415640/tm.c:325-350 | every step keeps each allocated segment in one place |
| `RunRecord.StepKeepsSource` | 415640/tm.c:246-283 | every step keeps: no value is read that no transaction committed, and none older than the read version allows |
| `RunRecord.RunIsGood` | 415640/tm.c:143-360 | the invariant holds in every state of every run |
| `Serializability.CommittedIsSerial` | 415640/tm.c:168-236 | a transaction past validation behaves as if run alone on the reference, on the memory left by exactly the commits with smaller version; check and copy of a read may be separate steps |
| `Serializability.OneSerialOrder` | 415640/tm.c:168-236 | running all committed transactions one after the other on the reference, each once, in version order, reproduces every value read and ends in the replayed memory |
| `Serializability.FreeWordsAreReplayed` | 415640/tm.c:227-228 | every word whose lock is free holds its replayed value |
| `Serializability.SkipIsSound` | 415640/tm.c:207-225 | with the successor version no other transaction took a version in between and every read is still current, whoever holds locks |
| `Serializability.CommitterIsKnown` | 415640/tm.c:207-228 | every commit belongs to one read-write transaction with that write version and write set |
| `Serializability.ReadsAreSnapshots` | 415640/tm.c:246-283 | everything read is the replay of exactly the commits up to the read version, at any later time, unless a newer commit wrote just that value between check and copy; with check and copy as one step there is no exception |
| `Serializability.ReadOnlyIsSerial` | 415640/tm.c:172-175 | a read-only transaction so not overtaken runs as if alone at its read version and changes nothing |
| `Serializability.PublishedIsNewest` | 415640/utils.c:107-115 | once a writer has copied its words, and until it releases their locks, memory holds its values, whatever others do |
| `Serializability.CheckAfterCopyIsEnough` | 415640/tm.c:272-278 | without that: a copy made while the lock check would still pass is the snapshot value |
| `Serializability.LockTable` | 415640/version_types.c:5-55 | a lock word is odd exactly when one transaction holds it, and only that one; versions are even and at most the counter; the holder saved the version |
| `Serializability.AcquireSaves` | 415640/version_types.c:5-15 | acquiring changes only the lock bit and remembers the word |
| `Serializability.ReleaseAdvances` | 415640/version_types.c:52-55 | a published version is strictly newer than the one it replaces, and free |
| `Serializability.NoCheckDuringPublication` | 415640/utils.c:107-126 | no lock check by anybody succeeds on a word of a partly published write set |
| `Serializability.ReadsOverlayWrites` | 415640/tm.c:263-278 | each read returns the transaction's latest own write, or else a value some transaction committed; the write set is exactly the last write of each word |
| `Serializability.OnlyCommitsWrite` | 415640/tm.c:293-316 | shared memory changes only when a committing transaction copies its last write of a word, under that word's lock |
| `Serializability.SegmentsAreConserved` | 415640/tm.c:134-146 | an allocated segment is once in the transaction while it runs, once in the shared list after commit, once among the freed after abort, and never in two places |
| `Serializability.DestroyFreesTheRest` | 415640/tm.c:103-112 | with no transaction running, freeing the shared list completes freeing every segment exactly once |
| `Runs.RunIsOrdered` | 415640/tm.c:151-207 | over any run versions only grow, what a transaction fixed stays, and newcomers read at least the current counter |
| `Runs.HistoryGrows` | 415640/tm.c:207-227 | commits are never lost or replaced |
| `Runs.RealTimeOrder` | 415640/tm.c:151-235 | a transaction that ended before another began precedes it in the serial order, for read-only and read-write ones alike |
| `Runs.LocksAreAccountedFor` | 415640/utils.c:52-76 | a lock once held is still held with its saved value, or being committed, or was given back with exactly that value |
| `Runs.RollbackIsExact` | 415640/utils.c:67-76 | every lock an aborted transaction had held was given back with its value from before, and it holds none |
| `Runs.ReleasesOwnLock` | 415640/version_types.c:28-31 | a lock given back is one the transaction holds, gets its saved value, and is held no longer |
| `Runs.ReleaseUndoesOneTake` | 415640/utils.c:52-76 | in any run, each step that gives a lock back undoes exactly one earlier compare-and-swap of the same transaction, with the same value, and no other step gives it back |
| `Runs.CommitStoresVersion` | 415640/utils.c:118-126 | every lock a committed transaction had held got its write version |
| `Conflicts.AbortsAreConflicts` | 415640/tm.c:187-275 | a transaction aborts, apart from a write of a bad size, only if over some word it reads or writes another transaction is inside `tm_end` with the lock, or has committed under it since this one began, or, others having taken a version meanwhile, it has locked it itself for another word it writes |
| `Conflicts.SelfConflict` | 415640/utils.c:88-94 | that last case happens: for any hash that maps two words to one lock, a run in which a transaction aborts although nobody else holds a lock or has written anything |
| `SoloRuns.SoloTransaction` | 415640/tm.c:143-350 | when no lock is held or newer than the counter, any calls the reference can make on shared memory can be made as one transaction, which commits and leaves the same memory |
| `SoloRuns.SerialRunsHappen` | reference/tm.c:123-186 | completeness: any serial execution of the reference from zeroed memory is a run of the manager, call by call |
| `SplitRead.TornRead` | 415640/tm.c:272-278 | for any words and any hash, a run in which a reader of them sees the first before and the last after the same commit, and commits |
| `SplitRead.TornNowhere` | 415640/tm.c:272-278 | with two reads or more, no version of the replay explains what it saw |
| `SplitRead.OneReadIsExplained` | 415640/tm.c:246-283 | a single read returns what the memory held after some commit |
| `SplitRead.ReadOnlySerializableIff` | 415640/tm.c:246-283 | committed transactions that read just these words are explained by some version in all runs if and only if they read at most one, or check and copy are one step |
| `TransactionManager.OthersKeepMine` | 415640/tm.c:143-360 | a stretch of a run made by others leaves a transaction's record alone |
| `TransactionManager.OwnStepsSpareOthers` | 415640/tm.c:143-360 | a stretch made by one transaction alone leaves all others' records alone |
| `TransactionManager.QuietIsCalm` | 415640/tm.c:187-235 | from any reachable state with nobody inside `tm_end`, all locks are free and none is newer than the counter |
| `TransactionManager.VisitOrder` | 415640/dict.c:133-143 | one pass over an unmodified table visits each key once, in some order; the two passes over the lock set are given the same one |
| `TransactionManager.SharedRegion.TmCreate` | 415640/tm.c:43-98 | refuses exactly an alignment that is no power of two, or a size that is no multiple of it or too large; otherwise versions, locks and words are zero |
| `TransactionManager.OneBitIsPowerOfTwo` | 415640/tm.c:45 | `align > 0 && !(align & (align - 1))` holds exactly of the powers of two |
| `TransactionManager.SharedRegion.TmDestroy` | 415640/tm.c:103-112 | frees the shared list once, and with it every segment has been freed exactly once |
| `TransactionManager.SharedRegion.TimePasses` | 415640/tm.c:143-350 | from any moment to a later one, across any calls: the counter does not fall, nothing a transaction has fixed changes, commits stay |
| `TransactionManager.SharedRegion.CallsAreOrdered` | 415640/tm.c:151-235 | a transaction committed by one call precedes, in the serial order, any that a later `tm_begin` starts |
| `TransactionManager.SharedRegion.SoloSparesOthers` | 415640/tm.c:143-350 | what a transaction does undisturbed changes no other one |
| `TransactionManager.SharedRegion.TmBegin` | 415640/tm.c:143-161 | starts a transaction at the current version |
| `TransactionManager.SharedRegion.ReadWord` | 415640/tm.c:252-280 | one word: two lock checks around the lookup, then the copy; returns the own write or what memory holds at that moment, or aborts; undisturbed, exactly if the lock check fails |
| `TransactionManager.SharedRegion.TmRead` | 415640/tm.c:246-283 | logs exactly the words returned, in order, or aborts; undisturbed it returns own writes over memory, and aborts exactly if a word's lock is held or newer |
| `TransactionManager.SharedRegion.TmWrite` | 415640/tm.c:293-316 | logs exactly the words written and leaves shared memory alone; aborts exactly on a size that is no multiple of the word |
| `TransactionManager.SharedRegion.TmAlloc` | 415640/tm.c:325-350 | succeeds exactly on acceptable sizes; a refusal changes nothing |
| `TransactionManager.SharedRegion.CreateUniqueLocks` | 415640/utils.c:40-48 | the set of locks of the written words, each once even if words share a lock |
| `TransactionManager.SharedRegion.TryAcquire` | 415640/version_types.c:5-15 | load and compare-and-swap, with others before each: on success the lock bit is set and the value before it saved; undisturbed it succeeds exactly on a free lock and changes only that bit |
| `TransactionManager.SharedRegion.LockAll` | 415640/utils.c:52-64 | holds all locks, or those before the first it could not take, each with its bit set and its value saved; undisturbed it stops exactly at the first lock that is not free |
| `TransactionManager.SharedRegion.RollBack` | 415640/utils.c:67-76 | the second pass over the same order gives every lock held back with its saved value; undisturbed, exactly the bits before the named lock (or all) are cleared |
| `TransactionManager.SharedRegion.FetchVersion` | 415640/tm.c:207 | the write version is the counter plus two, and the new counter |
| `TransactionManager.SharedRegion.ValidateAll` | 415640/utils.c:81-104 | stops at a word that fails its check; undisturbed it succeeds exactly if the lock of every word read carries no newer version than the read version and, except for words also written, has its bit clear |
| `TransactionManager.CommitIsDecided` | 415640/tm.c:187-225 | taking the locks and then validating decides exactly what `MayCommit` says of the lock words from before |
| `TransactionManager.SharedRegion.PublishAll` | 415640/utils.c:107-115 | afterwards memory holds the write set, whatever others do; undisturbed, nothing else has changed |
| `TransactionManager.SharedRegion.ReleaseAll` | 415640/utils.c:118-126 | the write version is stored into every lock held, then the segments end the shared list; undisturbed, nothing else changes |
| `TransactionManager.SharedRegion.HandOver` | 415640/tm.c:230-234 | the new segments are appended to the shared list in order |
| `TransactionManager.SharedRegion.TmEnd` | 415640/tm.c:168-236 | ends committed or aborted whatever others do; read-only always commits; undisturbed, a read-write transaction commits exactly if the locks of its written words are free and either no version was taken since it began, or every word read carries none newer and is free, or written by itself, and shares no lock with another word it wrote; a commit publishes exactly the write set, stamps exactly the locks of the written words and hands over the segments; a failure leaves memory, locks and segments as they were |
| `TransactionManager.SharedRegion.RunTransaction` | 415640/tm.c:143-350 | its log is what its calls ask for; begun while nobody is inside `tm_end` and undisturbed, any reads, writes and allocations followed by `tm_end` commit, with the values and the memory of the reference |
| `Bank.SumChanges` | grading/workload.hpp:161-182 | changing one account changes the segment's sum by as much |
| `Bank.SegmentChanges` | grading/workload.hpp:186-226 | changing one segment changes the totals by its change and keeps the others packed and solvent |
| `Bank.TransferRuns` | grading/workload.hpp:263-272 | the calls of a transfer move one unit, also from an account to itself |
| `Bank.NumbersAreAccounts` | grading/workload.hpp:241-258 | the numbers below the number of accounts, and no others, belong to an account each |
| `Bank.ShortTxKeepsBank` | grading/workload.hpp:232-275 | every log of `short_tx` that runs on an intact bank leaves it intact; one unit moves from the account numbered `send_id` to the one numbered `recv_id`, if the first has one and they are two, and no other word changes; if one does not exist, nothing changes |
| `BankAllocation.GrowKeepsBank` | grading/workload.hpp:212-214 | a new account in the last segment keeps the bank; it comes behind all others, with the initial balance, and these keep number, address and balance |
| `BankAllocation.ShrinkKeepsBank` | grading/workload.hpp:196-201 | removing the last account, with its money kept as parity, keeps the bank and all other accounts |
| `BankAllocation.DeleteKeepsBank` | grading/workload.hpp:202-208 | deleting the last segment, with money and parity moved to the one before, keeps the bank and all accounts but the last |
| `BankAllocation.ExtendKeepsBank` | grading/workload.hpp:215-219 | a new segment with one account on zeroed words keeps the bank and all accounts; the new one comes last, with the initial balance |
| `BankAllocation.AllocReachesLast` | grading/workload.hpp:187-225 | the loop of `alloc_tx` ends at the last segment having counted all accounts before it |
| `BankAllocation.AllocTxKeepsBank` | grading/workload.hpp:186-226 | every log of `alloc_tx` that runs on an intact bank with fresh allocation leaves it intact: money equals initial balance times accounts, no account overdrawn, all segments but the last full, none but the first empty; with more accounts than the trigger and than two, exactly the last one is removed, otherwise one is added behind; all others keep number, address and balance, and only words of the last segment, before or after, change |
| `BankAudit.LongTxCompares` | grading/workload.hpp:161-182 | on any list of segments `long_tx` returns whether no account is overdrawn and all money is as many initial balances as there are accounts; it counts all accounts and changes nothing |
| `BankAudit.LongTxSucceeds` | grading/workload.hpp:161-182 | on an intact bank it returns true, counts every account and changes nothing |
| `BankAudit.InitOpensBank` | grading/workload.hpp:281-286 | the first transaction of `init` makes an intact bank of zeroed memory, or of what another worker's `init` left |
| `BankAudit.InitWrites` | grading/workload.hpp:284-285 | every account is left with the initial balance |
| `BankCode.RunInit` | grading/workload.hpp:281-286 | the loop of `init`, as code, produces a log `InitTx` describes and opens the bank |
| `BankCode.RunAllocTx` | grading/workload.hpp:186-226 | the loop and branches of `alloc_tx`, as code: terminates, produces a log `AllocTx` describes, keeps the bank, and removes the last account or adds one as the trigger demands |
| `BankCode.RunShortTx` | grading/workload.hpp:232-275 | the same for `short_tx`: one unit moves between the accounts with the two numbers, and nothing else changes; false exactly if an account does not exist, and then memory is unchanged |
| `BankCode.RunLongTx` | grading/workload.hpp:161-182 | the nested loops of `long_tx`, as code: terminates on any segment list with that verdict, and succeeds on an intact bank |
| `BankOverStm.AllocationsAreFresh` | 415640/tm.c:325-350 | words allocated by a transaction belonged to nobody committed before it |
| `BankOverStm.EveryCommitIsIntact` | grading/workload.hpp:186-275 | after every commit, in version order, the bank is intact; check and copy of a read may be separate steps |
| `BankOverStm.EveryCommitDoesItsPart` | grading/workload.hpp:186-275 | each of these commits does to the bank left by the one before just what its transaction is for: moves one unit between its two accounts, or adds or removes one account as its trigger demands |
| `BankOverStm.AuditsSucceed` | grading/workload.hpp:161-182 | no `long_tx` reports a violation, unless a newer commit slipped in between check and copy of one of its reads |
| `BankOverStm.OpeningRound` | grading/workload.hpp:281-286 | while the workers run `init` concurrently only the first segment is written, and from the first commit on it is full |
| `BankOverStm.BankIsSafe` | grading/workload.hpp:280-323 | over every run in which all workers' `init`s, concurrent with each other, end before anything else begins: every commit leaves the bank intact, and with one-step reads every audit succeeds |
| `BankOverStm.FirstLooksSucceed` | grading/workload.hpp:287-294 | a worker that looks after its own opening finds the initial balance, so `init` never reports a violation; check and copy of a read may be separate steps |
| `BankRuns.CutAuditFails` | grading/workload.hpp:161-182 | an audit that misses a last segment which is worth more than an initial balance reports a violation |
| `BankRuns.TornBankRun` | grading/workload.hpp:186-275 | for every bank with money and any hash, a run in which an audit pauses before its last copy, `alloc_tx` deletes the last segment, and the audit reports a violation |
| `BankRuns.AuditsNeverFailIff` | grading/workload.hpp:161-182 | in all runs of a bank all audits succeed if and only if check and copy of a read are one step, or the initial balance is zero |
| `MoneylessBank.SegmentsAreApart` | 415640/tm.c:325-350 | segments allocated by committed bank transactions, at whatever time, never overlap |
| `MoneylessBank.NoMoneyAppears` | grading/workload.hpp:186-275 | with initial balance zero, after every commit all balances and parities are zero, and links lead to segments |
| `MoneylessBank.MoneylessAuditsSucceed` | grading/workload.hpp:161-182 | then every audit succeeds, even if each of its reads is from a different moment |
| `CounterCheck.CommitDecrements` | grading/workload.hpp:364-371 | a committed decrement stores one less than the replay before it, unless it saw the counter rise |
| `CounterCheck.CounterFalls` | grading/workload.hpp:356-376 | the counter never rises from one version to a later one |
| `CounterCheck.CounterNeverRises` | grading/workload.hpp:359-375 | a decrementer reads, even before validation, at most what its worker read before, so it stores one less |
| `CounterCheck.CounterStartsExact` | grading/workload.hpp:341-349 | whoever reads before any decrement has passed validation reads the total |
| `CounterCheck.CounterEndsExact` | grading/workload.hpp:378-387 | whoever reads after all decrementers ended, aborted attempts included, reads the total minus the number that committed: zero after `100 * nbworkers` |
| `CounterCheck.RoundHappens` | grading/workload.hpp:330-387 | a run of `check` with one worker and one decrement, from the total to one less |
| `Dictionary.SecondPassStops` | 415640/utils.c:52-76 | a second iteration that stops at the key where the first stopped has acted on exactly the keys the first accepted |
| `Dictionary.OrderVisits` | 415640/dict.c:133-143 | iteration visits every key of the table exactly once |
| `Dictionary.MovesBucket` | 415640/dict.c:71-79 | moving one old bucket moves exactly its nodes |
| `Dictionary.DeleteNode` | 415640/dict.c:27-30 | frees each node of a chain once |
| `Dictionary.Dictionary.constructor` | 415640/dict.c:32-41 | an empty map, 1024 buckets by default |
| `Dictionary.Dictionary.Find` | 415640/dict.c:112-131 | true exactly for keys of the map, and then the cursor is at the key's node |
| `Dictionary.Dictionary.Store` | 415640/tm.c:309-310 | writing through the cursor updates that key of the map and nothing else |
| `Dictionary.Dictionary.Reinsert` | 415640/dict.c:53-64 | the node becomes head of its bucket, and the cursor; the other chains stay |
| `Dictionary.Dictionary.Resize` | 415640/dict.c:66-81 | every node moves to its new bucket in place: same nodes, keys, values, count |
| `Dictionary.Dictionary.Add` | 415640/dict.c:83-110 | inserts a null value for a new key, at the head of its bucket, and changes nothing for an old one; nodes keep their identity; the table grows, by its factor at least, exactly when an empty bucket is to be used and it is more than half full; the call after that terminates |
| `Dictionary.Dictionary.ForEach` | 415640/dict.c:133-143 | applies the callback along the iteration order until it says stop |
| `Dictionary.CallbackIsApplied` | 415640/dict.c:133-143 | the callback sees the nodes one by one, each with the state left by the one before, until it first says stop |
| `Dictionary.Dictionary.Delete` | 415640/dict.c:43-51 | frees every node exactly once |
| `SegmentList.JoinIsLinked` | 415640/ll.c:155-158 | linking the tail to the other head joins two lists into one |
| `SegmentList.List.Append` | 415640/ll.c:67-93 | appends one element |
| `SegmentList.List.Concat` | 415640/ll.c:131-169 | appends the other list in order, with tail and size, in constant time, and empties it; refuses only itself |
| `SegmentList.List.RemoveFirst` | 415640/ll.c:171-253 | unlinks exactly the first match, if any, at head, middle or tail |
| `SegmentList.List.DestroyNested` | 415640/ll.c:37-65 | frees every node once and destroys every non-null element once, in order |
| `SegmentList.NonNullCounts` | 415640/ll.c:52-54 | the destructor gets every non-null element as often as it is in the list, and nothing else |
| `SegmentList.NonNullJoins` | 415640/ll.c:48-58 | and in the order of the list |
| `ReferenceList.PointersAreInverse` | reference/tm.c:45-50 | `prev` and `next` are inverse and never lead back |
| `ReferenceList.Region.Alloc` | reference/tm.c:165-186 | the new segment becomes the head of a well-formed list |
| `ReferenceList.Region.Free` | reference/tm.c:188-198 | removes exactly the given live segment; the list holds what was allocated and not freed |
| `ReferenceList.Region.Destroy` | reference/tm.c:86-99 | terminates after freeing each live segment once |
| `Barrier.RunIsInRound` | grading/common.hpp:324-339 | every state of every run is gathering for, or draining, one round |
| `Barrier.NobodyReturnsEarly` | grading/common.hpp:324-339 | nobody returns from its k-th `sync` before all entered theirs; rounds differ by at most one |
| `Barrier.WaitsAreNeeded` | grading/common.hpp:329-337 | a thread spins only while another has not come as far, or is about to change the mode |
| `Barrier.SomebodyMoves` | grading/common.hpp:324-339 | no run ends in a deadlock: some thread's next operation changes the state |
| `Barrier.EverybodyReturns` | grading/common.hpp:324-339 | whatever the scheduler: once more than `n * (4 * k + 3)` operations have changed the state, every thread has returned from its k-th `sync` |
| `Barrier.RoundsGoOn` | grading/common.hpp:324-339 | from every state of every run some continuation brings every thread through any number of calls |
| `Sync.RunKeepsInv` | grading/grading.cpp:79-145 | every state of every run is between rounds, gathering or running, with counters and messages to match |
| `Sync.NobodyStartsEarly` | grading/grading.cpp:109-129 | no worker starts a round before all have arrived for it |
| `Sync.MasterWakesLast` | grading/grading.cpp:92-96 | the master wakes only when every worker has notified in this round |
| `Sync.WaitsAreNeeded` | grading/grading.cpp:109-129 | a worker spins only between rounds, or while another has not arrived for the round or is about to start it |
| `Sync.ErrorsAreReported` | grading/grading.cpp:133-137 | every error a worker ends its work with is reported in that round or about to be, and no other |
| `Sync.ResultIsRight` | grading/grading.cpp:97-104 | the result is a failure exactly when some worker ended its work in this round with an error, and carries one of these errors; the unreachable status never occurs |
| `Sync.SomebodyMoves` | grading/grading.cpp:92-145 | unless the master is free to choose, or everybody has quit after the join, some operation changes the state |
| `Sync.RoundsAreFinite` | grading/grading.cpp:92-145 | whatever the scheduler, the operations that change the state are bounded by the number of rounds started |
| `Sync.EverythingSettles` | grading/grading.cpp:92-145 | from every state of every run the current round can be brought to its end, and after the join all workers to quit |
| `RingLockFree.RingIsFifo` | sync-examples/procon3.c:32-63 | the counters differ by at most the buffer size, and what is consumed is what was produced, in order |
| `RingLockFree.SlotsAreExclusive` | sync-examples/procon3.c:43-60 | producer and consumer never touch the same slot at once |
| `RingLockFree.RoundsAreDone` | sync-examples/procon3.c:32-63 | a producer's round appends the item it brought, a consumer's round ends with the oldest item left, and each counts one |
| `RingLockFree.WaitsAreNeeded` | sync-examples/procon3.c:34-58 | with rounds left the producer waits exactly while the buffer is full, the consumer exactly while it is empty |
| `RingLockFree.SomebodyMoves` | sync-examples/procon3.c:34-58 | until both are through one of them can make progress |
| `RingLockFree.StepsRunOut` | sync-examples/procon3.c:32-63 | whatever the scheduler, both are through exactly when `2 * runs * (item + 2)` steps have had an effect, and no more can have one |
| `RingLockFree.EverythingArrives` | sync-examples/procon3.c:81-91 | in the end all items produced have been consumed intact |
| `RingLockFree.RunsEnd` | sync-examples/procon3.c:32-91 | from every state of every run both can be brought through all rounds, with everything produced consumed |
| `RingCondVar.RingIsFifo` | sync-examples/procon4.c:36-74 | the same bounds and order with sleeping threads |
| `RingCondVar.WakeUpIsPending` | sync-examples/procon4.c:39-72 | a sleeper whose condition has become true has a wake-up pending |
| `RingCondVar.MutualExclusion` | sync-examples/procon4.c:38-71 | only one thread at a time is in its critical section |
| `RingCondVar.WorkIsDone` | sync-examples/procon4.c:50-70 | a thread in its critical section does its round: the producer appends its item, the consumer the oldest produced one it has not had |
| `RingCondVar.WaitsAreNeeded` | sync-examples/procon4.c:38-72 | a thread is kept out only by the other holding the lock; it goes to work exactly if there is space, or an item; and if there is while it sleeps, the other is about to wake it |
| `RingCondVar.SomebodyMoves` | sync-examples/procon4.c:36-74 | they never both sleep for ever, even without spurious wake-ups |
| `RingCondVar.MovesRunOut` | sync-examples/procon4.c:36-74 | whatever the scheduler, at most `14 * runs + 4` operations change the state, and two more for each spurious wake-up |
| `RingCondVar.EverythingArrives` | sync-examples/procon4.c:92-102 | in the end all items produced have been consumed |
| `RingCondVar.RunsEnd` | sync-examples/procon4.c:36-102 | from every state of every run both can be brought to their end without spurious wake-ups, with `runs` items produced and the same consumed |

## Left out

- Integer width: versions, counters, sizes and balances are unbounded integers; `int` versions of the C code wrap
  after 2^30 commits, and `count * 20` in the dictionary overflows for very large tables.
- Memory model: memory is sequentially consistent and a word copy is atomic; C11 orderings and data races on plain
  copies are not modelled.
- One-step check and copy is an option of the model (`fusedRead`) which the code does not provide (see above); it is
  off in `TransactionManager`.
- Allocation: the allocator hands out zeroed words that nobody had before, never fails, and never reuses freed
  memory; `tm_free` does nothing, as in the code. Out-of-memory branches are not modelled, nor is `posix_memalign`'s
  refusal of alignments smaller than a pointer.
- Addresses count words, alignment is given, and sizes that are no multiple of the word round down in `TmRead`, as
  in the code.
- The first segment is not part of the modelled shared list; it belongs to the region from start to end, and its words
  are the `root` of the configuration whatever size `TmCreate` is given.
- The lock inside `ll_t`: handing segments over and `Concat` are one step; `ll_append_safe` is `Append` under that lock.
- `TransactionManager` keeps the read, write and lock sets as values visited in some order (`VisitOrder`); that the
  real table visits each key once, and again in the same order, is proved in `Dictionary` and not connected
  object by object.
- TransactionManager.SharedRegion.RunTransaction: allocates only when undisturbed, because what the allocator may
  return depends on what others allocated in the meantime; `TmAlloc` by itself never aborts.
- Interference is modelled before each operation on shared state of the calling transaction; private bookkeeping
  happens together with the operation before it.
- Barrier, Sync and the rings are state machines rather than methods: how often their spin loops turn depends on the
  scheduler. A failed spin is a step that changes nothing, and progress is counted in the steps that change something.
- Sync: a worker that reports an exception and leaves, and waiting with a timeout; clocks are left out.
- RingLockFree.RingIsFifo: the producer writes `produced[r]` in one step, since nobody else reads it before the end.
- The bank's random choices are parameters; the order in which `alloc_tx` evaluates the two operands of one C++
  addition is fixed to left to right. `run` itself, which only repeats these transactions, is not modelled.
- `assert_mode` is off, as in the repository, so the checks it guards are not modelled.
- `hash_pointer`: any function; `dic_forEach` callbacks that write through the value pointer, `add_from_dict` and
  `rm_from_dict` (never called), `ll_size` and `ll_is_empty`.
- `submit.py`, `grading.cpp` outside `Sync`, `transactional.hpp`, `reference/lock.c`, `reference/shared-lock.c`, the
  other synchronization examples, `template/` and `playground/`: thin wrappers, stubs and drivers.
