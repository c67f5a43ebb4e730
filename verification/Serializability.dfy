/** What the transaction manager promises in every reachable state, for any number of transactions. */
module Serializability {
  import opened VersionLock
  import opened Protocol
  import opened Replay
  import opened Reference
  import opened ProtocolInvariant
  import CommitSteps
  import opened RunRecord

  // ---- read-write transactions

  /** Past validation, every read is the replay of all commits with a smaller version. */
  lemma DecidedReadsAreReplayed(c: Config, s: State, t: Tid)
    requires LocalInv(c, s) && VersionInv(s) && LockInv(s) && ConfirmedInv(c, s)
    requires t in s.txs && Decided(s.txs[t])
    ensures forall p :: p in s.txs[t].obs ==> p.1 == Val(s.hist, s.txs[t].wv - 1, p.0)
  {
    var tx := s.txs[t];
    assert LocalOk(c, tx) && VersionsOk(s, tx);
    forall p | p in tx.obs ensures p.1 == Val(s.hist, tx.wv - 1, p.0) {
      assert (p.0, p.1) == p;
      assert Confirmed(tx, p.0) && ConfirmedOk(c, s, t, tx, p.0);
      ValSkips(s.hist, tx.rv, tx.wv - 1, p.0);
    }
  }

  lemma RunsAsReplay(h: map<int, Commit>, v: int, tx: Tx)
    requires LogOk(tx) && forall p :: p in tx.obs ==> p.1 == Val(h, v, p.0)
    ensures RunLog(MemAt(h, v), tx.log) == Memory(MemAt(h, v) + tx.writes)
  {
    forall p | p in tx.obs ensures p.1 == Get(MemAt(h, v), p.0) {
      ValIsMemAt(h, v, p.0);
    }
    OverlayRuns(MemAt(h, v), tx.log, tx.obs);
  }

  lemma DecidedExtendsReplay(c: Config, s: State, t: Tid)
    requires LocalInv(c, s) && VersionInv(s) && HistInv(s) && t in s.txs && Decided(s.txs[t])
    ensures MemAt(s.hist, s.txs[t].wv) == MemAt(s.hist, s.txs[t].wv - 1) + s.txs[t].writes
  {
    assert LocalOk(c, s.txs[t]);
  }

  /** Serializability: a read-write transaction that passed validation behaves as if it ran alone, on the
      reference implementation, on the memory left by exactly the commits with a smaller write version.
      The second check and the copy of a read may be separate steps. */
  lemma CommittedIsSerial(c: Config, s: State, t: Tid)
    requires Reachable(c, s) && t in s.txs && Decided(s.txs[t])
    ensures RunLog(MemAt(s.hist, s.txs[t].wv - 1), s.txs[t].log) == Memory(MemAt(s.hist, s.txs[t].wv))
  {
    ReachableGood(c, s);
    DecidedReadsAreReplayed(c, s, t);
    RunsAsReplay(s.hist, s.txs[t].wv - 1, s.txs[t]);
    DecidedExtendsReplay(c, s, t);
  }

  /** The transactions of the history up to version `v`, in version order. */
  function Schedule(h: map<int, Commit>, v: int): seq<Tid>
    decreases if v < 0 then 0 else v
  {
    if v <= 0 then []
    else if v in h then Schedule(h, v - 1) + [h[v].tid]
    else Schedule(h, v - 1)
  }

  ghost predicate Known(s: State, ts: seq<Tid>) {
    forall i :: 0 <= i < |ts| ==> ts[i] in s.txs && Decided(s.txs[ts[i]])
  }

  /** Increasing write versions: in particular nobody appears twice. */
  ghost predicate Ascends(s: State, ts: seq<Tid>)
    requires Known(s, ts)
  {
    forall i, j :: 0 <= i < j < |ts| ==> s.txs[ts[i]].wv < s.txs[ts[j]].wv
  }

  ghost function Logs(s: State, ts: seq<Tid>): (logs: seq<seq<Event>>)
    requires Known(s, ts)
    ensures |logs| == |ts| && forall i :: 0 <= i < |ts| ==> logs[i] == s.txs[ts[i]].log
  {
    seq(|ts|, i requires 0 <= i < |ts| => s.txs[ts[i]].log)
  }

  lemma {:induction false} ScheduleAscends(s: State, v: int)
    requires HistInv(s)
    ensures Known(s, Schedule(s.hist, v)) && Ascends(s, Schedule(s.hist, v))
    ensures forall i :: 0 <= i < |Schedule(s.hist, v)| ==> s.txs[Schedule(s.hist, v)[i]].wv <= v
    decreases if v < 0 then 0 else v
  {
    if v > 0 {
      ScheduleAscends(s, v - 1);
    }
  }

  lemma {:induction false} ScheduleHasAll(h: map<int, Commit>, v: int, u: int)
    requires u in h && 0 < u <= v
    ensures h[u].tid in Schedule(h, v)
    decreases v
  {
    if u < v {
      ScheduleHasAll(h, v - 1, u);
    }
  }

  lemma {:induction false} ScheduleRuns(c: Config, s: State, v: int)
    requires Reachable(c, s) && HistInv(s)
    ensures Known(s, Schedule(s.hist, v))
    ensures RunLogs(map[], Logs(s, Schedule(s.hist, v))) == Memory(MemAt(s.hist, v))
    decreases if v < 0 then 0 else v
  {
    ScheduleAscends(s, v);
    if v > 0 {
      ScheduleRuns(c, s, v - 1);
      if v in s.hist {
        var logs := Logs(s, Schedule(s.hist, v));
        assert logs[..|logs| - 1] == Logs(s, Schedule(s.hist, v - 1));
        CommittedIsSerial(c, s, s.hist[v].tid);
      }
    }
  }

  /** One serial execution explains everything: running the committed read-write transactions on the
      reference one after the other, in write-version order, from zeroed memory, reproduces every value
      they read and ends in the replayed memory. The order lists each of them once. */
  lemma OneSerialOrder(c: Config, s: State)
    requires Reachable(c, s)
    ensures Known(s, Schedule(s.hist, s.gv)) && Ascends(s, Schedule(s.hist, s.gv))
    ensures forall t :: t in s.txs && Decided(s.txs[t]) ==> t in Schedule(s.hist, s.gv)
    ensures RunLogs(map[], Logs(s, Schedule(s.hist, s.gv))) == Memory(MemAt(s.hist, s.gv))
  {
    ReachableGood(c, s);
    ScheduleAscends(s, s.gv);
    ScheduleRuns(c, s, s.gv);
    DecidedAreScheduled(c, s);
  }

  lemma DecidedAreScheduled(c: Config, s: State)
    requires LocalInv(c, s) && VersionInv(s) && HistInv(s)
    ensures forall t :: t in s.txs && Decided(s.txs[t]) ==> t in Schedule(s.hist, s.gv)
  {
    forall t | t in s.txs && Decided(s.txs[t]) ensures t in Schedule(s.hist, s.gv) {
      assert LocalOk(c, s.txs[t]) && VersionsOk(s, s.txs[t]);
      ScheduleHasAll(s.hist, s.gv, s.txs[t].wv);
    }
  }

  /** Every word whose lock is free holds its fully replayed value. */
  lemma FreeWordsAreReplayed(c: Config, s: State, x: Addr)
    requires Reachable(c, s) && |s.locks| == LOCK_ARRAY_SIZE && !Locked(LockWord(c, s, x))
    ensures Get(s.mem, x) == Get(MemAt(s.hist, s.gv), x)
  {
    ReachableGood(c, s);
    LockBitIsOwner(s, c.LockOf(x));
    FreeWordIsReplayed(c, s, x);
  }

  lemma LockBitIsOwner(s: State, l: nat)
    requires EvenInv(s) && l < |s.locks|
    ensures Locked(s.locks[l]) <==> l in s.owner
    ensures Version(s.locks[l]) == Ver(s, l) && Ver(s, l) % 2 == 0
  {
    assert Ver(s, l) % 2 == 0;
  }

  lemma FreeWordIsReplayed(c: Config, s: State, x: Addr)
    requires LockInv(s) && MemInv(c, s) && c.LockOf(x) !in s.owner
    ensures Get(s.mem, x) == Get(MemAt(s.hist, s.gv), x)
  {
    assert Get(s.mem, x) == Current(c, s, x);
    ValIsMemAt(s.hist, s.gv, x);
  }

  /** Skipping validation is sound: when the write version is the successor of the read version, every
      read is current at the write version, even if other transactions hold locks of words read. */
  lemma SkipIsSound(c: Config, s: State, t: Tid, p: (Addr, Word))
    requires Reachable(c, s) && t in s.txs && p in s.txs[t].obs
    requires s.txs[t].phase.Fetched? && s.txs[t].wv == s.txs[t].rv + 2
    ensures p.1 == Get(MemAt(s.hist, s.txs[t].wv - 1), p.0)
    ensures forall t' :: t' in s.txs && t' != t ==> s.txs[t'].wv <= s.txs[t].rv || s.txs[t'].wv > s.txs[t].wv
  {
    ReachableGood(c, s);
    SkippedIsCurrent(c, s, t, p);
    NobodyBetween(s, t);
  }

  lemma SkippedIsCurrent(c: Config, s: State, t: Tid, p: (Addr, Word))
    requires LocalInv(c, s) && LockInv(s) && ConfirmedInv(c, s) && t in s.txs && p in s.txs[t].obs
    requires s.txs[t].phase.Fetched? && s.txs[t].wv == s.txs[t].rv + 2
    ensures p.1 == Get(MemAt(s.hist, s.txs[t].wv - 1), p.0)
  {
    var tx := s.txs[t];
    assert LocalOk(c, tx) && (p.0, p.1) == p;
    assert Confirmed(tx, p.0) && ConfirmedOk(c, s, t, tx, p.0);
    ValSkips(s.hist, tx.rv, tx.wv - 1, p.0);
    ValIsMemAt(s.hist, tx.wv - 1, p.0);
  }

  lemma NobodyBetween(s: State, t: Tid)
    requires VersionInv(s) && EvenInv(s) && t in s.txs && s.txs[t].wv == s.txs[t].rv + 2
    ensures forall t' :: t' in s.txs && t' != t ==> s.txs[t'].wv <= s.txs[t].rv || s.txs[t'].wv > s.txs[t].wv
  {
    forall t' | t' in s.txs && t' != t ensures s.txs[t'].wv <= s.txs[t].rv || s.txs[t'].wv > s.txs[t].wv {
      assert VersionsOk(s, s.txs[t]) && s.txs[t'].wv % 2 == 0 && s.txs[t].rv % 2 == 0;
    }
  }

  /** Every commit of the history belongs to one known transaction, which has that write version. */
  lemma CommitterIsKnown(c: Config, s: State, u: int)
    requires Reachable(c, s) && u in s.hist
    ensures s.hist[u].tid in s.txs && Decided(s.txs[s.hist[u].tid]) && !s.txs[s.hist[u].tid].readOnly
    ensures s.txs[s.hist[u].tid].wv == u && s.hist[u].writes == s.txs[s.hist[u].tid].writes && 0 < u <= s.gv
  {
    ReachableGood(c, s);
    CommitsArePositive(c, s);
    assert VersionsOk(s, s.txs[s.hist[u].tid]) && LocalOk(c, s.txs[s.hist[u].tid]);
  }

  /** Once it has copied all its words, and while it holds their locks, a writer's words are the newest. */
  lemma PublishedIsNewest(c: Config, s: State, t: Tid, x: Addr)
    requires Reachable(c, s) && t in s.txs && x in s.txs[t].writes
    requires s.txs[t].phase.Publishing? && s.txs[t].phase.k == |s.txs[t].phase.ws|
    ensures Get(s.mem, x) == s.txs[t].writes[x]
  {
    ReachableGood(c, s);
    var tx := s.txs[t];
    assert LocalOk(c, tx) && VersionsOk(s, tx);
    WriteLockIsHeld(c, tx, x);
    OwnWordsArePublished(c, s, t, x);
    CommitSteps.HeldIsOld(c, s, t, x);
    ValSkips(s.hist, tx.wv, s.gv, x);
  }

  lemma OwnWordsArePublished(c: Config, s: State, t: Tid, x: Addr)
    requires LockInv(s) && MemInv(c, s) && t in s.txs && LocalOk(c, s.txs[t]) && c.LockOf(x) in s.txs[t].saved
    requires s.txs[t].phase.Publishing? && s.txs[t].phase.k == |s.txs[t].phase.ws| && x in s.txs[t].writes
    ensures Get(s.mem, x) == Val(s.hist, s.gv, x)
  {
    var tx := s.txs[t];
    assert tx.phase.ws[..tx.phase.k] == tx.phase.ws && x in Elems(tx.phase.ws);
    assert s.owner[c.LockOf(x)] == t && !Pending(tx, x);
    assert Get(s.mem, x) == Current(c, s, x);
  }

  // ---- snapshots

  /** A commit newer than `rv` wrote value `v` to word `x`. */
  ghost predicate Overtaken(h: map<int, Commit>, rv: int, x: Addr, v: Word) {
    exists u :: rv < u && u in h && x in h[u].writes && h[u].writes[x] == v
  }

  /** Everything any transaction has read is the replay of exactly the commits with version at most its read
      version, at any later time, except where a newer commit wrote just that value in between the second check
      and the copy. If these are one step there is no exception. */
  lemma ReadsAreSnapshots(c: Config, s: State, t: Tid)
    requires Reachable(c, s) && t in s.txs
    ensures forall p :: p in s.txs[t].obs ==>
      p.1 == Get(MemAt(s.hist, s.txs[t].rv), p.0) || (!c.fusedRead && Overtaken(s.hist, s.txs[t].rv, p.0, p.1))
  {
    ReachableGood(c, s);
    forall p | p in s.txs[t].obs
      ensures p.1 == Get(MemAt(s.hist, s.txs[t].rv), p.0) ||
        (!c.fusedRead && Overtaken(s.hist, s.txs[t].rv, p.0, p.1))
    {
      ValIsMemAt(s.hist, s.txs[t].rv, p.0);
      assert ObsOk(c, s, s.txs[t].rv, p.0, p.1) && VersionsOk(s, s.txs[t]);
      var u :| FromCommit(s.hist, s.txs[t].rv, p.0, p.1, u);
      CommitsArePositive(c, s);
      SourceIsSnapshot(s.hist, s.txs[t].rv, p.0, p.1, u);
    }
  }

  lemma SourceIsSnapshot(h: map<int, Commit>, rv: int, x: Addr, v: Word, u: int)
    requires FromCommit(h, rv, x, v, u) && rv >= 0 && forall u' :: u' in h ==> u' > 0
    ensures v == Val(h, rv, x) || Overtaken(h, rv, x, v)
  {
    if u <= rv {
      assert NotWritten(h, u, rv, x);
      ValSkips(h, u, rv, x);
    }
  }

  /** A read-only transaction runs on the reference as if alone at its read version, changing nothing, unless it
      was overtaken by a newer commit between check and copy of a read. */
  lemma ReadOnlyIsSerial(c: Config, s: State, t: Tid)
    requires Reachable(c, s) && t in s.txs && s.txs[t].readOnly
    requires c.fusedRead || forall p :: p in s.txs[t].obs ==> !Overtaken(s.hist, s.txs[t].rv, p.0, p.1)
    ensures RunLog(MemAt(s.hist, s.txs[t].rv), s.txs[t].log) == Memory(MemAt(s.hist, s.txs[t].rv))
  {
    ReadsAreSnapshots(c, s, t);
    ReachableGood(c, s);
    assert LogOk(s.txs[t]);
    OverlayRuns(MemAt(s.hist, s.txs[t].rv), s.txs[t].log, s.txs[t].obs);
  }

  /** What would repair the split read: if the lock check still passes when the copy is made, the copied
      value is the snapshot value. A copy that differs is always caught by such a check. */
  lemma CheckAfterCopyIsEnough(c: Config, s: State, t: Tid)
    requires Reachable(c, s) && t in s.txs && s.txs[t].phase.Rechecked? && |s.locks| == LOCK_ARRAY_SIZE
    requires Check(LockWord(c, s, s.txs[t].phase.x), s.txs[t].rv)
    ensures Get(s.mem, s.txs[t].phase.x) == Get(MemAt(s.hist, s.txs[t].rv), s.txs[t].phase.x)
  {
    ReachableGood(c, s);
    var tx := s.txs[t];
    assert LocalOk(c, tx) && VersionsOk(s, tx) && SeenOk(c, s, tx.rv, tx.phase.x);
    CopyIsSnapshotOrTainted(c, s, tx.rv, tx.phase.x);
    CheckExcludesTaint(c, s, tx.rv, tx.phase.x);
    ValIsMemAt(s.hist, tx.rv, tx.phase.x);
  }

  // ---- locks

  /** The lock table: a word is odd exactly when one transaction holds it, and then only that one; the
      version part is even, at most the global counter, and what the holder saved. */
  lemma LockTable(c: Config, s: State, l: nat)
    requires Reachable(c, s) && l < LOCK_ARRAY_SIZE
    ensures |s.locks| == LOCK_ARRAY_SIZE
    ensures 0 <= Version(s.locks[l]) <= s.gv && Version(s.locks[l]) % 2 == 0 && s.gv % 2 == 0
    ensures Locked(s.locks[l]) <==> exists t :: t in s.txs && l in s.txs[t].saved
    ensures forall t :: t in s.txs && l in s.txs[t].saved ==> s.txs[t].saved[l] == Version(s.locks[l])
    ensures forall t, t' :: t in s.txs && l in s.txs[t].saved && t' in s.txs && l in s.txs[t'].saved ==> t == t'
  {
    ReachableGood(c, s);
    LockTableAt(s, l);
  }

  lemma LockTableAt(s: State, l: nat)
    requires LockInv(s) && EvenInv(s) && l < LOCK_ARRAY_SIZE
    ensures 0 <= Version(s.locks[l]) <= s.gv && Version(s.locks[l]) % 2 == 0
    ensures Locked(s.locks[l]) <==> exists t :: t in s.txs && l in s.txs[t].saved
    ensures forall t :: t in s.txs && l in s.txs[t].saved ==> s.txs[t].saved[l] == Version(s.locks[l])
    ensures forall t, t' :: t in s.txs && l in s.txs[t].saved && t' in s.txs && l in s.txs[t'].saved ==> t == t'
  {
    LockBitIsOwner(s, l);
    assert 0 <= Ver(s, l) <= s.gv;
    if l in s.owner {
      assert l in s.txs[s.owner[l]].saved;
    }
  }

  /** What is saved is the value the lock had: the word is even, and only its lock bit changes. */
  lemma AcquireSaves(c: Config, s: State, t: Tid)
    requires Reachable(c, s) && Enabled(c, s, CasLock(t)) && NextTx(c, s, CasLock(t)).phase.Locking?
    ensures var s', l := Apply(c, s, CasLock(t)), StepLock(s, CasLock(t));
      && !Locked(s.locks[l]) && s'.locks == s.locks[l := s.locks[l] + 1]
      && l in s'.txs[t].saved && s'.txs[t].saved[l] == s.locks[l]
  {
    ReachableGood(c, s);
    assert LocalOk(c, s.txs[t]);
    AcquireSavesAt(c, s, t);
  }

  lemma AcquireSavesAt(c: Config, s: State, t: Tid)
    requires Enabled(c, s, CasLock(t)) && NextTx(c, s, CasLock(t)).phase.Locking? && LocalOk(c, s.txs[t])
    ensures var s', l := Apply(c, s, CasLock(t)), StepLock(s, CasLock(t));
      && !Locked(s.locks[l]) && s'.locks == s.locks[l := s.locks[l] + 1]
      && l in s'.txs[t].saved && s'.txs[t].saved[l] == s.locks[l]
  {
    CasSucceeds(c, s, t);
  }

  /** The version stored on release is newer than the one it replaces. */
  lemma ReleaseAdvances(c: Config, s: State, t: Tid)
    requires Reachable(c, s) && Enabled(c, s, ReleaseLock(t))
    ensures var l := StepLock(s, ReleaseLock(t));
      && Locked(s.locks[l]) && Version(s.locks[l]) < s.txs[t].wv && !Locked(s.txs[t].wv)
      && Apply(c, s, ReleaseLock(t)).locks == s.locks[l := s.txs[t].wv]
  {
    ReachableGood(c, s);
    assert LocalOk(c, s.txs[t]);
    ReleaseAdvancesAt(c, s, t);
  }

  lemma ReleaseAdvancesAt(c: Config, s: State, t: Tid)
    requires LockInv(s) && EvenInv(s) && Enabled(c, s, ReleaseLock(t)) && LocalOk(c, s.txs[t])
    ensures var l := StepLock(s, ReleaseLock(t));
      Locked(s.locks[l]) && Version(s.locks[l]) < s.txs[t].wv && !Locked(s.txs[t].wv)
  {
    var l := StepLock(s, ReleaseLock(t));
    ReleaseMoves(c, s, t);
    LockBitIsOwner(s, l);
    assert s.txs[t].saved[l] == Ver(s, l) && s.txs[t].wv % 2 == 0;
  }

  /** No lock check, by anyone, succeeds on a word of a partly published write set. */
  lemma NoCheckDuringPublication(c: Config, s: State, t: Tid, x: Addr, rv: int)
    requires Reachable(c, s) && t in s.txs && s.txs[t].phase.Publishing? && x in s.txs[t].writes
    ensures |s.locks| == LOCK_ARRAY_SIZE && Locked(LockWord(c, s, x)) && !Check(LockWord(c, s, x), rv)
  {
    ReachableGood(c, s);
    assert LocalOk(c, s.txs[t]);
    WriteLockIsHeld(c, s.txs[t], x);
    HeldIsLocked(s, t, c.LockOf(x));
  }

  lemma HeldIsLocked(s: State, t: Tid, l: nat)
    requires LockInv(s) && EvenInv(s) && t in s.txs && l in s.txs[t].saved
    ensures l < |s.locks| && Locked(s.locks[l])
  {
    assert l in s.owner;
    LockBitIsOwner(s, l);
  }

  // ---- overlay

  /** Reads see the transaction's own latest write, or else a value some transaction committed; the write
      set holds exactly the last write of each word. */
  lemma ReadsOverlayWrites(c: Config, s: State, t: Tid, i: nat)
    requires Reachable(c, s) && t in s.txs && i < |s.txs[t].log| && s.txs[t].log[i].EvRead?
    ensures var EvRead(x, v) := s.txs[t].log[i];
      var own := WritesOf(s.txs[t].log[..i]);
      if x in own then v == own[x]
      else (x, v) in s.txs[t].obs && exists u :: FromCommit(s.hist, s.txs[t].rv, x, v, u)
    ensures s.txs[t].writes == WritesOf(s.txs[t].log)
  {
    ReachableGood(c, s);
    assert LogOk(s.txs[t]) && OverlayAt(s.txs[t].log, s.txs[t].obs, i);
    var EvRead(x, v) := s.txs[t].log[i];
    if x !in WritesOf(s.txs[t].log[..i]) {
      assert exists u :: FromCommit(s.hist, s.txs[t].rv, (x, v).0, (x, v).1, u);
    }
  }

  /** Shared memory changes only when a committing transaction copies a last write of its own, under the
      word's lock. */
  lemma OnlyCommitsWrite(c: Config, s: State, step: Step, x: Addr)
    requires Reachable(c, s) && Enabled(c, s, step) && Get(Apply(c, s, step).mem, x) != Get(s.mem, x)
    ensures step.t in s.txs && s.txs[step.t].phase.Publishing? && Locked(LockWord(c, s, x))
    ensures x in WritesOf(s.txs[step.t].log)
    ensures Get(Apply(c, s, step).mem, x) == WritesOf(s.txs[step.t].log)[x]
  {
    ReachableGood(c, s);
    assert LogOk(s.txs[step.t]);
    NoCheckDuringPublication(c, s, step.t, x, s.gv);
  }

  // ---- segments

  /** Every allocated segment is in exactly one place, once: in the transaction while it runs, in the
      shared list once it committed, among the freed ones once it aborted. */
  lemma SegmentsAreConserved(c: Config, s: State, b: Addr)
    requires Reachable(c, s) && b in s.bases
    ensures s.bases[b] in s.txs
    ensures var tx := s.txs[s.bases[b]];
      && multiset(s.segments)[b] == (if tx.phase.Committed? then 1 else 0)
      && multiset(s.freed)[b] == (if tx.phase.Aborted? then 1 else 0)
      && multiset(tx.allocs)[b] == (if tx.phase.Committed? || tx.phase.Aborted? then 0 else 1)
  {
    ReachableGood(c, s);
    assert Places(s, b) == 1;
    assert b in multiset(s.segments) <==> b in s.segments;
    assert b in multiset(s.freed) <==> b in s.freed;
  }

  /** Once no transaction runs, every segment ever allocated has been freed by its transaction, or is in the
      shared list, once: `tm_destroy` frees exactly the rest. */
  lemma DestroyFreesTheRest(c: Config, s: State, b: Addr)
    requires Reachable(c, s) && b in s.bases
    requires forall t :: t in s.txs ==> s.txs[t].phase.Committed? || s.txs[t].phase.Aborted?
    ensures multiset(s.freed + s.segments)[b] == 1
  {
    SegmentsAreConserved(c, s, b);
  }
}
