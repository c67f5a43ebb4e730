/** Why transactions abort: only in conflict with another one, whatever the interleaving. Two transactions conflict
    if they meet at a lock, through the same word or through words that share it. */
module Conflicts {
  import opened VersionLock
  import opened Protocol
  import opened ProtocolInvariant
  import CommitSteps
  import RunRecord
  import Serializability

  /** Commit `u` wrote a word of lock `l`. */
  ghost predicate WroteUnder(c: Config, h: map<int, Commit>, u: int, l: nat) {
    u in h && l in LockSet(c, h[u].writes)
  }

  /** The version in a lock word comes from a commit that wrote under it. */
  ghost predicate StampOk(c: Config, s: State, l: nat)
    requires l < |s.locks|
  {
    Ver(s, l) == 0 || WroteUnder(c, s.hist, Ver(s, l), l)
  }

  /** The version that the present holder of the lock will store is newer than `rv`. */
  ghost predicate HolderIsLate(s: State, l: nat, rv: int) {
    l in s.owner ==> s.owner[l] in s.txs && (s.txs[s.owner[l]].wv == 0 || s.txs[s.owner[l]].wv > rv)
  }

  /** The version in the lock is `loaded`, or newer than `rv`. */
  ghost predicate LoadedOrLate(s: State, l: nat, loaded: int, rv: int) {
    l < |s.locks| && (Ver(s, l) == loaded || Ver(s, l) > rv)
  }

  /** What holds between the load and the compare-and-swap of a lock. */
  ghost predicate LoadOk(s: State, tx: Tx)
    requires tx.phase.Acquiring? && tx.phase.i < |tx.phase.order|
  {
    var l := tx.phase.order[tx.phase.i];
    LoadedOrLate(s, l, tx.phase.loaded, tx.rv) && HolderIsLate(s, l, tx.rv)
  }

  ghost predicate StampInv(c: Config, s: State) {
    forall l :: 0 <= l < |s.locks| ==> StampOk(c, s, l)
  }

  ghost predicate LoadInv(s: State) {
    forall t :: t in s.txs && s.txs[t].phase.Acquiring? && s.txs[t].phase.i < |s.txs[t].phase.order| ==>
      LoadOk(s, s.txs[t])
  }

  /** Validation is for those after whose beginning somebody else has taken a version. */
  ghost predicate LateInv(s: State) {
    forall t :: t in s.txs && s.txs[t].phase.Validating? ==> s.txs[t].wv != s.txs[t].rv + 2
  }

  // ---- every step keeps them

  lemma CasKeepsVersions(c: Config, s: State, step: Step, l: nat)
    requires LocalInv(c, s) && EvenInv(s) && Enabled(c, s, step) && step.CasLock? && l < |s.locks|
    ensures Ver(Apply(c, s, step), l) == Ver(s, l)
  {
    assert LocalOk(c, s.txs[step.t]);
    Serializability.LockBitIsOwner(s, StepLock(s, step));
  }

  /** A lock that is given back or released is held. */
  lemma StepLockIsHeld(c: Config, s: State, step: Step)
    requires LocalInv(c, s) && LockInv(s) && Enabled(c, s, step) && (step.ReleaseLock? || step.RollBackLock?)
    ensures StepLock(s, step) in s.txs[step.t].saved && StepLock(s, step) in s.owner
  {
    assert LocalOk(c, s.txs[step.t]);
    assert StepLock(s, step) in Held(s.txs[step.t].phase);
  }

  lemma RollBackKeepsVersions(c: Config, s: State, step: Step, l: nat)
    requires Enabled(c, s, step) && step.RollBackLock? && StepLock(s, step) in s.owner && l < |s.locks|
    ensures Ver(Apply(c, s, step), l) == Ver(s, l)
  {}

  lemma ReleaseSetsVersion(c: Config, s: State, step: Step, l: nat)
    requires Enabled(c, s, step) && step.ReleaseLock? && l < |s.locks|
    ensures Ver(Apply(c, s, step), l) == if l == StepLock(s, step) then s.txs[step.t].wv else Ver(s, l)
    ensures StepLock(s, step) !in Apply(c, s, step).owner
  {}

  lemma OtherStepsKeepVersions(c: Config, s: State, step: Step, l: nat)
    requires Enabled(c, s, step) && !step.CasLock? && !step.ReleaseLock? && !step.RollBackLock? && l < |s.locks|
    ensures Ver(Apply(c, s, step), l) == Ver(s, l)
  {}

  /** A version changes only when a committing transaction stores its own. */
  lemma VersionsStay(c: Config, s: State, step: Step, l: nat)
    requires LocalInv(c, s) && LockInv(s) && EvenInv(s) && Enabled(c, s, step) && l < |s.locks|
    ensures |Apply(c, s, step).locks| == |s.locks|
    ensures Ver(Apply(c, s, step), l) == Ver(s, l) || (step.ReleaseLock? && l == StepLock(s, step))
  {
    if step.CasLock? {
      CasKeepsVersions(c, s, step, l);
    } else if step.RollBackLock? {
      StepLockIsHeld(c, s, step);
      RollBackKeepsVersions(c, s, step, l);
    } else if step.ReleaseLock? {
      ReleaseSetsVersion(c, s, step, l);
    } else {
      OtherStepsKeepVersions(c, s, step, l);
    }
  }

  /** A lock changes hands only by compare-and-swap, before the new holder has a write version. */
  lemma OwnersStay(c: Config, s: State, step: Step, l: nat)
    requires LocalInv(c, s) && Enabled(c, s, step) && l in Apply(c, s, step).owner
    ensures (l in s.owner && Apply(c, s, step).owner[l] == s.owner[l]) ||
            (Apply(c, s, step).owner[l] == step.t && step.t in s.txs && NextTx(c, s, step).wv == 0)
  {
    if step.CasLock? {
      assert LocalOk(c, s.txs[step.t]);
    }
  }

  lemma CommitsStay(c: Config, s: State, step: Step, u: int)
    requires Inv(c, s) && Enabled(c, s, step) && u in s.hist
    ensures u in Apply(c, s, step).hist && Apply(c, s, step).hist[u] == s.hist[u]
  {
    if step.SkipValidation? || step.FinishValidation? {
      assert LocalOk(c, s.txs[step.t]);
      CommitSteps.DecisionMoves(c, s, step);
      CommitSteps.DecisionIsNew(c, s, Apply(c, s, step), step.t, NextTx(c, s, step));
    }
  }

  lemma StepKeepsStamps(c: Config, s: State, step: Step)
    requires Inv(c, s) && Enabled(c, s, step) && StampInv(c, s)
    ensures StampInv(c, Apply(c, s, step))
  {
    var s' := Apply(c, s, step);
    forall l | 0 <= l < |s'.locks| ensures StampOk(c, s', l) {
      VersionsStay(c, s, step, 0);
      VersionsStay(c, s, step, l);
      if Ver(s', l) == Ver(s, l) {
        assert StampOk(c, s, l);
        if Ver(s, l) != 0 {
          CommitsStay(c, s, step, Ver(s, l));
        }
      } else {
        ReleaseSetsVersion(c, s, step, l);
        StepLockIsHeld(c, s, step);
        assert LocalOk(c, s.txs[step.t]) && l in Held(s.txs[step.t].phase);
        CommitsStay(c, s, step, s.txs[step.t].wv);
      }
    }
  }

  lemma ReadKeepsWriteVersion(c: Config, s: State, step: Step)
    requires Enabled(c, s, step) && step.t in s.txs && (ReadStep(step) || step.ValidateWord?)
    ensures NextTx(c, s, step).wv == s.txs[step.t].wv
  {}

  lemma WriteVersionStays(c: Config, s: State, step: Step)
    requires Enabled(c, s, step) && step.t in s.txs
    ensures NextTx(c, s, step).wv == s.txs[step.t].wv || (step.FetchAdd? && NextTx(c, s, step).wv == s.gv + 2)
  {
    if ReadStep(step) || step.ValidateWord? {
      ReadKeepsWriteVersion(c, s, step);
    }
  }

  lemma HolderStaysLate(c: Config, s: State, step: Step, l: nat, rv: int)
    requires LocalInv(c, s) && Enabled(c, s, step) && rv <= s.gv && HolderIsLate(s, l, rv)
    ensures HolderIsLate(Apply(c, s, step), l, rv)
  {
    var s' := Apply(c, s, step);
    if l in s'.owner {
      OwnersStay(c, s, step, l);
      if step.t in s.txs {
        WriteVersionStays(c, s, step);
      }
    }
  }

  lemma VersionStaysLate(c: Config, s: State, step: Step, l: nat, loaded: int, rv: int)
    requires LocalInv(c, s) && LockInv(s) && EvenInv(s) && Enabled(c, s, step)
    requires LoadedOrLate(s, l, loaded, rv) && HolderIsLate(s, l, rv)
    ensures LoadedOrLate(Apply(c, s, step), l, loaded, rv)
  {
    VersionsStay(c, s, step, l);
    if step.ReleaseLock? && l == StepLock(s, step) {
      ReleaseSetsVersion(c, s, step, l);
      StepLockIsHeld(c, s, step);
      assert s.owner[l] == step.t && LocalOk(c, s.txs[step.t]);
    }
  }

  lemma OthersKeepLoad(c: Config, s: State, step: Step, t: Tid)
    requires Inv(c, s) && Enabled(c, s, step) && t in s.txs
    requires s.txs[t].phase.Acquiring? && s.txs[t].phase.i < |s.txs[t].phase.order| && LoadOk(s, s.txs[t])
    ensures LoadOk(Apply(c, s, step), s.txs[t])
  {
    var tx := s.txs[t];
    var l := tx.phase.order[tx.phase.i];
    assert VersionsOk(s, tx);
    HolderStaysLate(c, s, step, l, tx.rv);
    VersionStaysLate(c, s, step, l, tx.phase.loaded, tx.rv);
  }

  lemma LoadIsOk(c: Config, s: State, step: Step)
    requires EvenInv(s) && Enabled(c, s, step) && step.LoadLock? && NextTx(c, s, step).phase.Acquiring?
    ensures LoadOk(Apply(c, s, step), NextTx(c, s, step))
  {
    Serializability.LockBitIsOwner(s, s.txs[step.t].phase.order[s.txs[step.t].phase.i]);
  }

  lemma OnlyLoadsAcquire(c: Config, s: State, step: Step)
    requires Enabled(c, s, step) && NextTx(c, s, step).phase.Acquiring?
    ensures step.LoadLock?
  {}

  lemma StepKeepsLoads(c: Config, s: State, step: Step)
    requires Inv(c, s) && Enabled(c, s, step) && LoadInv(s)
    ensures LoadInv(Apply(c, s, step))
  {
    var s' := Apply(c, s, step);
    forall t | t in s'.txs && s'.txs[t].phase.Acquiring? && s'.txs[t].phase.i < |s'.txs[t].phase.order|
      ensures LoadOk(s', s'.txs[t])
    {
      if t == step.t {
        OnlyLoadsAcquire(c, s, step);
        LoadIsOk(c, s, step);
      } else {
        assert LoadOk(s, s.txs[t]);
        OthersKeepLoad(c, s, step, t);
      }
    }
  }

  lemma ValidatorIsLate(c: Config, s: State, step: Step)
    requires Enabled(c, s, step) && NextTx(c, s, step).phase.Validating?
    ensures step.StartValidation? || step.ValidateWord?
    ensures NextTx(c, s, step).rv == s.txs[step.t].rv && NextTx(c, s, step).wv == s.txs[step.t].wv
  {}

  lemma StepKeepsLate(c: Config, s: State, step: Step)
    requires Enabled(c, s, step) && LateInv(s)
    ensures LateInv(Apply(c, s, step))
  {
    if NextTx(c, s, step).phase.Validating? {
      ValidatorIsLate(c, s, step);
    }
  }

  ghost predicate ConflictInv(c: Config, s: State) {
    StampInv(c, s) && LoadInv(s) && LateInv(s)
  }

  lemma StepKeepsConflicts(c: Config, s: State, step: Step)
    requires Inv(c, s) && Enabled(c, s, step) && ConflictInv(c, s)
    ensures ConflictInv(c, Apply(c, s, step))
  {
    StepKeepsStamps(c, s, step);
    StepKeepsLoads(c, s, step);
    StepKeepsLate(c, s, step);
  }

  lemma {:induction false} RunKeepsConflicts(c: Config, steps: seq<Step>, trace: seq<State>, i: nat)
    requires Run(c, steps, trace) && i <= |steps|
    ensures ConflictInv(c, trace[i])
  {
    if i > 0 {
      RunKeepsConflicts(c, steps, trace, i - 1);
      RunRecord.RunIsGood(c, steps, trace, i - 1);
      assert Moved(c, steps, trace, i - 1);
      StepKeepsConflicts(c, trace[i - 1], steps[i - 1]);
    }
  }

  // ---- aborts

  /** Transaction `t` stops on its way to a commit. */
  ghost predicate GivesUp(tx: Tx, tx': Tx) {
    && !tx.phase.RollingBack? && !tx.phase.Aborted? && (tx'.phase.RollingBack? || tx'.phase.Aborted?)
  }

  /** Another transaction is inside `tm_end` and holds the lock, for a word it writes. */
  ghost predicate HeldByOther(c: Config, s: State, t: Tid, l: nat) {
    && l in s.owner && s.owner[l] != t && s.owner[l] in s.txs
    && !s.txs[s.owner[l]].phase.Committed? && l in LockSet(c, s.txs[s.owner[l]].writes)
  }

  /** Another transaction has committed after `t` began, and has written under the lock. */
  ghost predicate NewerCommit(c: Config, s: State, t: Tid, l: nat)
    requires t in s.txs
  {
    exists u :: u > s.txs[t].rv && WroteUnder(c, s.hist, u, l) && s.hist[u].tid != t
  }

  /** `t` has itself locked the lock of `x`, for another word; which matters only if others have taken a version since
      `t` began. */
  ghost predicate LockedBySelf(c: Config, s: State, t: Tid, x: Addr)
    requires t in s.txs
  {
    && s.txs[t].phase.Validating? && s.txs[t].wv != s.txs[t].rv + 2
    && x !in s.txs[t].writes && c.LockOf(x) in LockSet(c, s.txs[t].writes)
  }

  ghost predicate InConflict(c: Config, s: State, t: Tid, x: Addr)
    requires t in s.txs
  {
    HeldByOther(c, s, t, c.LockOf(x)) || NewerCommit(c, s, t, c.LockOf(x)) || LockedBySelf(c, s, t, x)
  }

  /** A lock word with its bit set belongs to another transaction, unless it is held by the transaction itself. */
  lemma OddIsHeld(c: Config, s: State, t: Tid, l: nat)
    requires Inv(c, s) && t in s.txs && l < |s.locks| && Locked(s.locks[l]) && l !in s.txs[t].saved
    ensures HeldByOther(c, s, t, l)
  {
    Serializability.LockBitIsOwner(s, l);
    assert LocalOk(c, s.txs[s.owner[l]]);
  }

  /** A newer version comes from a newer commit. */
  lemma NewerIsCommit(c: Config, s: State, t: Tid, l: nat)
    requires Inv(c, s) && StampInv(c, s) && t in s.txs && l < |s.locks| && !Decided(s.txs[t]) && Ver(s, l) > s.txs[t].rv
    ensures NewerCommit(c, s, t, l)
  {
    assert VersionsOk(s, s.txs[t]) && StampOk(c, s, l);
    assert s.hist[Ver(s, l)].tid != t;
  }

  /** A failed check of a lock that the transaction does not hold. */
  lemma FailedCheck(c: Config, s: State, t: Tid, x: Addr)
    requires Inv(c, s) && StampInv(c, s) && t in s.txs && !Decided(s.txs[t]) && c.LockOf(x) !in s.txs[t].saved
    requires !Check(LockWord(c, s, x), s.txs[t].rv)
    ensures InConflict(c, s, t, x)
  {
    var l := c.LockOf(x);
    if Locked(s.locks[l]) {
      OddIsHeld(c, s, t, l);
    } else {
      Serializability.LockBitIsOwner(s, l);
      CheckComparesVersions(s.locks[l], s.txs[t].rv);
      NewerIsCommit(c, s, t, l);
    }
  }

  lemma FailedValidation(c: Config, s: State, t: Tid, x: Addr)
    requires Inv(c, s) && StampInv(c, s) && t in s.txs && s.txs[t].phase.Validating? && s.txs[t].wv != s.txs[t].rv + 2
    requires !Validates(c, s, s.txs[t], x)
    ensures InConflict(c, s, t, x)
  {
    var l := c.LockOf(x);
    assert LocalOk(c, s.txs[t]);
    if x in s.txs[t].writes {
      assert l in LockSet(c, s.txs[t].writes) && l in s.txs[t].saved;
      Serializability.LockBitIsOwner(s, l);
      CheckComparesVersions(s.locks[l], s.txs[t].rv);
      NewerIsCommit(c, s, t, l);
    } else if l !in s.txs[t].saved {
      FailedCheck(c, s, t, x);
    }
  }

  /** A lock that could not be taken. */
  lemma FailedLock(c: Config, s: State, t: Tid, l: nat)
    requires Inv(c, s) && StampInv(c, s) && LoadInv(s) && t in s.txs && l < |s.locks|
    requires var p := s.txs[t].phase;
      && (p.Locking? || p.Acquiring?) && p.i < |p.order| && l == p.order[p.i]
      && if p.Locking? then Locked(s.locks[l]) else s.locks[l] != p.loaded
    ensures exists x :: x in s.txs[t].writes && c.LockOf(x) == l && InConflict(c, s, t, x)
  {
    var tx := s.txs[t];
    assert LocalOk(c, tx);
    assert l in Elems(tx.phase.order);
    var x :| x in tx.writes && c.LockOf(x) == l;
    assert l !in tx.saved;
    if Locked(s.locks[l]) {
      OddIsHeld(c, s, t, l);
    } else {
      Serializability.LockBitIsOwner(s, l);
      assert LoadOk(s, tx);
      NewerIsCommit(c, s, t, l);
    }
    assert InConflict(c, s, t, x);
  }

  /** The word a read is about, or a word of the read or the write set. */
  predicate Concerns(tx: Tx, step: Step, x: Addr) {
    (step.FirstCheck? && x == step.x) || x in tx.readSet || x in tx.writes
  }

  lemma ReaderGivesUp(c: Config, s: State, step: Step)
    requires Inv(c, s) && StampInv(c, s) && Enabled(c, s, step) && step.t in s.txs
    requires step.FirstCheck? || step.SecondCheck? || step.CheckAndCopy?
    requires GivesUp(s.txs[step.t], NextTx(c, s, step))
    ensures exists x :: Concerns(s.txs[step.t], step, x) && InConflict(c, s, step.t, x)
  {
    var tx := s.txs[step.t];
    var x := if step.FirstCheck? then step.x else tx.phase.x;
    assert LocalOk(c, tx);
    FailedCheck(c, s, step.t, x);
    assert Concerns(tx, step, x);
  }

  lemma LockerGivesUp(c: Config, s: State, step: Step)
    requires Inv(c, s) && StampInv(c, s) && LoadInv(s) && Enabled(c, s, step) && step.t in s.txs
    requires (step.LoadLock? || step.CasLock?) && GivesUp(s.txs[step.t], NextTx(c, s, step))
    ensures exists x :: Concerns(s.txs[step.t], step, x) && InConflict(c, s, step.t, x)
  {
    var tx := s.txs[step.t];
    FailedLock(c, s, step.t, tx.phase.order[tx.phase.i]);
    var x :| x in tx.writes && InConflict(c, s, step.t, x);
    assert Concerns(tx, step, x);
  }

  lemma ValidatorGivesUp(c: Config, s: State, step: Step)
    requires Inv(c, s) && StampInv(c, s) && LateInv(s) && Enabled(c, s, step) && step.t in s.txs
    requires step.ValidateWord? && GivesUp(s.txs[step.t], NextTx(c, s, step))
    ensures exists x :: Concerns(s.txs[step.t], step, x) && InConflict(c, s, step.t, x)
  {
    var tx := s.txs[step.t];
    var x := tx.phase.rs[tx.phase.j];
    assert LocalOk(c, tx);
    assert x in Elems(tx.phase.rs);
    FailedValidation(c, s, step.t, x);
    assert Concerns(tx, step, x);
  }

  lemma WhoGivesUp(c: Config, s: State, step: Step)
    requires Enabled(c, s, step) && step.t in s.txs && GivesUp(s.txs[step.t], NextTx(c, s, step))
    ensures step.FirstCheck? || step.SecondCheck? || step.CheckAndCopy? || step.LoadLock? || step.CasLock? ||
            step.ValidateWord? || step.BadWrite?
  {}

  /** A transaction that gives up has written with a bad size, or is in conflict over a word it reads or writes:
      another transaction is inside `tm_end` with its lock, or has committed under it since this one began, or, and only
      if others have taken a version meanwhile, it holds the lock itself for another word. */
  lemma AbortsAreConflicts(c: Config, s: State, step: Step)
    requires Reachable(c, s) && Enabled(c, s, step) && step.t in s.txs
    requires GivesUp(s.txs[step.t], NextTx(c, s, step)) && !step.BadWrite?
    ensures exists x :: Concerns(s.txs[step.t], step, x) && InConflict(c, s, step.t, x)
  {
    var steps, trace :| Run(c, steps, trace) && trace[|steps|] == s;
    RunKeepsConflicts(c, steps, trace, |steps|);
    RunRecord.RunIsGood(c, steps, trace, |steps|);
    WhoGivesUp(c, s, step);
    if step.FirstCheck? || step.SecondCheck? || step.CheckAndCopy? {
      ReaderGivesUp(c, s, step);
    } else if step.LoadLock? || step.CasLock? {
      LockerGivesUp(c, s, step);
    } else {
      ValidatorGivesUp(c, s, step);
    }
  }

  // ---- the last alternative is needed

  lemma Do(c: Config, s: State, step: Step) returns (s': State)
    requires Reachable(c, s) && Enabled(c, s, step)
    ensures Reachable(c, s') && s' == Apply(c, s, step)
  {
    s' := Apply(c, s, step);
    StepIsReachable(c, s, step);
  }

  /** Two transactions begin. */
  lemma TwoBegin(c: Config) returns (s: State)
    ensures Reachable(c, s)
    ensures s == Init().(txs := map[0 := NextTx(c, Init(), Begin(0, false)), 1 := NextTx(c, Init(), Begin(1, false))])
  {
    InitIsReachable(c);
    s := Do(c, Init(), Begin(0, false));
    s := Do(c, s, Begin(1, false));
  }

  /** A read and a write, with all locks free and old. */
  lemma ReadsAndWrites(c: Config, s: State, t: Tid, x: Addr, y: Addr) returns (s': State)
    requires Reachable(c, s) && s.locks == Init().locks && t in s.txs && s.txs[t].phase.Running?
    requires !s.txs[t].readOnly && s.txs[t].rv == 0
    ensures Reachable(c, s') && t in s'.txs && s' == s.(txs := s.txs[t := s'.txs[t]])
    ensures s'.txs[t].phase.Running? && !s'.txs[t].readOnly && s'.txs[t].rv == 0
    ensures s'.txs[t].readSet == s.txs[t].readSet + {x} && s'.txs[t].writes == s.txs[t].writes[y := 0]
  {
    var s1 := ReadsWord(c, s, t, x);
    s' := Do(c, s1, WriteWord(t, y, 0));
  }

  lemma ReadsWord(c: Config, s: State, t: Tid, x: Addr) returns (s': State)
    requires Reachable(c, s) && s.locks == Init().locks && t in s.txs && s.txs[t].phase.Running?
    requires !s.txs[t].readOnly && s.txs[t].rv == 0
    ensures Reachable(c, s') && t in s'.txs && s' == s.(txs := s.txs[t := s'.txs[t]])
    ensures s'.txs[t].phase.Running? && !s'.txs[t].readOnly && s'.txs[t].rv == 0
    ensures s'.txs[t].readSet == s.txs[t].readSet + {x} && s'.txs[t].writes == s.txs[t].writes
  {
    s' := Do(c, s, FirstCheck(t, x));
    if c.fusedRead {
      s' := Do(c, s', CheckAndCopy(t));
    } else {
      s' := Do(c, s', SecondCheck(t));
      s' := Do(c, s', CopyWord(t));
    }
  }

  /** A transaction that has written nothing still takes a version when it commits. */
  lemma EmptyCommit(c: Config, s: State, t: Tid) returns (s': State)
    requires Reachable(c, s) && |s.locks| == LOCK_ARRAY_SIZE && t in s.txs && s.txs[t].phase.Running?
    requires !s.txs[t].readOnly && s.txs[t].writes == map[] && s.txs[t].rv == s.gv
    ensures Reachable(c, s') && s'.gv == s.gv + 2 && s'.locks == s.locks && s'.owner == s.owner
    ensures s'.hist == s.hist[s.gv + 2 := Commit(t, map[])] && t in s'.txs && s'.txs == s.txs[t := s'.txs[t]]
  {
    var s1 := TakesVersion(c, s, t, []);
    assert Visits([], s1.txs[t].writes.Keys);
    s' := Do(c, s1, SkipValidation(t, []));
  }

  lemma TakesVersion(c: Config, s: State, t: Tid, order: seq<nat>) returns (s': State)
    requires Reachable(c, s) && |s.locks| == LOCK_ARRAY_SIZE && t in s.txs && s.txs[t].phase.Running?
    requires order == [] && !s.txs[t].readOnly && s.txs[t].writes == map[]
    ensures Reachable(c, s') && t in s'.txs
    ensures s' == s.(gv := s.gv + 2, txs := s.txs[t := s.txs[t].(phase := Fetched(order), wv := s.gv + 2)])
  {
    assert LockSet(c, s.txs[t].writes) == {} && Visits(order, LockSet(c, s.txs[t].writes));
    s' := Do(c, s, StartCommit(t, order));
    s' := Do(c, s', FetchAdd(t));
  }

  /** Takes the one lock of its write set. */
  lemma TakesLock(c: Config, s: State, t: Tid, l: nat) returns (s': State)
    requires Reachable(c, s) && s.locks == Init().locks && t in s.txs && s.txs[t].phase.Running?
    requires !s.txs[t].readOnly && LockSet(c, s.txs[t].writes) == {l} && l < LOCK_ARRAY_SIZE
    ensures Reachable(c, s') && t in s'.txs && s'.gv == s.gv && s'.hist == s.hist && s'.owner == s.owner[l := t]
    ensures s'.locks == s.locks[l := 1]
    ensures s'.txs == s.txs[t := s'.txs[t]]
    ensures s'.txs[t] == s.txs[t].(phase := Locking([l], 1), saved := s'.txs[t].saved)
  {
    assert Visits([l], LockSet(c, s.txs[t].writes));
    s' := Do(c, s, StartCommit(t, [l]));
    s' := Do(c, s', LoadLock(t));
    s' := Do(c, s', CasLock(t));
  }

  /** And validates the one word it has read. */
  lemma StartsToValidate(c: Config, s: State, t: Tid, l: nat, x: Addr) returns (s': State)
    requires Reachable(c, s) && |s.locks| == LOCK_ARRAY_SIZE && t in s.txs && s.txs[t].phase == Locking([l], 1)
    requires s.txs[t].rv != s.gv && s.txs[t].readSet == {x}
    ensures Reachable(c, s') && t in s'.txs && s'.locks == s.locks && s'.hist == s.hist && s'.owner == s.owner
    ensures s'.txs == s.txs[t := s'.txs[t]] && s'.txs[t] == s.txs[t].(phase := Validating([l], [x], 0), wv := s.gv + 2)
  {
    s' := Do(c, s, FetchAdd(t));
    assert Visits([x], s'.txs[t].readSet);
    s' := Do(c, s', StartValidation(t, [x]));
  }

  /** For any hash that maps two words to one lock, a run in which a transaction that has read the one and written the
      other aborts, although nobody else holds a lock or has ever written anything. */
  lemma SelfConflict(c: Config, x: Addr, y: Addr) returns (s: State, step: Step)
    requires x != y && c.LockOf(x) == c.LockOf(y)
    ensures Reachable(c, s) && Enabled(c, s, step) && step.t in s.txs && GivesUp(s.txs[step.t], NextTx(c, s, step))
    ensures forall l :: !HeldByOther(c, s, step.t, l) && !NewerCommit(c, s, step.t, l)
  {
    var l := c.LockOf(y);
    s := TwoBegin(c);
    s := ReadsAndWrites(c, s, 1, x, y);
    s := EmptyCommit(c, s, 0);
    assert s.hist == map[2 := Commit(0, map[])] && LockSet(c, map[]) == {};
    assert LockSet(c, s.txs[1].writes) == {l};
    s := TakesLock(c, s, 1, l);
    s := StartsToValidate(c, s, 1, l, x);
    step := ValidateWord(1);
  }
}
