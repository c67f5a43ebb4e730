/** Promises about whole runs: real-time order, and what happens to locks between two moments. */
module Runs {
  import opened Protocol
  import opened ProtocolInvariant
  import CommitSteps
  import opened RunRecord

  /** Time only moves forward: nothing a transaction has fixed changes, and newcomers read newer versions. */
  ghost predicate Later(s: State, s': State) {
    && s.gv <= s'.gv
    && (forall t :: t in s.txs ==> t in s'.txs && Continues(s.txs[t], s'.txs[t]))
    && (forall t :: t in s'.txs && t !in s.txs ==> s.gv <= s'.txs[t].rv)
  }

  lemma StepIsLater(c: Config, s: State, step: Step)
    requires LocalInv(c, s) && Enabled(c, s, step)
    ensures Later(s, Apply(c, s, step))
  {
    var s', tx' := Apply(c, s, step), NextTx(c, s, step);
    if step.t in s.txs {
      assert LocalOk(c, s.txs[step.t]);
      StepContinues(c, s, step);
    } else {
      assert tx'.rv == s.gv;
    }
    LaterByOne(s, s', step.t, tx');
  }

  lemma LaterByOne(s: State, s': State, t: Tid, tx': Tx)
    requires s'.txs == s.txs[t := tx'] && s.gv <= s'.gv
    requires if t in s.txs then Continues(s.txs[t], tx') else s.gv <= tx'.rv
    ensures Later(s, s')
  {}

  lemma LaterIsTransitive(s: State, s1: State, s2: State)
    requires Later(s, s1) && Later(s1, s2)
    ensures Later(s, s2)
  {
    forall t | t in s.txs ensures t in s2.txs && Continues(s.txs[t], s2.txs[t]) {
      assert Continues(s.txs[t], s1.txs[t]) && Continues(s1.txs[t], s2.txs[t]);
    }
    forall t | t in s2.txs && t !in s.txs ensures s.gv <= s2.txs[t].rv {
      if t in s1.txs {
        assert Continues(s1.txs[t], s2.txs[t]);
      }
    }
  }

  lemma {:induction false} RunIsOrdered(c: Config, steps: seq<Step>, trace: seq<State>, i: nat, j: nat)
    requires Run(c, steps, trace) && i <= j <= |steps|
    ensures Later(trace[i], trace[j])
    decreases j - i
  {
    if i < j {
      RunIsOrdered(c, steps, trace, i, j - 1);
      RunIsGood(c, steps, trace, j - 1);
      assert Moved(c, steps, trace, j - 1);
      StepIsLater(c, trace[j - 1], steps[j - 1]);
      LaterIsTransitive(trace[i], trace[j - 1], trace[j]);
    }
  }

  /** Every state of a run is reachable. */
  lemma PrefixIsReachable(c: Config, steps: seq<Step>, trace: seq<State>, j: nat)
    requires Run(c, steps, trace) && j <= |steps|
    ensures Reachable(c, trace[j])
  {
    var steps', trace' := steps[..j], trace[..j + 1];
    forall k | 0 <= k < j ensures Moved(c, steps', trace', k) {
      assert Moved(c, steps, trace, k);
    }
    assert Run(c, steps', trace');
  }

  lemma CommittedIsOld(c: Config, steps: seq<Step>, trace: seq<State>, i: nat, t: Tid)
    requires Run(c, steps, trace) && i <= |steps|
    requires t in trace[i].txs && trace[i].txs[t].phase.Committed?
    ensures trace[i].txs[t].wv <= trace[i].gv && (!trace[i].txs[t].readOnly ==> trace[i].txs[t].wv > 0)
  {
    RunIsGood(c, steps, trace, i);
    assert LocalOk(c, trace[i].txs[t]) && VersionsOk(trace[i], trace[i].txs[t]);
  }

  /** Commits stay in the history. */
  lemma {:induction false} HistoryGrows(c: Config, steps: seq<Step>, trace: seq<State>, i: nat, j: nat, u: int)
    requires Run(c, steps, trace) && i <= j <= |steps| && u in trace[i].hist
    ensures u in trace[j].hist && trace[j].hist[u] == trace[i].hist[u]
    decreases j - i
  {
    if i < j {
      HistoryGrows(c, steps, trace, i, j - 1, u);
      var s, step := trace[j - 1], steps[j - 1];
      assert Moved(c, steps, trace, j - 1);
      if step.SkipValidation? || step.FinishValidation? {
        RunIsGood(c, steps, trace, j - 1);
        assert LocalOk(c, s.txs[step.t]);
        CommitSteps.DecisionMoves(c, s, step);
        CommitSteps.DecisionIsNew(c, s, trace[j], step.t, NextTx(c, s, step));
      } else {
        HistoryStays(c, s, step);
      }
    }
  }

  // ---- real-time order

  /** At state `i`, `r` had committed and `t` had not begun. */
  ghost predicate EndedAt(trace: seq<State>, i: nat, r: Tid, t: Tid)
    requires i < |trace|
  {
    r in trace[i].txs && trace[i].txs[r].phase.Committed? && t !in trace[i].txs
  }

  /** The serial order: read-write transactions at their write version, read-only ones right after the
      commit of their read version. */
  ghost predicate SerialBefore(tx1: Tx, tx2: Tx) {
    if tx1.readOnly then
      if tx2.readOnly then tx1.rv <= tx2.rv else tx1.rv < tx2.wv
    else
      if tx2.readOnly then tx1.wv <= tx2.rv else tx1.wv < tx2.wv
  }

  /** Strictness: a transaction that committed before another one began precedes it in the serial order,
      whatever both are; the first one's version is at most the second's read version. */
  lemma RealTimeOrder(c: Config, steps: seq<Step>, trace: seq<State>, i: nat, j: nat, t1: Tid, t2: Tid)
    requires Run(c, steps, trace) && i <= j <= |steps|
    requires t1 in trace[i].txs && trace[i].txs[t1].phase.Committed?
    requires t2 !in trace[i].txs && t2 in trace[j].txs && trace[j].txs[t2].phase.Committed?
    ensures t1 in trace[j].txs && trace[j].txs[t1] == trace[i].txs[t1]
    ensures var tx1, tx2 := trace[j].txs[t1], trace[j].txs[t2];
      (if tx1.readOnly then tx1.rv else tx1.wv) <= tx2.rv && SerialBefore(tx1, tx2)
  {
    RunIsOrdered(c, steps, trace, i, j);
    RunIsGood(c, steps, trace, i);
    RunIsGood(c, steps, trace, j);
    OrderAt(c, trace[i], trace[j], t1, t2);
  }

  lemma OrderAt(c: Config, s0: State, s: State, t1: Tid, t2: Tid)
    requires LocalInv(c, s0) && VersionInv(s0) && LocalInv(c, s) && VersionInv(s) && Later(s0, s)
    requires t1 in s0.txs && s0.txs[t1].phase.Committed?
    requires t2 !in s0.txs && t2 in s.txs && s.txs[t2].phase.Committed?
    ensures t1 in s.txs && s.txs[t1] == s0.txs[t1]
    ensures (if s.txs[t1].readOnly then s.txs[t1].rv else s.txs[t1].wv) <= s.txs[t2].rv
    ensures SerialBefore(s.txs[t1], s.txs[t2])
  {
    assert Continues(s0.txs[t1], s.txs[t1]);
    assert VersionsOk(s0, s0.txs[t1]) && VersionsOk(s, s.txs[t2]) && LocalOk(c, s.txs[t2]);
  }

  // ---- roll back

  ghost predicate GivesBack(c: Config, s: State, t: Tid, l: nat, v: int)
    requires Enabled(c, s, RollBackLock(t))
  {
    && StepLock(s, RollBackLock(t)) == l && l < |s.locks| && s.locks[l] == v + 1
    && Apply(c, s, RollBackLock(t)).locks == s.locks[l := v]
  }

  /** Step `k` is `t` giving lock `l` back, turning `v + 1` into `v`. */
  ghost predicate GaveBackAt(steps: seq<Step>, trace: seq<State>, k: nat, t: Tid, l: nat, v: int)
    requires k < |steps| && |trace| == |steps| + 1
  {
    && steps[k] == RollBackLock(t) && l < |trace[k].locks|
    && trace[k].locks[l] == v + 1 && trace[k + 1].locks == trace[k].locks[l := v]
  }

  /** Some step between states `i` and `j` gave lock `l` back with value `v`. */
  ghost predicate GaveBack(steps: seq<Step>, trace: seq<State>, i: nat, j: nat, t: Tid, l: nat, v: int)
    requires j <= |steps| && |trace| == |steps| + 1
  {
    exists k :: i <= k < j && GaveBackAt(steps, trace, k, t, l, v)
  }

  ghost predicate StillHeld(tx: Tx, l: nat, v: int) {
    (l in tx.saved && tx.saved[l] == v) || tx.phase.Releasing? || tx.phase.Committed?
  }

  lemma SavedStays(c: Config, s: State, step: Step)
    requires Enabled(c, s, step) && step.t in s.txs && !step.CasLock? && !step.ReleaseLock? && !step.RollBackLock?
    ensures NextTx(c, s, step).saved == s.txs[step.t].saved
  {}

  lemma CasTakesFree(c: Config, s: State, t: Tid)
    requires LockInv(s) && EvenInv(s) && Enabled(c, s, CasLock(t)) && LocalOk(c, s.txs[t])
    requires NextTx(c, s, CasLock(t)).phase.Locking?
    ensures StepLock(s, CasLock(t)) !in s.owner
  {
    assert Ver(s, StepLock(s, CasLock(t))) % 2 == 0;
  }

  lemma CasAccounts(c: Config, s: State, t: Tid, l: nat)
    requires LockInv(s) && EvenInv(s) && Enabled(c, s, CasLock(t))
    requires LocalOk(c, s.txs[t]) && l in s.txs[t].saved
    ensures StillHeld(NextTx(c, s, CasLock(t)), l, s.txs[t].saved[l])
  {
    if NextTx(c, s, CasLock(t)).phase.Locking? {
      CasSucceeds(c, s, t);
      CasTakesFree(c, s, t);
    }
  }

  lemma OwnStepAccounts(c: Config, s: State, step: Step, l: nat)
    requires LockInv(s) && EvenInv(s) && Enabled(c, s, step)
    requires step.t in s.txs && LocalOk(c, s.txs[step.t]) && l in s.txs[step.t].saved
    ensures StillHeld(NextTx(c, s, step), l, s.txs[step.t].saved[l]) ||
      (step.RollBackLock? && NextTx(c, s, step).phase.RollingBack? && StepLock(s, step) == l)
  {
    if step.CasLock? {
      CasAccounts(c, s, step.t, l);
    } else if !step.ReleaseLock? && !step.RollBackLock? {
      SavedStays(c, s, step);
    }
  }

  lemma RollBackGives(c: Config, s: State, t: Tid, l: nat)
    requires LockInv(s) && Enabled(c, s, RollBackLock(t)) && t in s.txs && l in s.txs[t].saved
    requires StepLock(s, RollBackLock(t)) == l
    ensures GivesBack(c, s, t, l, s.txs[t].saved[l])
  {
    assert l in s.owner && s.txs[t].saved[l] == Ver(s, l);
  }

  lemma OthersStay(c: Config, s: State, step: Step, t: Tid)
    requires Enabled(c, s, step) && t in s.txs && step.t != t
    ensures t in Apply(c, s, step).txs && Apply(c, s, step).txs[t] == s.txs[t]
  {}

  lemma StepAccounts(c: Config, s: State, step: Step, t: Tid, l: nat)
    requires LockInv(s) && EvenInv(s) && Enabled(c, s, step)
    requires t in s.txs && LocalOk(c, s.txs[t]) && l in s.txs[t].saved
    ensures var tx' := Apply(c, s, step).txs[t];
      StillHeld(tx', l, s.txs[t].saved[l]) ||
      (step == RollBackLock(t) && tx'.phase.RollingBack? && GivesBack(c, s, t, l, s.txs[t].saved[l]))
  {
    if step.t == t {
      OwnStepAccounts(c, s, step, l);
      if step.RollBackLock? && StepLock(s, step) == l {
        RollBackGives(c, s, t, l);
      }
    } else {
      OthersStay(c, s, step, t);
    }
  }

  lemma EndedStays(c: Config, s: State, step: Step, t: Tid, l: nat, v: int)
    requires Enabled(c, s, step) && t in s.txs && LocalOk(c, s.txs[t])
    requires s.txs[t].phase.Releasing? || s.txs[t].phase.Committed?
    ensures StillHeld(Apply(c, s, step).txs[t], l, v)
  {}

  lemma RolledBackStays(c: Config, s: State, step: Step, t: Tid)
    requires Enabled(c, s, step) && t in s.txs && (s.txs[t].phase.RollingBack? || s.txs[t].phase.Aborted?)
    ensures var p := Apply(c, s, step).txs[t].phase; p.RollingBack? || p.Aborted?
  {}

  /** Lock `l` was held at state `i` with value `v` before acquisition. At state `j` it still is, or the
      transaction is committing, or it is rolling back and has given `v` back. */
  ghost predicate Accounted(steps: seq<Step>, trace: seq<State>, i: nat, j: nat, t: Tid, l: nat, v: int)
    requires j <= |steps| && |trace| == |steps| + 1
  {
    t in trace[j].txs &&
    var tx := trace[j].txs[t];
    StillHeld(tx, l, v) || ((tx.phase.RollingBack? || tx.phase.Aborted?) && GaveBack(steps, trace, i, j, t, l, v))
  }

  lemma {:induction false} LocksAreAccountedFor(c: Config, steps: seq<Step>, trace: seq<State>, i: nat, j: nat,
                                                t: Tid, l: nat)
    requires Run(c, steps, trace) && i <= j <= |steps| && t in trace[i].txs && l in trace[i].txs[t].saved
    ensures Accounted(steps, trace, i, j, t, l, trace[i].txs[t].saved[l])
    decreases j - i
  {
    if i < j {
      LocksAreAccountedFor(c, steps, trace, i, j - 1, t, l);
      AccountOnce(c, steps, trace, i, j - 1, t, l, trace[i].txs[t].saved[l]);
    }
  }

  lemma LocksAreGood(c: Config, steps: seq<Step>, trace: seq<State>, j: nat, t: Tid)
    requires Run(c, steps, trace) && j <= |steps| && t in trace[j].txs
    ensures LocalOk(c, trace[j].txs[t]) && LockInv(trace[j]) && EvenInv(trace[j])
  {
    RunIsGood(c, steps, trace, j);
  }

  lemma AccountOnce(c: Config, steps: seq<Step>, trace: seq<State>, i: nat, j: nat, t: Tid, l: nat, v: int)
    requires Run(c, steps, trace) && i <= j < |steps| && Accounted(steps, trace, i, j, t, l, v)
    ensures Accounted(steps, trace, i, j + 1, t, l, v)
  {
    var s := trace[j];
    var tx := s.txs[t];
    assert Moved(c, steps, trace, j);
    LocksAreGood(c, steps, trace, j, t);
    if l in tx.saved && tx.saved[l] == v {
      StepAccounts(c, s, steps[j], t, l);
      if !StillHeld(trace[j + 1].txs[t], l, v) {
        assert GaveBackAt(steps, trace, j, t, l, v);
      }
    } else if tx.phase.Releasing? || tx.phase.Committed? {
      EndedStays(c, s, steps[j], t, l, v);
    } else {
      var k :| i <= k < j && GaveBackAt(steps, trace, k, t, l, v);
      RolledBackStays(c, s, steps[j], t);
    }
  }

  /** Exact rollback: a lock held at some point by a transaction that has aborted in the end was given
      back with exactly the value it had before it was taken. An aborted transaction holds no lock. */
  lemma RollbackIsExact(c: Config, steps: seq<Step>, trace: seq<State>, i: nat, j: nat, t: Tid, l: nat)
    requires Run(c, steps, trace) && i <= j <= |steps| && t in trace[i].txs && l in trace[i].txs[t].saved
    requires t in trace[j].txs && trace[j].txs[t].phase.Aborted?
    ensures GaveBack(steps, trace, i, j, t, l, trace[i].txs[t].saved[l])
    ensures trace[j].txs[t].saved == map[]
  {
    LocksAreAccountedFor(c, steps, trace, i, j, t, l);
    LocksAreGood(c, steps, trace, j, t);
  }

  // ---- commit

  /** Step `k` is `t` storing version `v` into lock `l`. */
  ghost predicate StoredAt(steps: seq<Step>, trace: seq<State>, k: nat, t: Tid, l: nat, v: int)
    requires k < |steps| && |trace| == |steps| + 1
  {
    steps[k] == ReleaseLock(t) && l < |trace[k].locks| && trace[k + 1].locks == trace[k].locks[l := v]
  }

  ghost predicate Stored(steps: seq<Step>, trace: seq<State>, i: nat, j: nat, t: Tid, l: nat, v: int)
    requires j <= |steps| && |trace| == |steps| + 1
  {
    exists k :: i <= k < j && StoredAt(steps, trace, k, t, l, v)
  }

  /** Lock `l` is held, or has got the write version, or the transaction has failed. */
  ghost predicate HeldOrStored(steps: seq<Step>, trace: seq<State>, i: nat, j: nat, t: Tid, l: nat)
    requires j <= |steps| && |trace| == |steps| + 1
  {
    t in trace[j].txs &&
    var tx := trace[j].txs[t];
    l in tx.saved || tx.phase.RollingBack? || tx.phase.Aborted? ||
    ((tx.phase.Releasing? || tx.phase.Committed?) && tx.wv > 0 && Stored(steps, trace, i, j, t, l, tx.wv))
  }

  lemma StepHoldsOrStores(c: Config, s: State, step: Step, t: Tid, l: nat)
    requires Enabled(c, s, step) && t in s.txs && LocalOk(c, s.txs[t]) && l in s.txs[t].saved
    ensures var s' := Apply(c, s, step);
      var tx' := s'.txs[t];
      || l in tx'.saved || tx'.phase.RollingBack?
      || (step == ReleaseLock(t) && tx'.phase.Releasing? && tx'.wv > 0 && l < |s.locks|
          && s'.locks == s.locks[l := tx'.wv])
  {
    if step.t != t {
      OthersStay(c, s, step, t);
    } else if !step.CasLock? && !step.ReleaseLock? && !step.RollBackLock? {
      SavedStays(c, s, step);
    }
  }

  lemma {:induction false} CommitStoresAt(c: Config, steps: seq<Step>, trace: seq<State>, i: nat, j: nat, t: Tid,
                                          l: nat)
    requires Run(c, steps, trace) && i <= j <= |steps| && t in trace[i].txs && l in trace[i].txs[t].saved
    ensures HeldOrStored(steps, trace, i, j, t, l)
    decreases j - i
  {
    if i < j {
      CommitStoresAt(c, steps, trace, i, j - 1, t, l);
      assert Moved(c, steps, trace, j - 1);
      LocksAreGood(c, steps, trace, j - 1, t);
      StoresOnce(c, steps, trace, i, j - 1, t, l);
    }
  }

  lemma StoresOnce(c: Config, steps: seq<Step>, trace: seq<State>, i: nat, j: nat, t: Tid, l: nat)
    requires Run(c, steps, trace) && i <= j < |steps| && HeldOrStored(steps, trace, i, j, t, l)
    requires Moved(c, steps, trace, j) && LocalOk(c, trace[j].txs[t])
    ensures HeldOrStored(steps, trace, i, j + 1, t, l)
  {
    var s, tx := trace[j], trace[j].txs[t];
    if l in tx.saved {
      StepHoldsOrStores(c, s, steps[j], t, l);
      if l !in trace[j + 1].txs[t].saved && !trace[j + 1].txs[t].phase.RollingBack? {
        assert StoredAt(steps, trace, j, t, l, trace[j + 1].txs[t].wv);
      }
    } else if tx.phase.RollingBack? || tx.phase.Aborted? {
      RolledBackStays(c, s, steps[j], t);
    } else {
      var k :| i <= k < j && StoredAt(steps, trace, k, t, l, tx.wv);
      EndingStays(c, s, steps[j], t);
    }
  }

  lemma EndingStays(c: Config, s: State, step: Step, t: Tid)
    requires Enabled(c, s, step) && t in s.txs && (s.txs[t].phase.Releasing? || s.txs[t].phase.Committed?)
    ensures var tx' := Apply(c, s, step).txs[t];
      (tx'.phase.Releasing? || tx'.phase.Committed?) && tx'.wv == s.txs[t].wv
  {}

  /** A lock held at some point by a read-write transaction that has committed in the end got its write version
      in between. */
  lemma CommitStoresVersion(c: Config, steps: seq<Step>, trace: seq<State>, i: nat, j: nat, t: Tid, l: nat)
    requires Run(c, steps, trace) && i <= j <= |steps| && t in trace[i].txs && l in trace[i].txs[t].saved
    requires t in trace[j].txs && trace[j].txs[t].phase.Committed?
    ensures Stored(steps, trace, i, j, t, l, trace[j].txs[t].wv)
  {
    CommitStoresAt(c, steps, trace, i, j, t, l);
    LocksAreGood(c, steps, trace, j, t);
  }

  // ---- each lock is taken once and given back once

  /** `lock_release` is called on no lock but the caller's own: the lock is held, with the saved value plus the
      lock bit, and after it no longer. */
  lemma ReleasesOwnLock(c: Config, s: State, t: Tid)
    requires Reachable(c, s) && Enabled(c, s, RollBackLock(t))
    ensures var l, s' := StepLock(s, RollBackLock(t)), Apply(c, s, RollBackLock(t));
      && l in s.txs[t].saved && s.locks[l] == s.txs[t].saved[l] + 1
      && s'.locks == s.locks[l := s.txs[t].saved[l]] && l !in s'.txs[t].saved
  {
    ReachableGood(c, s);
    assert LocalOk(c, s.txs[t]);
    RollBackMoves(c, s, t);
    RollBackGives(c, s, t, StepLock(s, RollBackLock(t)));
  }

  /** Step `k` is `t` taking lock `l`, turning `v` into `v + 1`. */
  ghost predicate TookAt(steps: seq<Step>, trace: seq<State>, k: nat, t: Tid, l: nat, v: int)
    requires k < |steps| && |trace| == |steps| + 1
  {
    && steps[k] == CasLock(t) && l < |trace[k].locks|
    && trace[k].locks[l] == v && trace[k + 1].locks == trace[k].locks[l := v + 1]
  }

  /** A lock enters what a transaction holds only by its compare-and-swap. */
  lemma NewlySaved(c: Config, s: State, step: Step, t: Tid, l: nat)
    requires Enabled(c, s, step) && t in Apply(c, s, step).txs && l in Apply(c, s, step).txs[t].saved
    requires t in s.txs && l in s.txs[t].saved ==> s.txs[t].saved[l] != Apply(c, s, step).txs[t].saved[l]
    ensures var v := Apply(c, s, step).txs[t].saved[l];
      step == CasLock(t) && l < |s.locks| && s.locks[l] == v && Apply(c, s, step).locks == s.locks[l := v + 1]
  {
    if t in s.txs && step.t != t {
      OthersStay(c, s, step, t);
    } else if t in s.txs && !step.CasLock? && !step.ReleaseLock? && !step.RollBackLock? {
      SavedStays(c, s, step);
    } else if t in s.txs && !step.CasLock? {
      SavedShrinks(c, s, step);
    }
  }

  lemma SavedShrinks(c: Config, s: State, step: Step)
    requires Enabled(c, s, step) && (step.ReleaseLock? || step.RollBackLock?)
    ensures forall l :: l in NextTx(c, s, step).saved ==>
      l in s.txs[step.t].saved && NextTx(c, s, step).saved[l] == s.txs[step.t].saved[l]
  {}

  lemma {:induction false} SavedWasTaken(c: Config, steps: seq<Step>, trace: seq<State>, j: nat, t: Tid, l: nat)
    requires Run(c, steps, trace) && j <= |steps| && t in trace[j].txs && l in trace[j].txs[t].saved
    ensures exists i :: 0 <= i < j && TookAt(steps, trace, i, t, l, trace[j].txs[t].saved[l])
  {
    assert j > 0;
    var s, v := trace[j - 1], trace[j].txs[t].saved[l];
    assert Moved(c, steps, trace, j - 1);
    if t in s.txs && l in s.txs[t].saved && s.txs[t].saved[l] == v {
      SavedWasTaken(c, steps, trace, j - 1, t, l);
      var i :| 0 <= i < j - 1 && TookAt(steps, trace, i, t, l, v);
    } else {
      NewlySaved(c, s, steps[j - 1], t, l);
      assert TookAt(steps, trace, j - 1, t, l, v);
    }
  }

  /** The transaction is past taking lock `l`. */
  ghost predicate PastTaking(tx: Tx, l: nat) {
    match tx.phase
    case Running => false
    case Checked(_) => false
    case Rechecked(_) => false
    case Locking(order, i) => i <= |order| && l in order[..i]
    case Acquiring(order, i, _) => i <= |order| && l in order[..i]
    case _ => true
  }

  /** The transaction is past giving lock `l` back. */
  ghost predicate PastReturning(tx: Tx, l: nat) {
    match tx.phase
    case RollingBack(order, i, _) => i <= |order| && l in order[..i]
    case Aborted => true
    case _ => false
  }

  ghost predicate Takes(c: Config, s: State, step: Step, t: Tid, l: nat)
    requires Enabled(c, s, step)
  {
    step == CasLock(t) && l < |s.locks| && Apply(c, s, step).locks == s.locks[l := s.locks[l] + 1]
  }

  ghost predicate Returns(c: Config, s: State, step: Step, t: Tid, l: nat)
    requires Enabled(c, s, step)
  {
    step == RollBackLock(t) && l < |s.locks| && Apply(c, s, step).locks == s.locks[l := s.locks[l] - 1]
  }

  lemma OnePast(order: seq<nat>, i: nat, l: nat)
    requires i < |order|
    ensures l in order[..i + 1] <==> l in order[..i] || l == order[i]
  {
    assert order[..i + 1] == order[..i] + [order[i]];
  }

  /** Once past taking a lock, always past it; and not taking it again. */
  lemma TakingEnds(c: Config, s: State, step: Step, t: Tid, l: nat)
    requires Enabled(c, s, step) && t in s.txs && LocalOk(c, s.txs[t])
    ensures PastTaking(s.txs[t], l) ==> !Takes(c, s, step, t, l) && PastTaking(Apply(c, s, step).txs[t], l)
    ensures Takes(c, s, step, t, l) ==> PastTaking(Apply(c, s, step).txs[t], l)
  {
    if step.t != t {
      OthersStay(c, s, step, t);
    } else if step.CasLock? {
      TakesOne(c, s, t, l);
    } else {
      PastTakingStays(c, s, step, l);
    }
  }

  lemma TakesOne(c: Config, s: State, t: Tid, l: nat)
    requires Enabled(c, s, CasLock(t)) && t in s.txs && LocalOk(c, s.txs[t])
    ensures PastTaking(s.txs[t], l) ==>
      !Takes(c, s, CasLock(t), t, l) && PastTaking(Apply(c, s, CasLock(t)).txs[t], l)
    ensures Takes(c, s, CasLock(t), t, l) ==> PastTaking(Apply(c, s, CasLock(t)).txs[t], l)
  {
    var p := s.txs[t].phase;
    OnePast(p.order, p.i, l);
    if Takes(c, s, CasLock(t), t, l) {
      assert Apply(c, s, CasLock(t)).locks[l] == s.locks[l] + 1;
    }
  }

  lemma PastTakingStays(c: Config, s: State, step: Step, l: nat)
    requires Enabled(c, s, step) && step.t in s.txs && !step.CasLock?
    ensures PastTaking(s.txs[step.t], l) ==> PastTaking(NextTx(c, s, step), l)
  {}

  lemma ReturningEnds(c: Config, s: State, step: Step, t: Tid, l: nat)
    requires Enabled(c, s, step) && t in s.txs && LocalOk(c, s.txs[t])
    ensures PastReturning(s.txs[t], l) ==> !Returns(c, s, step, t, l) && PastReturning(Apply(c, s, step).txs[t], l)
    ensures Returns(c, s, step, t, l) ==> PastReturning(Apply(c, s, step).txs[t], l)
  {
    if step.t != t {
      OthersStay(c, s, step, t);
    } else if step.RollBackLock? {
      ReturnsOne(c, s, t, l);
    }
  }

  lemma ReturnsOne(c: Config, s: State, t: Tid, l: nat)
    requires Enabled(c, s, RollBackLock(t)) && t in s.txs && LocalOk(c, s.txs[t])
    ensures PastReturning(s.txs[t], l) ==>
      !Returns(c, s, RollBackLock(t), t, l) && PastReturning(Apply(c, s, RollBackLock(t)).txs[t], l)
    ensures Returns(c, s, RollBackLock(t), t, l) ==> PastReturning(Apply(c, s, RollBackLock(t)).txs[t], l)
  {
    var p := s.txs[t].phase;
    OnePast(p.order, p.i, l);
    if Returns(c, s, RollBackLock(t), t, l) {
      assert Apply(c, s, RollBackLock(t)).locks[l] == s.locks[l] - 1;
    }
  }

  lemma {:induction false} PastStays(c: Config, steps: seq<Step>, trace: seq<State>, i: nat, j: nat, t: Tid, l: nat)
    requires Run(c, steps, trace) && i <= j <= |steps| && t in trace[i].txs
    ensures t in trace[j].txs
    ensures PastTaking(trace[i].txs[t], l) ==> PastTaking(trace[j].txs[t], l)
    ensures PastReturning(trace[i].txs[t], l) ==> PastReturning(trace[j].txs[t], l)
    decreases j - i
  {
    if i < j {
      PastStays(c, steps, trace, i, j - 1, t, l);
      assert Moved(c, steps, trace, j - 1);
      LocksAreGood(c, steps, trace, j - 1, t);
      TakingEnds(c, trace[j - 1], steps[j - 1], t, l);
      ReturningEnds(c, trace[j - 1], steps[j - 1], t, l);
    }
  }

  lemma TakingPasses(c: Config, steps: seq<Step>, trace: seq<State>, i: nat, t: Tid, l: nat, v: int)
    requires Run(c, steps, trace) && i < |steps| && TookAt(steps, trace, i, t, l, v)
    ensures t in trace[i].txs && !PastTaking(trace[i].txs[t], l)
    ensures t in trace[i + 1].txs && PastTaking(trace[i + 1].txs[t], l)
  {
    assert Moved(c, steps, trace, i);
    LocksAreGood(c, steps, trace, i, t);
    TakingEnds(c, trace[i], steps[i], t, l);
  }

  lemma ReturningPasses(c: Config, steps: seq<Step>, trace: seq<State>, i: nat, t: Tid, l: nat, v: int)
    requires Run(c, steps, trace) && i < |steps| && GaveBackAt(steps, trace, i, t, l, v)
    ensures t in trace[i].txs && !PastReturning(trace[i].txs[t], l)
    ensures t in trace[i + 1].txs && PastReturning(trace[i + 1].txs[t], l)
  {
    assert Moved(c, steps, trace, i);
    LocksAreGood(c, steps, trace, i, t);
    ReturningEnds(c, trace[i], steps[i], t, l);
  }

  lemma TakenOnce(c: Config, steps: seq<Step>, trace: seq<State>, i: nat, j: nat, t: Tid, l: nat, v: int, w: int)
    requires Run(c, steps, trace) && i <= j < |steps|
    requires TookAt(steps, trace, i, t, l, v) && TookAt(steps, trace, j, t, l, w)
    ensures i == j
  {
    if i < j {
      TakingPasses(c, steps, trace, i, t, l, v);
      PastStays(c, steps, trace, i + 1, j, t, l);
      TakingPasses(c, steps, trace, j, t, l, w);
    }
  }

  lemma GivenBackOnce(c: Config, steps: seq<Step>, trace: seq<State>, i: nat, j: nat, t: Tid, l: nat, v: int, w: int)
    requires Run(c, steps, trace) && i <= j < |steps|
    requires GaveBackAt(steps, trace, i, t, l, v) && GaveBackAt(steps, trace, j, t, l, w)
    ensures i == j
  {
    if i < j {
      ReturningPasses(c, steps, trace, i, t, l, v);
      PastStays(c, steps, trace, i + 1, j, t, l);
      ReturningPasses(c, steps, trace, j, t, l, w);
    }
  }

  /** Every step that gives a lock back undoes exactly one earlier step that took it, by the same transaction and
      with the same value; and no other step gives it back. */
  lemma ReleaseUndoesOneTake(c: Config, steps: seq<Step>, trace: seq<State>, k: nat, t: Tid) returns (i: nat)
    requires Run(c, steps, trace) && k < |steps| && steps[k] == RollBackLock(t)
    requires Enabled(c, trace[k], RollBackLock(t))
    ensures var l := StepLock(trace[k], RollBackLock(t));
      var v := trace[k].locks[l] - 1;
      && i < k && TookAt(steps, trace, i, t, l, v) && GaveBackAt(steps, trace, k, t, l, v)
      && (forall i', w :: 0 <= i' < |steps| && TookAt(steps, trace, i', t, l, w) ==> i' == i)
      && (forall k', w :: 0 <= k' < |steps| && GaveBackAt(steps, trace, k', t, l, w) ==> k' == k)
  {
    var l := StepLock(trace[k], RollBackLock(t));
    var v := trace[k].locks[l] - 1;
    assert Moved(c, steps, trace, k);
    PrefixIsReachable(c, steps, trace, k);
    ReleasesOwnLock(c, trace[k], t);
    SavedWasTaken(c, steps, trace, k, t, l);
    i :| 0 <= i < k && TookAt(steps, trace, i, t, l, v);
    forall i', w | 0 <= i' < |steps| && TookAt(steps, trace, i', t, l, w) ensures i' == i {
      if i' <= i {
        TakenOnce(c, steps, trace, i', i, t, l, w, v);
      } else {
        TakenOnce(c, steps, trace, i, i', t, l, v, w);
      }
    }
    forall k', w | 0 <= k' < |steps| && GaveBackAt(steps, trace, k', t, l, w) ensures k' == k {
      if k' <= k {
        GivenBackOnce(c, steps, trace, k', k, t, l, w, v);
      } else {
        GivenBackOnce(c, steps, trace, k, k', t, l, v, w);
      }
    }
  }
}
