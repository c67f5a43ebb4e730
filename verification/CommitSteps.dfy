/** The commit decision and the copies after it keep the invariant; with them every step does. */
module CommitSteps {
  import opened Protocol
  import opened Replay
  import opened ProtocolInvariant

  // ---- the decision

  /** Transaction `t` leaves validation and enters the history under its write version. */
  ghost predicate Decides(c: Config, s: State, s': State, t: Tid, tx': Tx) {
    && t in s.txs && s'.txs == s.txs[t := tx'] && s'.gv == s.gv
    && s'.locks == s.locks && s'.mem == s.mem && s'.owner == s.owner
    && s'.hist == s.hist[tx'.wv := Commit(t, tx'.writes)]
    && tx'.wv == s.txs[t].wv > 0 && tx'.rv == s.txs[t].rv && tx'.saved == s.txs[t].saved
    && tx'.readSet == s.txs[t].readSet && tx'.obs == s.txs[t].obs && tx'.writes == s.txs[t].writes
    && (forall x :: x in tx'.readSet ==> Confirmed(s.txs[t], x))
    && (forall x :: x in tx'.writes ==> c.LockOf(x) in tx'.saved)
    && !Decided(s.txs[t]) && tx'.phase.Publishing? && tx'.phase.k == 0 && LocalOk(c, tx')
  }

  lemma DecisionMoves(c: Config, s: State, step: Step)
    requires Enabled(c, s, step) && (step.SkipValidation? || step.FinishValidation?) && LocalOk(c, s.txs[step.t])
    ensures Decides(c, s, Apply(c, s, step), step.t, NextTx(c, s, step))
  {
    var tx := s.txs[step.t];
    if step.FinishValidation? {
      assert tx.phase.rs[..tx.phase.j] == tx.phase.rs;
      forall x | x in tx.readSet ensures x in tx.phase.rs {
        assert x in Elems(tx.phase.rs);
      }
    }
    forall x | x in tx.writes ensures c.LockOf(x) in tx.saved {
      WriteLockIsHeld(c, tx, x);
    }
  }

  lemma DecisionIsNew(c: Config, s: State, s': State, t: Tid, tx': Tx)
    requires VersionInv(s) && HistInv(s) && Decides(c, s, s', t, tx')
    ensures tx'.wv !in s.hist
  {}

  lemma DecisionKeepsHistory(c: Config, s: State, s': State, t: Tid, tx': Tx)
    requires LockInv(s) && HistInv(s) && VersionInv(s) && LockInv(s') && Decides(c, s, s', t, tx')
    ensures HistInv(s')
  {
    DecisionIsNew(c, s, s', t, tx');
  }

  lemma DecisionKeepsWritten(c: Config, s: State, s': State, t: Tid, tx': Tx)
    requires LockInv(s) && HistInv(s) && WrittenInv(c, s) && LockInv(s') && HistInv(s') && Decides(c, s, s', t, tx')
    ensures WrittenInv(c, s')
  {
    forall u, x | u in s'.hist && x in s'.hist[u].writes
      ensures u <= Ver(s', c.LockOf(x)) || c.LockOf(x) in s'.txs[s'.hist[u].tid].saved
    {
      assert Ver(s', c.LockOf(x)) == Ver(s, c.LockOf(x));
      if u != tx'.wv {
        assert u <= Ver(s, c.LockOf(x)) || c.LockOf(x) in s.txs[s.hist[u].tid].saved;
      }
    }
  }

  /** While `t` holds the lock of `x`, nobody at or after its version has written `x`. */
  lemma HeldIsOld(c: Config, s: State, t: Tid, x: Addr)
    requires LockInv(s) && HistInv(s) && WrittenInv(c, s)
    requires t in s.txs && c.LockOf(x) in s.txs[t].saved && s.txs[t].wv > 0
    ensures forall u :: u in s.hist && x in s.hist[u].writes && u >= s.txs[t].wv ==>
      u == s.txs[t].wv && Decided(s.txs[t])
  {
    forall u | u in s.hist && x in s.hist[u].writes && u >= s.txs[t].wv
      ensures u == s.txs[t].wv && Decided(s.txs[t])
    {
      var l := c.LockOf(x);
      assert u <= Ver(s, l) || l in s.txs[s.hist[u].tid].saved;
      assert s.owner[l] == t && s.txs[t].saved[l] == Ver(s, l) < s.txs[t].wv;
    }
  }

  lemma OwnWordIsOld(c: Config, s: State, t: Tid, x: Addr)
    requires LockInv(s) && HistInv(s) && WrittenInv(c, s) && VersionInv(s)
    requires t in s.txs && c.LockOf(x) in s.txs[t].saved && s.txs[t].wv > 0 && !Decided(s.txs[t])
    ensures Val(s.hist, s.txs[t].wv - 1, x) == Val(s.hist, s.gv, x)
  {
    assert VersionsOk(s, s.txs[t]);
    HeldIsOld(c, s, t, x);
    ValSkips(s.hist, s.txs[t].wv - 1, s.gv, x);
  }

  /** Before the decision the transaction's own words are fully replayed; after it they are pending. */
  lemma DecisionTurnsPending(c: Config, s: State, s': State, t: Tid, tx': Tx, x: Addr)
    requires LockInv(s) && LockInv(s') && Decides(c, s, s', t, tx') && x in tx'.writes
    ensures c.LockOf(x) in s.txs[t].saved && Current(c, s, x) == Val(s.hist, s.gv, x)
    ensures Current(c, s', x) == Val(s'.hist, tx'.wv - 1, x)
  {
    assert c.LockOf(x) in s.txs[t].saved && s.owner[c.LockOf(x)] == t;
    assert tx'.phase.ws[..tx'.phase.k] == [];
    assert !Pending(s.txs[t], x) && Pending(tx', x);
  }

  lemma DecisionKeepsOwnWord(c: Config, s: State, s': State, t: Tid, tx': Tx, x: Addr)
    requires LockInv(s) && HistInv(s) && WrittenInv(c, s) && VersionInv(s) && Get(s.mem, x) == Current(c, s, x)
    requires LockInv(s') && Decides(c, s, s', t, tx') && x in tx'.writes
    ensures Get(s'.mem, x) == Current(c, s', x)
  {
    DecisionTurnsPending(c, s, s', t, tx', x);
    OwnWordIsOld(c, s, t, x);
    ValExtends(s.hist, tx'.wv, Commit(t, tx'.writes), tx'.wv - 1, x);
  }

  lemma DecisionKeepsOtherWord(c: Config, s: State, s': State, t: Tid, tx': Tx, x: Addr)
    requires LockInv(s) && Get(s.mem, x) == Current(c, s, x) && tx'.wv !in s.hist
    requires LockInv(s') && Decides(c, s, s', t, tx') && x !in tx'.writes
    ensures Get(s'.mem, x) == Current(c, s', x)
  {
    var e, l := Commit(t, tx'.writes), c.LockOf(x);
    ValExtends(s.hist, tx'.wv, e, s.gv, x);
    if l in s.owner {
      ValExtends(s.hist, tx'.wv, e, s.txs[s.owner[l]].wv - 1, x);
    }
  }

  lemma DecisionKeepsMemAt(c: Config, s: State, s': State, t: Tid, tx': Tx, x: Addr)
    requires LockInv(s) && HistInv(s) && WrittenInv(c, s) && VersionInv(s) && Get(s.mem, x) == Current(c, s, x)
    requires LockInv(s') && Decides(c, s, s', t, tx')
    ensures Get(s'.mem, x) == Current(c, s', x)
  {
    if x in tx'.writes {
      DecisionKeepsOwnWord(c, s, s', t, tx', x);
    } else {
      DecisionIsNew(c, s, s', t, tx');
      DecisionKeepsOtherWord(c, s, s', t, tx', x);
    }
  }

  lemma DecisionKeepsMem(c: Config, s: State, s': State, t: Tid, tx': Tx)
    requires LockInv(s) && HistInv(s) && WrittenInv(c, s) && MemInv(c, s) && VersionInv(s)
    requires LockInv(s') && Decides(c, s, s', t, tx')
    ensures MemInv(c, s')
  {
    forall x ensures Get(s'.mem, x) == Current(c, s', x) {
      assert Get(s.mem, x) == Current(c, s, x);
      DecisionKeepsMemAt(c, s, s', t, tx', x);
    }
  }

  lemma DecisionKeepsSeen(c: Config, s: State, s': State, t: Tid, tx': Tx)
    requires LockInv(s) && SeenInv(c, s) && LockInv(s') && Decides(c, s, s', t, tx')
    ensures SeenInv(c, s')
  {
    forall t1, x | t1 in s'.txs && x in s'.txs[t1].readSet ensures SeenOk(c, s', s'.txs[t1].rv, x) {
      assert x in s.txs[t1].readSet && SeenOk(c, s, s.txs[t1].rv, x);
    }
  }

  /** The new commit is invisible at the read version of everyone who saw one of its words free. */
  lemma DecisionKeepsSnapshots(c: Config, s: State, s': State, t: Tid, tx': Tx, rv: int, x: Addr)
    requires LockInv(s) && HistInv(s) && VersionInv(s) && Decides(c, s, s', t, tx') && SeenOk(c, s, rv, x)
    ensures Val(s'.hist, rv, x) == Val(s.hist, rv, x)
    ensures x in tx'.writes ==> rv < tx'.wv
  {
    DecisionIsNew(c, s, s', t, tx');
    if x in tx'.writes {
      assert c.LockOf(x) in s.txs[t].saved;
    }
    ValExtends(s.hist, tx'.wv, Commit(t, tx'.writes), rv, x);
  }

  lemma DecisionKeepsObs(c: Config, s: State, s': State, t: Tid, tx': Tx)
    requires LocalInv(c, s) && LockInv(s) && HistInv(s) && VersionInv(s) && SeenInv(c, s) && ObsInv(c, s)
    requires LockInv(s') && Decides(c, s, s', t, tx')
    ensures ObsInv(c, s')
  {
    forall t1, p | t1 in s'.txs && p in s'.txs[t1].obs ensures ObsOk(c, s', s'.txs[t1].rv, p.0, p.1) {
      assert p in s.txs[t1].obs && LocalOk(c, s.txs[t1]);
      assert SeenOk(c, s, s.txs[t1].rv, p.0) && ObsOk(c, s, s.txs[t1].rv, p.0, p.1);
      DecisionKeepsSnapshots(c, s, s', t, tx', s.txs[t1].rv, p.0);
      if Tainted(c, s, s.txs[t1].rv, p.0) {
        assert Tainted(c, s', s.txs[t1].rv, p.0);
      }
    }
  }

  lemma DecisionKeepsConfirmed(c: Config, s: State, s': State, t: Tid, tx': Tx, t1: Tid, x: Addr)
    requires LockInv(s) && HistInv(s) && VersionInv(s) && SeenInv(c, s) && ConfirmedInv(c, s)
    requires LockInv(s') && Decides(c, s, s', t, tx') && t1 in s'.txs && Confirmed(s'.txs[t1], x)
    ensures ConfirmedOk(c, s', t1, s'.txs[t1], x)
  {
    assert Confirmed(s.txs[t1], x) && x in s.txs[t1].readSet;
    assert ConfirmedOk(c, s, t1, s.txs[t1], x) && SeenOk(c, s, s.txs[t1].rv, x);
    DecisionKeepsSnapshots(c, s, s', t, tx', s.txs[t1].rv, x);
    DecisionKeepsQuiet(c, s, s', t, tx', t1, x);
  }

  /** The new commit writes nothing that another transaction relies on up to its write version. */
  lemma DecisionKeepsQuiet(c: Config, s: State, s': State, t: Tid, tx': Tx, t1: Tid, x: Addr)
    requires LockInv(s) && VersionInv(s) && Decides(c, s, s', t, tx') && t1 in s'.txs
    requires t1 in s.txs && ConfirmedOk(c, s, t1, s.txs[t1], x)
    ensures NotWritten(s'.hist, s'.txs[t1].rv, s'.txs[t1].wv - 1, x)
  {
    assert x in tx'.writes ==> c.LockOf(x) in s.txs[t].saved;
  }

  lemma DecisionKeepsInv(c: Config, s: State, s': State, t: Tid, tx': Tx)
    requires Inv(c, s) && Decides(c, s, s', t, tx')
    ensures Inv(c, s')
  {
    LocalKeepsVersions(c, s, s', t, tx');
    LocalKeepsLocks(s, s', t, tx');
    LocalKeepsEven(s, s', t, tx');
    DecisionKeepsHistory(c, s, s', t, tx');
    DecisionKeepsWritten(c, s, s', t, tx');
    DecisionKeepsMem(c, s, s', t, tx');
    DecisionKeepsSeen(c, s, s', t, tx');
    DecisionKeepsObs(c, s, s', t, tx');
    forall t1, x | t1 in s'.txs && Confirmed(s'.txs[t1], x) ensures ConfirmedOk(c, s', t1, s'.txs[t1], x) {
      DecisionKeepsConfirmed(c, s, s', t, tx', t1, x);
    }
  }

  // ---- publishing

  /** Transaction `t` copies its value of word `x` into shared memory. */
  ghost predicate Publishes(c: Config, s: State, s': State, t: Tid, tx': Tx, x: Addr) {
    && t in s.txs && s'.txs == s.txs[t := tx'] && s'.gv == s.gv
    && s'.locks == s.locks && s'.hist == s.hist && s'.owner == s.owner
    && x in tx'.writes && s'.mem == s.mem[x := tx'.writes[x]]
    && tx'.wv == s.txs[t].wv > 0 && tx'.rv == s.txs[t].rv && tx'.saved == s.txs[t].saved
    && tx'.readSet == s.txs[t].readSet && tx'.obs == s.txs[t].obs && tx'.writes == s.txs[t].writes
    && s.txs[t].phase.Publishing? && tx'.phase.Publishing? && LocalOk(c, tx')
    && (forall y :: Pending(tx', y) <==> Pending(s.txs[t], y) && y != x)
    && (forall y :: y in tx'.writes ==> c.LockOf(y) in tx'.saved)
  }

  lemma PublishMoves(c: Config, s: State, t: Tid)
    requires Enabled(c, s, PublishWord(t)) && LocalOk(c, s.txs[t])
    ensures Publishes(c, s, Apply(c, s, PublishWord(t)), t, NextTx(c, s, PublishWord(t)),
                      s.txs[t].phase.ws[s.txs[t].phase.k])
  {
    var tx := s.txs[t];
    assert tx.phase.ws[..tx.phase.k + 1] == tx.phase.ws[..tx.phase.k] + [tx.phase.ws[tx.phase.k]];
    forall x | x in tx.writes ensures c.LockOf(x) in tx.saved {
      WriteLockIsHeld(c, tx, x);
    }
  }

  lemma PublishKeepsHist(c: Config, s: State, s': State, t: Tid, tx': Tx, x: Addr)
    requires HistInv(s) && Publishes(c, s, s', t, tx', x)
    ensures HistInv(s')
  {}

  lemma PublishKeepsWritten(c: Config, s: State, s': State, t: Tid, tx': Tx, x: Addr)
    requires LockInv(s) && HistInv(s) && WrittenInv(c, s)
    requires Publishes(c, s, s', t, tx', x) && LockInv(s') && HistInv(s')
    ensures WrittenInv(c, s')
  {
    forall u, y | u in s'.hist && y in s'.hist[u].writes
      ensures u <= Ver(s', c.LockOf(y)) || c.LockOf(y) in s'.txs[s'.hist[u].tid].saved
    {
      assert u <= Ver(s, c.LockOf(y)) || c.LockOf(y) in s.txs[s.hist[u].tid].saved;
      assert Ver(s', c.LockOf(y)) == Ver(s, c.LockOf(y));
    }
  }

  lemma PublishedIsReplayed(c: Config, s: State, s': State, t: Tid, tx': Tx, x: Addr)
    requires LockInv(s) && HistInv(s) && WrittenInv(c, s) && VersionInv(s) && Publishes(c, s, s', t, tx', x)
    ensures tx'.writes[x] == Val(s.hist, s.gv, x)
  {
    assert VersionsOk(s, s.txs[t]) && c.LockOf(x) in s.txs[t].saved;
    HeldIsOld(c, s, t, x);
    ValSkips(s.hist, tx'.wv, s.gv, x);
  }

  lemma PublishKeepsOwnWord(c: Config, s: State, s': State, t: Tid, tx': Tx, x: Addr)
    requires LockInv(s) && LockInv(s') && Publishes(c, s, s', t, tx', x) && tx'.writes[x] == Val(s.hist, s.gv, x)
    ensures Get(s'.mem, x) == Current(c, s', x)
  {
    assert c.LockOf(x) in s.txs[t].saved && s'.owner[c.LockOf(x)] == t;
    assert !Pending(tx', x);
  }

  lemma PublishKeepsOtherWord(c: Config, s: State, s': State, t: Tid, tx': Tx, x: Addr, y: Addr)
    requires LockInv(s) && Get(s.mem, y) == Current(c, s, y) && LockInv(s') && Publishes(c, s, s', t, tx', x) && y != x
    ensures Get(s'.mem, y) == Current(c, s', y)
  {
    assert Pending(tx', y) == Pending(s.txs[t], y);
  }

  lemma PublishKeepsMem(c: Config, s: State, s': State, t: Tid, tx': Tx, x: Addr)
    requires LockInv(s) && MemInv(c, s) && LockInv(s') && Publishes(c, s, s', t, tx', x)
    requires tx'.writes[x] == Val(s.hist, s.gv, x)
    ensures MemInv(c, s')
  {
    forall y ensures Get(s'.mem, y) == Current(c, s', y) {
      assert Get(s.mem, y) == Current(c, s, y);
      if y == x {
        PublishKeepsOwnWord(c, s, s', t, tx', x);
      } else {
        PublishKeepsOtherWord(c, s, s', t, tx', x, y);
      }
    }
  }

  lemma PublishKeepsConditions(c: Config, s: State, s': State, t: Tid, tx': Tx, x: Addr)
    requires LockInv(s) && LockInv(s') && Publishes(c, s, s', t, tx', x)
    ensures forall rv, y :: SeenOk(c, s, rv, y) ==> SeenOk(c, s', rv, y)
    ensures forall rv, y, v :: ObsOk(c, s, rv, y, v) ==> ObsOk(c, s', rv, y, v)
    ensures forall t1, tx, y :: ConfirmedOk(c, s, t1, tx, y) ==> ConfirmedOk(c, s', t1, tx, y)
  {
    forall rv, y, v | ObsOk(c, s, rv, y, v) ensures ObsOk(c, s', rv, y, v) {
      assert Tainted(c, s, rv, y) == Tainted(c, s', rv, y);
    }
  }

  lemma PublishKeepsInv(c: Config, s: State, s': State, t: Tid, tx': Tx, x: Addr)
    requires Inv(c, s) && Publishes(c, s, s', t, tx', x)
    ensures Inv(c, s')
  {
    LocalKeepsVersions(c, s, s', t, tx');
    LocalKeepsLocks(s, s', t, tx');
    LocalKeepsEven(s, s', t, tx');
    PublishKeepsHist(c, s, s', t, tx', x);
    PublishKeepsWritten(c, s, s', t, tx', x);
    PublishedIsReplayed(c, s, s', t, tx', x);
    PublishKeepsMem(c, s, s', t, tx', x);
    PublishKeepsConditions(c, s, s', t, tx', x);
    ReadsSurvive(c, s, s', t, tx');
  }

  // ---- every step

  lemma LockWordStepKeepsInv(c: Config, s: State, step: Step)
    requires Inv(c, s) && Enabled(c, s, step) && (step.CasLock? || step.ReleaseLock? || step.RollBackLock?)
    ensures Inv(c, Apply(c, s, step))
  {
    var t, s' := step.t, Apply(c, s, step);
    assert LocalOk(c, s.txs[t]);
    if step.CasLock? {
      CasKeepsInv(c, s, t, s');
    } else if step.ReleaseLock? {
      ReleaseStepKeepsInv(c, s, t);
    } else {
      RollBackStepKeepsInv(c, s, t);
    }
  }

  lemma ReleaseStepKeepsInv(c: Config, s: State, t: Tid)
    requires Inv(c, s) && Enabled(c, s, ReleaseLock(t))
    ensures Inv(c, Apply(c, s, ReleaseLock(t)))
  {
    assert LocalOk(c, s.txs[t]);
    var step := ReleaseLock(t);
    ReleaseMoves(c, s, t);
    ReleaseKeepsInv(c, s, t, Apply(c, s, step), NextTx(c, s, step), StepLock(s, step));
  }

  lemma RollBackStepKeepsInv(c: Config, s: State, t: Tid)
    requires Inv(c, s) && Enabled(c, s, RollBackLock(t))
    ensures Inv(c, Apply(c, s, RollBackLock(t)))
  {
    assert LocalOk(c, s.txs[t]);
    var step := RollBackLock(t);
    RollBackMoves(c, s, t);
    RollBackKeepsInv(c, s, t, Apply(c, s, step), NextTx(c, s, step), StepLock(s, step));
  }

  lemma CommitStepKeepsInv(c: Config, s: State, step: Step)
    requires Inv(c, s) && Enabled(c, s, step)
    requires step.FetchAdd? || step.SkipValidation? || step.FinishValidation? || step.PublishWord?
    ensures Inv(c, Apply(c, s, step))
  {
    var t, s', tx' := step.t, Apply(c, s, step), NextTx(c, s, step);
    assert LocalOk(c, s.txs[t]);
    if step.FetchAdd? {
      FetchMoves(c, s, t);
      FetchKeepsInv(c, s, s', t, tx');
    } else if step.PublishWord? {
      PublishMoves(c, s, t);
      PublishKeepsInv(c, s, s', t, tx', s.txs[t].phase.ws[s.txs[t].phase.k]);
    } else {
      DecisionMoves(c, s, step);
      DecisionKeepsInv(c, s, s', t, tx');
    }
  }

  /** Every step of every transaction keeps the invariant. */
  lemma StepKeepsInv(c: Config, s: State, step: Step)
    requires Inv(c, s) && Enabled(c, s, step)
    ensures Inv(c, Apply(c, s, step))
  {
    if step.Begin? {
      BeginKeepsInv(c, s, step.t, step.readOnly, Apply(c, s, step));
    } else if ReadStep(step) {
      ReadsKeepShared(c, s, step);
      ReadKeepsInv(c, s, step, Apply(c, s, step));
    } else if step.ValidateWord? {
      ReadsKeepShared(c, s, step);
      ValidateKeepsInv(c, s, step.t, Apply(c, s, step));
    } else if Private(step) {
      PrivateKeepsShared(c, s, step);
      PrivateKeepsInv(c, s, step, Apply(c, s, step));
    } else if step.CasLock? || step.ReleaseLock? || step.RollBackLock? {
      LockWordStepKeepsInv(c, s, step);
    } else {
      CommitStepKeepsInv(c, s, step);
    }
  }
}
