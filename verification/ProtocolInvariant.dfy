/** The inductive invariant of the protocol, and its preservation by every step. */
module ProtocolInvariant {
  import opened VersionLock
  import opened Protocol
  import opened Replay

  /** Past validation: its write set belongs to the history. */
  ghost predicate Decided(tx: Tx) {
    tx.phase.Publishing? || tx.phase.Releasing? || (tx.phase.Committed? && !tx.readOnly)
  }

  /** In the history, but the copy of word `x` has not happened yet. */
  ghost predicate Pending(tx: Tx, x: Addr) {
    tx.phase.Publishing? && tx.phase.k <= |tx.phase.ws| && x in tx.writes && x !in tx.phase.ws[..tx.phase.k]
  }

  /** The read of `x` is known to stay valid up to the transaction's write version. */
  ghost predicate Confirmed(tx: Tx, x: Addr) {
    x in tx.readSet &&
    match tx.phase
    case Fetched(_) => tx.wv == tx.rv + 2
    case Validating(_, rs, j) => j <= |rs| && x in rs[..j]
    case _ => Decided(tx)
  }

  /** The part of the lock order a phase says is held. */
  ghost function Held(p: Phase): set<nat> {
    match p
    case Locking(order, i) => if i <= |order| then Elems(order[..i]) else {}
    case Acquiring(order, i, _) => if i <= |order| then Elems(order[..i]) else {}
    case Fetched(order) => Elems(order)
    case Validating(order, _, _) => Elems(order)
    case Publishing(order, _, _) => Elems(order)
    case Releasing(order, i) => if i <= |order| then Elems(order[i..]) else {}
    case RollingBack(order, i, stop) => if i <= stop <= |order| then Elems(order[i..stop]) else {}
    case _ => {}
  }

  /** What a transaction's own fields say about each other. */
  ghost predicate LocalOk(c: Config, tx: Tx) {
    && tx.saved.Keys == Held(tx.phase)
    && (forall p :: p in tx.obs ==> p.0 in tx.readSet)
    && (tx.readOnly ==> tx.writes == map[] && tx.wv == 0)
    && match tx.phase
       case Running => tx.wv == 0
       case Checked(x) => tx.wv == 0 && x in tx.readSet
       case Rechecked(x) => tx.wv == 0 && x in tx.readSet && !c.fusedRead
       case Locking(order, i) => tx.wv == 0 && !tx.readOnly && Visits(order, LockSet(c, tx.writes)) && i <= |order|
       case Acquiring(order, i, loaded) =>
         && tx.wv == 0 && !tx.readOnly && Visits(order, LockSet(c, tx.writes)) && i < |order| && !Locked(loaded)
       case Fetched(order) => tx.wv > 0 && Visits(order, LockSet(c, tx.writes))
       case Validating(order, rs, j) =>
         tx.wv > 0 && Visits(order, LockSet(c, tx.writes)) && Visits(rs, tx.readSet) && j <= |rs|
       case Publishing(order, ws, k) =>
         tx.wv > 0 && Visits(order, LockSet(c, tx.writes)) && Visits(ws, tx.writes.Keys) && k <= |ws|
       case Releasing(order, i) => tx.wv > 0 && Visits(order, LockSet(c, tx.writes)) && i <= |order|
       case RollingBack(order, i, stop) => Visits(order, LockSet(c, tx.writes)) && i <= stop <= |order|
       case Committed => tx.readOnly || tx.wv > 0
       case Aborted => true
  }

  ghost predicate LocalInv(c: Config, s: State) {
    forall t :: t in s.txs ==> LocalOk(c, s.txs[t])
  }

  ghost predicate VersionsOk(s: State, tx: Tx) {
    && 0 <= tx.rv <= s.gv
    && 0 <= tx.wv <= s.gv
    && (tx.wv > 0 ==> tx.rv < tx.wv)
  }

  /** Read and write versions are bounded by the counter; write versions are unique. */
  ghost predicate VersionInv(s: State) {
    && 0 <= s.gv
    && (forall t :: t in s.txs ==> VersionsOk(s, s.txs[t]))
    && (forall t, t' :: t in s.txs && t' in s.txs && s.txs[t].wv == s.txs[t'].wv > 0 ==> t == t')
  }

  /** The version part of lock word `l`, given who holds it. */
  ghost function Ver(s: State, l: nat): int
    requires l < |s.locks|
  {
    if l in s.owner then s.locks[l] - 1 else s.locks[l]
  }

  ghost predicate LockBounds(s: State) {
    |s.locks| == LOCK_ARRAY_SIZE && (forall l :: 0 <= l < |s.locks| ==> 0 <= Ver(s, l) <= s.gv)
  }

  ghost predicate OwnersHold(s: State) {
    forall l :: l in s.owner ==> l < |s.locks| && s.owner[l] in s.txs && l in s.txs[s.owner[l]].saved
  }

  ghost predicate HoldersOwn(s: State) {
    forall t, l :: t in s.txs && l in s.txs[t].saved ==>
      && l in s.owner && s.owner[l] == t && l < |s.locks| && s.txs[t].saved[l] == Ver(s, l)
      && (s.txs[t].wv > 0 ==> s.txs[t].saved[l] < s.txs[t].wv)
  }

  /** A lock word is its version, plus one exactly while one transaction holds it. The holder remembers
      the value it replaced, and its write version is newer. */
  ghost predicate LockInv(s: State) {
    LockBounds(s) && OwnersHold(s) && HoldersOwn(s)
  }

  /** All versions are even: bit 0 is left to the lock. */
  ghost predicate EvenInv(s: State) {
    && s.gv % 2 == 0
    && (forall t :: t in s.txs ==> s.txs[t].rv % 2 == 0 && s.txs[t].wv % 2 == 0)
    && (forall l :: 0 <= l < |s.locks| ==> Ver(s, l) % 2 == 0)
  }

  /** The history holds exactly the write sets of the transactions past validation. */
  ghost predicate HistInv(s: State) {
    && (forall u :: u in s.hist ==>
          && s.hist[u].tid in s.txs && Decided(s.txs[s.hist[u].tid])
          && s.txs[s.hist[u].tid].wv == u && s.txs[s.hist[u].tid].writes == s.hist[u].writes)
    && (forall t :: t in s.txs && Decided(s.txs[t]) ==> s.txs[t].wv in s.hist && s.hist[s.txs[t].wv].tid == t)
  }

  /** A committed word's lock carries at least the commit's version, or the committer still holds it. */
  ghost predicate WrittenInv(c: Config, s: State)
    requires LockInv(s) && HistInv(s)
  {
    forall u, x :: u in s.hist && x in s.hist[u].writes ==>
      u <= Ver(s, c.LockOf(x)) || c.LockOf(x) in s.txs[s.hist[u].tid].saved
  }

  /** Shared memory is the full replay, except for words whose committer has not copied them yet. */
  ghost function Current(c: Config, s: State, x: Addr): Word
    requires LockInv(s)
  {
    var l := c.LockOf(x);
    if l in s.owner && Pending(s.txs[s.owner[l]], x) then Val(s.hist, s.txs[s.owner[l]].wv - 1, x)
    else Val(s.hist, s.gv, x)
  }

  ghost predicate MemInv(c: Config, s: State)
    requires LockInv(s)
  {
    forall x :: Get(s.mem, x) == Current(c, s, x)
  }

  /** Whoever holds the word's lock with a write version took it after version `rv`. */
  ghost predicate SeenOk(c: Config, s: State, rv: int, x: Addr)
    requires LockInv(s)
  {
    var l := c.LockOf(x);
    l in s.owner && s.txs[s.owner[l]].wv > 0 ==> s.txs[s.owner[l]].wv > rv
  }

  ghost predicate SeenInv(c: Config, s: State)
    requires LockInv(s)
  {
    forall t, x :: t in s.txs && x in s.txs[t].readSet ==> SeenOk(c, s, s.txs[t].rv, x)
  }

  /** A commit newer than `rv` has reached the word's lock: validation against `rv` will fail. */
  ghost predicate Tainted(c: Config, s: State, rv: int, x: Addr)
    requires LockInv(s)
  {
    var l := c.LockOf(x);
    Ver(s, l) > rv || (l in s.owner && Decided(s.txs[s.owner[l]]) && s.txs[s.owner[l]].wv > rv)
  }

  ghost predicate ObsOk(c: Config, s: State, rv: int, x: Addr, v: Word)
    requires LockInv(s)
  {
    v == Val(s.hist, rv, x) || (!c.fusedRead && Tainted(c, s, rv, x))
  }

  /** Every value read is the snapshot value at the read version, or validation will notice. */
  ghost predicate ObsInv(c: Config, s: State)
    requires LockInv(s)
  {
    forall t, p :: t in s.txs && p in s.txs[t].obs ==> ObsOk(c, s, s.txs[t].rv, p.0, p.1)
  }

  /** No other commit between the read and the write version can touch `x`, now or later. */
  ghost predicate ConfirmedOk(c: Config, s: State, t: Tid, tx: Tx, x: Addr)
    requires LockInv(s)
  {
    && NotWritten(s.hist, tx.rv, tx.wv - 1, x)
    && (var l := c.LockOf(x);
        l in s.owner && s.owner[l] != t && s.txs[s.owner[l]].wv > 0 ==> s.txs[s.owner[l]].wv > tx.wv)
    && (forall v :: (x, v) in tx.obs ==> v == Val(s.hist, tx.rv, x))
  }

  ghost predicate ConfirmedInv(c: Config, s: State)
    requires LockInv(s)
  {
    forall t, x :: t in s.txs && Confirmed(s.txs[t], x) ==> ConfirmedOk(c, s, t, s.txs[t], x)
  }

  ghost predicate Inv(c: Config, s: State) {
    && LocalInv(c, s)
    && VersionInv(s)
    && LockInv(s)
    && EvenInv(s)
    && HistInv(s)
    && WrittenInv(c, s)
    && MemInv(c, s)
    && SeenInv(c, s)
    && ObsInv(c, s)
    && ConfirmedInv(c, s)
  }

  lemma InitHolds(c: Config)
    ensures Inv(c, Init())
  {
    assert MemInv(c, Init()) by {
      assert forall x :: Val(map[], 0, x) == 0;
    }
  }

  // ---- steps that change only the transaction itself

  /** The shared part of the state is the same in both. */
  ghost predicate SameShared(s: State, s': State) {
    s'.gv == s.gv && s'.locks == s.locks && s'.mem == s.mem && s'.hist == s.hist && s'.owner == s.owner
  }

  ghost predicate SameLocks(s: State, s': State) {
    s'.gv == s.gv && s'.locks == s.locks && s'.owner == s.owner
  }

  ghost predicate SameCore(tx: Tx, tx': Tx) {
    && tx'.rv == tx.rv && tx'.wv == tx.wv && tx'.saved == tx.saved
    && Decided(tx') == Decided(tx) && (Decided(tx) ==> tx'.writes == tx.writes)
    && (forall x :: Pending(tx', x) == Pending(tx, x))
  }

  lemma LocalKeepsLocks(s: State, s': State, t: Tid, tx': Tx)
    requires LockInv(s) && t in s.txs && SameLocks(s, s') && s'.txs == s.txs[t := tx']
    requires tx'.saved == s.txs[t].saved && tx'.wv == s.txs[t].wv
    ensures LockInv(s')
  {
    assert LockBounds(s') by {
      assert forall l :: 0 <= l < |s'.locks| ==> Ver(s', l) == Ver(s, l);
    }
    assert OwnersHold(s');
    LocalKeepsHolders(s, s', t, tx');
  }

  lemma LocalKeepsHolders(s: State, s': State, t: Tid, tx': Tx)
    requires HoldersOwn(s) && t in s.txs && SameLocks(s, s') && s'.txs == s.txs[t := tx']
    requires tx'.saved == s.txs[t].saved && tx'.wv == s.txs[t].wv
    ensures HoldersOwn(s')
  {}

  lemma LocalKeepsVersions(c: Config, s: State, s': State, t: Tid, tx': Tx)
    requires LocalInv(c, s) && VersionInv(s) && t in s.txs && s'.gv == s.gv && s'.txs == s.txs[t := tx']
    requires tx'.rv == s.txs[t].rv && tx'.wv == s.txs[t].wv && LocalOk(c, tx')
    ensures LocalInv(c, s') && VersionInv(s')
  {
    assert forall t1 :: t1 in s'.txs ==> VersionsOk(s', s'.txs[t1]) == VersionsOk(s, s.txs[t1]);
  }

  lemma LocalKeepsEven(s: State, s': State, t: Tid, tx': Tx)
    requires EvenInv(s) && t in s.txs && SameLocks(s, s') && s'.txs == s.txs[t := tx']
    requires tx'.rv == s.txs[t].rv && tx'.wv == s.txs[t].wv
    ensures EvenInv(s')
  {
    forall l | 0 <= l < |s'.locks| ensures Ver(s', l) % 2 == 0 {
      assert Ver(s, l) % 2 == 0;
    }
  }

  lemma LocalKeepsHist(s: State, s': State, t: Tid, tx': Tx)
    requires HistInv(s) && t in s.txs && SameShared(s, s') && s'.txs == s.txs[t := tx']
    requires SameCore(s.txs[t], tx')
    ensures HistInv(s')
  {}

  lemma LocalKeepsWritten(c: Config, s: State, s': State, t: Tid, tx': Tx)
    requires LockInv(s) && HistInv(s) && WrittenInv(c, s) && LockInv(s') && HistInv(s')
    requires t in s.txs && SameShared(s, s') && s'.txs == s.txs[t := tx']
    requires SameCore(s.txs[t], tx')
    ensures WrittenInv(c, s')
  {}

  lemma LocalKeepsMem(c: Config, s: State, s': State, t: Tid, tx': Tx)
    requires LockInv(s) && MemInv(c, s) && LockInv(s')
    requires t in s.txs && SameShared(s, s') && s'.txs == s.txs[t := tx']
    requires SameCore(s.txs[t], tx')
    ensures MemInv(c, s')
  {
    forall x ensures Get(s'.mem, x) == Current(c, s', x) {
      assert Get(s.mem, x) == Current(c, s, x);
    }
  }

  /** The reading conditions look at other transactions only through what they hold and decided. */
  lemma LocalKeepsConditions(c: Config, s: State, s': State, t: Tid, tx': Tx)
    requires LockInv(s) && LockInv(s')
    requires t in s.txs && SameShared(s, s') && s'.txs == s.txs[t := tx']
    requires SameCore(s.txs[t], tx')
    ensures forall rv, x :: SeenOk(c, s, rv, x) == SeenOk(c, s', rv, x)
    ensures forall rv, x, v :: ObsOk(c, s, rv, x, v) == ObsOk(c, s', rv, x, v)
    ensures forall t1, tx, x :: ConfirmedOk(c, s, t1, tx, x) == ConfirmedOk(c, s', t1, tx, x)
  {
    forall rv, x, v ensures ObsOk(c, s, rv, x, v) == ObsOk(c, s', rv, x, v) {
      assert Tainted(c, s, rv, x) == Tainted(c, s', rv, x);
    }
  }

  lemma LocalStep(c: Config, s: State, s': State, t: Tid, tx': Tx)
    requires Inv(c, s) && t in s.txs && SameShared(s, s') && s'.txs == s.txs[t := tx']
    requires SameCore(s.txs[t], tx') && LocalOk(c, tx')
    requires forall x :: x in tx'.readSet ==> x in s.txs[t].readSet || SeenOk(c, s, tx'.rv, x)
    requires forall p :: p in tx'.obs ==> p in s.txs[t].obs || ObsOk(c, s, tx'.rv, p.0, p.1)
    requires forall x :: Confirmed(tx', x) ==>
      (Confirmed(s.txs[t], x) && tx'.obs == s.txs[t].obs) || ConfirmedOk(c, s, t, tx', x)
    ensures Inv(c, s')
  {
    LocalKeepsVersions(c, s, s', t, tx');
    LocalKeepsLocks(s, s', t, tx');
    LocalKeepsEven(s, s', t, tx');
    LocalKeepsHist(s, s', t, tx');
    LocalKeepsWritten(c, s, s', t, tx');
    LocalKeepsMem(c, s, s', t, tx');
    LocalKeepsConditions(c, s, s', t, tx');
    LocalKeepsReads(c, s, s', t, tx');
  }

  lemma LocalKeepsReads(c: Config, s: State, s': State, t: Tid, tx': Tx)
    requires LockInv(s) && LockInv(s') && SeenInv(c, s) && ObsInv(c, s) && ConfirmedInv(c, s)
    requires t in s.txs && s'.txs == s.txs[t := tx'] && tx'.rv == s.txs[t].rv && tx'.wv == s.txs[t].wv
    requires forall rv, x :: SeenOk(c, s, rv, x) == SeenOk(c, s', rv, x)
    requires forall rv, x, v :: ObsOk(c, s, rv, x, v) == ObsOk(c, s', rv, x, v)
    requires forall t1, tx, x :: ConfirmedOk(c, s, t1, tx, x) == ConfirmedOk(c, s', t1, tx, x)
    requires forall x :: x in tx'.readSet ==> x in s.txs[t].readSet || SeenOk(c, s, tx'.rv, x)
    requires forall p :: p in tx'.obs ==> p in s.txs[t].obs || ObsOk(c, s, tx'.rv, p.0, p.1)
    requires forall x :: Confirmed(tx', x) ==>
      (Confirmed(s.txs[t], x) && tx'.obs == s.txs[t].obs) || ConfirmedOk(c, s, t, tx', x)
    ensures SeenInv(c, s') && ObsInv(c, s') && ConfirmedInv(c, s')
  {
    forall t1, x | t1 in s'.txs && Confirmed(s'.txs[t1], x) ensures ConfirmedOk(c, s', t1, s'.txs[t1], x) {
      if t1 != t || (Confirmed(s.txs[t], x) && tx'.obs == s.txs[t].obs) {
        assert Confirmed(s.txs[t1], x);
        assert ConfirmedOk(c, s, t1, s.txs[t1], x);
      }
      assert ConfirmedOk(c, s, t1, s'.txs[t1], x);
    }
  }

  // ---- reading

  /** What a copy from shared memory can return for a word whose first check passed. */
  lemma CopyIsSnapshotOrTainted(c: Config, s: State, rv: int, x: Addr)
    requires Inv(c, s) && rv <= s.gv && SeenOk(c, s, rv, x)
    ensures Get(s.mem, x) == Val(s.hist, rv, x) || Tainted(c, s, rv, x)
  {
    var l := c.LockOf(x);
    assert Get(s.mem, x) == Current(c, s, x);
    if l in s.owner && Pending(s.txs[s.owner[l]], x) {
      assert LocalOk(c, s.txs[s.owner[l]]);
      assert Tainted(c, s, rv, x);
    } else if !Tainted(c, s, rv, x) {
      UntaintedIsQuiet(c, s, rv, x);
      ValSkips(s.hist, rv, s.gv, x);
    }
  }

  lemma UntaintedIsQuiet(c: Config, s: State, rv: int, x: Addr)
    requires LockInv(s) && HistInv(s) && WrittenInv(c, s) && !Tainted(c, s, rv, x)
    ensures forall u :: u > rv && u in s.hist ==> x !in s.hist[u].writes
  {
  }

  /** A successful lock check says: free, and not newer than `rv`. */
  lemma CheckMeansFree(c: Config, s: State, rv: int, x: Addr)
    requires |s.locks| == LOCK_ARRAY_SIZE && EvenInv(s) && rv % 2 == 0
    ensures Check(LockWord(c, s, x), rv) <==> c.LockOf(x) !in s.owner && Ver(s, c.LockOf(x)) <= rv
    ensures c.LockOf(x) in s.owner ==> (CheckVersion(LockWord(c, s, x), rv) <==> Ver(s, c.LockOf(x)) <= rv)
  {
    CheckComparesVersions(LockWord(c, s, x), rv);
    assert Ver(s, c.LockOf(x)) % 2 == 0;
  }

  lemma CheckExcludesTaint(c: Config, s: State, rv: int, x: Addr)
    requires LockInv(s) && EvenInv(s) && rv % 2 == 0 && Check(LockWord(c, s, x), rv)
    ensures !Tainted(c, s, rv, x) && SeenOk(c, s, rv, x) && c.LockOf(x) !in s.owner
  {
    CheckMeansFree(c, s, rv, x);
  }

  /** The reads of a transaction after a step, compared with those before it. */
  ghost predicate SameReads(tx: Tx, tx': Tx) {
    tx'.readSet == tx.readSet && tx'.obs == tx.obs && (forall x :: Confirmed(tx', x) ==> Confirmed(tx, x))
  }

  ghost predicate ReadStep(step: Step) {
    step.FirstCheck? || step.SecondCheck? || step.CopyWord? || step.CheckAndCopy?
  }

  lemma CheckMoves(c: Config, s: State, step: Step)
    requires Enabled(c, s, step) && step.t in s.txs && LocalOk(c, s.txs[step.t])
    requires step.FirstCheck? || step.SecondCheck?
    ensures var tx, tx' := s.txs[step.t], NextTx(c, s, step);
      && SameCore(tx, tx') && LocalOk(c, tx') && (forall x :: !Confirmed(tx', x)) && tx'.obs == tx.obs
      && (tx'.readSet == tx.readSet ||
          (step.FirstCheck? && tx'.readSet == tx.readSet + {step.x} && Check(LockWord(c, s, step.x), tx.rv)))
  {}

  lemma CopyMoves(c: Config, s: State, step: Step)
    requires Enabled(c, s, step) && step.t in s.txs && LocalOk(c, s.txs[step.t])
    requires step.CopyWord? || step.CheckAndCopy?
    ensures var tx, tx' := s.txs[step.t], NextTx(c, s, step);
      var x := tx.phase.x;
      && SameCore(tx, tx') && LocalOk(c, tx') && (forall y :: !Confirmed(tx', y)) && tx'.readSet == tx.readSet
      && x in tx.readSet
      && (tx'.obs == tx.obs ||
          (tx'.obs == tx.obs + {(x, Get(s.mem, x))} && (c.fusedRead ==> Check(LockWord(c, s, x), tx.rv))))
  {}

  lemma ReadsKeepShared(c: Config, s: State, step: Step)
    requires Enabled(c, s, step) && (ReadStep(step) || step.ValidateWord?)
    ensures SameShared(s, Apply(c, s, step))
  {}

  lemma PrivateKeepsShared(c: Config, s: State, step: Step)
    requires Enabled(c, s, step) && Private(step)
    ensures SameShared(s, Apply(c, s, step))
  {}

  lemma CheckedKeepsInv(c: Config, s: State, s': State, t: Tid, tx': Tx, x: Addr)
    requires Inv(c, s) && t in s.txs && SameShared(s, s') && s'.txs == s.txs[t := tx']
    requires SameCore(s.txs[t], tx') && LocalOk(c, tx') && (forall y :: !Confirmed(tx', y)) && tx'.obs == s.txs[t].obs
    requires tx'.readSet == s.txs[t].readSet + {x} && Check(LockWord(c, s, x), tx'.rv)
    ensures Inv(c, s')
  {
    assert VersionsOk(s, s.txs[t]);
    CheckExcludesTaint(c, s, tx'.rv, x);
    LocalStep(c, s, s', t, tx');
  }

  lemma CopiedKeepsInv(c: Config, s: State, s': State, t: Tid, tx': Tx, x: Addr)
    requires Inv(c, s) && t in s.txs && SameShared(s, s') && s'.txs == s.txs[t := tx']
    requires SameCore(s.txs[t], tx') && LocalOk(c, tx') && (forall y :: !Confirmed(tx', y))
    requires tx'.readSet == s.txs[t].readSet && x in tx'.readSet
    requires tx'.obs == s.txs[t].obs + {(x, Get(s.mem, x))}
    requires c.fusedRead ==> Check(LockWord(c, s, x), tx'.rv)
    ensures Inv(c, s')
  {
    assert VersionsOk(s, s.txs[t]);
    assert SeenOk(c, s, tx'.rv, x);
    CopyIsSnapshotOrTainted(c, s, tx'.rv, x);
    if c.fusedRead {
      CheckExcludesTaint(c, s, tx'.rv, x);
    }
    LocalStep(c, s, s', t, tx');
  }

  lemma UnchangedReadsKeepInv(c: Config, s: State, s': State, t: Tid, tx': Tx)
    requires Inv(c, s) && t in s.txs && SameShared(s, s') && s'.txs == s.txs[t := tx']
    requires SameCore(s.txs[t], tx') && LocalOk(c, tx') && SameReads(s.txs[t], tx')
    ensures Inv(c, s')
  {
    LocalStep(c, s, s', t, tx');
  }

  lemma ReadKeepsInv(c: Config, s: State, step: Step, s': State)
    requires Inv(c, s) && Enabled(c, s, step) && ReadStep(step)
    requires SameShared(s, s') && s'.txs == s.txs[step.t := NextTx(c, s, step)]
    ensures Inv(c, s')
  {
    var tx, tx' := s.txs[step.t], NextTx(c, s, step);
    if step.FirstCheck? || step.SecondCheck? {
      CheckMoves(c, s, step);
      if tx'.readSet != tx.readSet {
        CheckedKeepsInv(c, s, s', step.t, tx', step.x);
      } else {
        UnchangedReadsKeepInv(c, s, s', step.t, tx');
      }
    } else {
      CopyMoves(c, s, step);
      if tx'.obs != tx.obs {
        CopiedKeepsInv(c, s, s', step.t, tx', tx.phase.x);
      } else {
        UnchangedReadsKeepInv(c, s, s', step.t, tx');
      }
    }
  }

  // ---- steps that only move the transaction along

  ghost predicate Private(step: Step) {
    || step.WriteWord? || step.BadWrite? || step.Alloc? || step.EndReadOnly? || step.StartCommit? || step.LoadLock?
    || step.StartValidation? || step.StartRelease? || step.FinishCommit? || step.FinishRollBack?
  }

  lemma CallMoves(c: Config, s: State, step: Step)
    requires Enabled(c, s, step) && step.t in s.txs && LocalOk(c, s.txs[step.t])
    requires step.WriteWord? || step.BadWrite? || step.Alloc? || step.EndReadOnly? || step.StartCommit?
    ensures var tx, tx' := s.txs[step.t], NextTx(c, s, step);
      SameCore(tx, tx') && LocalOk(c, tx') && SameReads(tx, tx')
  {}

  lemma EndMoves(c: Config, s: State, step: Step)
    requires Enabled(c, s, step) && step.t in s.txs && LocalOk(c, s.txs[step.t])
    requires step.LoadLock? || step.StartValidation? || step.FinishCommit? || step.FinishRollBack?
    ensures var tx, tx' := s.txs[step.t], NextTx(c, s, step);
      SameCore(tx, tx') && LocalOk(c, tx') && SameReads(tx, tx')
  {
    var tx := s.txs[step.t];
    if step.LoadLock? {
      assert tx.phase.order[0..tx.phase.i] == tx.phase.order[..tx.phase.i];
    }
  }

  lemma StartReleaseMoves(c: Config, s: State, t: Tid)
    requires Enabled(c, s, StartRelease(t)) && LocalOk(c, s.txs[t])
    ensures var tx, tx' := s.txs[t], NextTx(c, s, StartRelease(t));
      SameCore(tx, tx') && LocalOk(c, tx') && SameReads(tx, tx')
  {
    var tx := s.txs[t];
    assert tx.phase.ws[..tx.phase.k] == tx.phase.ws;
    assert tx.phase.order[0..] == tx.phase.order;
    forall x | x in tx.writes ensures x in tx.phase.ws {
      assert x in Elems(tx.phase.ws);
    }
  }

  lemma PrivateKeepsInv(c: Config, s: State, step: Step, s': State)
    requires Inv(c, s) && Enabled(c, s, step) && Private(step)
    requires SameShared(s, s') && s'.txs == s.txs[step.t := NextTx(c, s, step)]
    ensures Inv(c, s')
  {
    if step.StartRelease? {
      StartReleaseMoves(c, s, step.t);
    } else if step.LoadLock? || step.StartValidation? || step.FinishCommit? || step.FinishRollBack? {
      EndMoves(c, s, step);
    } else {
      CallMoves(c, s, step);
    }
    UnchangedReadsKeepInv(c, s, s', step.t, NextTx(c, s, step));
  }

  lemma ValidateMoves(c: Config, s: State, t: Tid)
    requires Enabled(c, s, ValidateWord(t)) && LocalOk(c, s.txs[t])
    ensures var tx, tx' := s.txs[t], NextTx(c, s, ValidateWord(t));
      && SameCore(tx, tx') && LocalOk(c, tx') && tx'.readSet == tx.readSet && tx'.obs == tx.obs
      && (forall x :: Confirmed(tx', x) && !Confirmed(tx, x) ==>
            x == tx.phase.rs[tx.phase.j] && Validates(c, s, tx, x))
  {
    var Validating(order, rs, j) := s.txs[t].phase;
    assert order[0..|order|] == order;
    assert rs[..j + 1] == rs[..j] + [rs[j]];
  }

  lemma ValidateKeepsInv(c: Config, s: State, t: Tid, s': State)
    requires Inv(c, s) && Enabled(c, s, ValidateWord(t))
    requires SameShared(s, s') && s'.txs == s.txs[t := NextTx(c, s, ValidateWord(t))]
    ensures Inv(c, s')
  {
    ValidateMoves(c, s, t);
    var x := s.txs[t].phase.rs[s.txs[t].phase.j];
    var tx' := NextTx(c, s, ValidateWord(t));
    if Validates(c, s, s.txs[t], x) {
      ValidatedIsConfirmed(c, s, t, x);
      assert ConfirmedOk(c, s, t, tx', x);
    }
    LocalStep(c, s, s', t, tx');
  }

  /** One word passing validation settles every read of it. */
  lemma ValidatedIsConfirmed(c: Config, s: State, t: Tid, x: Addr)
    requires Inv(c, s) && t in s.txs && s.txs[t].phase.Validating?
    requires Validates(c, s, s.txs[t], x)
    ensures ConfirmedOk(c, s, t, s.txs[t], x)
  {
    var tx := s.txs[t];
    assert LocalOk(c, tx) && VersionsOk(s, tx);
    CheckMeansFree(c, s, tx.rv, x);
    if x in tx.writes {
      WriteLockIsHeld(c, tx, x);
    }
    QuietIsConfirmed(c, s, t, x);
  }

  lemma WriteLockIsHeld(c: Config, tx: Tx, x: Addr)
    requires LocalOk(c, tx) && x in tx.writes
    requires tx.phase.Fetched? || tx.phase.Validating? || tx.phase.Publishing?
    ensures c.LockOf(x) in tx.saved
  {
    assert c.LockOf(x) in LockSet(c, tx.writes);
  }

  lemma QuietIsConfirmed(c: Config, s: State, t: Tid, x: Addr)
    requires LockInv(s) && HistInv(s) && WrittenInv(c, s) && ObsInv(c, s)
    requires t in s.txs && !Decided(s.txs[t]) && Ver(s, c.LockOf(x)) <= s.txs[t].rv
    requires c.LockOf(x) in s.owner ==> s.owner[c.LockOf(x)] == t
    ensures ConfirmedOk(c, s, t, s.txs[t], x)
  {
    var tx := s.txs[t];
    assert !Tainted(c, s, tx.rv, x);
    UntaintedIsQuiet(c, s, tx.rv, x);
    forall v | (x, v) in tx.obs ensures v == Val(s.hist, tx.rv, x) {
      assert ObsOk(c, s, tx.rv, (x, v).0, (x, v).1);
    }
  }

  // ---- steps on a lock word

  /** Only lock `l` moves, between free and held by `t`, and its version does not go back. */
  ghost predicate LockMoves(s: State, s': State, t: Tid, tx': Tx, l: nat)
    requires t in s.txs && |s.locks| == |s'.locks| == LOCK_ARRAY_SIZE && l < LOCK_ARRAY_SIZE
  {
    var tx := s.txs[t];
    && s'.gv == s.gv && s'.txs == s.txs[t := tx']
    && (forall l1 :: 0 <= l1 < |s.locks| && l1 != l ==> s'.locks[l1] == s.locks[l1])
    && (forall l1 :: l1 != l ==> (l1 in s'.owner <==> l1 in s.owner))
    && (forall l1 :: l1 != l && l1 in s.owner ==> s'.owner[l1] == s.owner[l1])
    && (l in s.owner ==> s.owner[l] == t)
    && (l in s'.owner ==> s'.owner[l] == t && tx.wv == 0)
    && (forall l1 :: l1 != l && l1 in tx.saved ==> l1 in tx'.saved)
    && tx'.wv == tx.wv && SameRest(s, s', tx, tx')
    && Ver(s, l) <= Ver(s', l) && (Decided(tx) ==> tx.wv <= Ver(s', l))
  }

  ghost predicate TakesLock(s: State, s': State, t: Tid, tx': Tx, l: nat)
    requires t in s.txs
  {
    && l < |s.locks| && s'.gv == s.gv && s'.txs == s.txs[t := tx']
    && s'.locks == s.locks[l := s.locks[l] + 1] && s'.owner == s.owner[l := t]
    && tx'.saved == s.txs[t].saved[l := s.locks[l]] && tx'.wv == s.txs[t].wv == 0
  }

  ghost predicate GivesLock(s: State, s': State, t: Tid, tx': Tx, l: nat, word: int)
    requires t in s.txs
  {
    && l < |s.locks| && l in s.txs[t].saved && s'.gv == s.gv && s'.txs == s.txs[t := tx']
    && s'.locks == s.locks[l := word] && s'.owner == s.owner - {l}
    && tx'.saved == s.txs[t].saved - {l} && tx'.wv == s.txs[t].wv
  }

  /** What no step on a lock word touches. */
  ghost predicate SameRest(s: State, s': State, tx: Tx, tx': Tx) {
    && s'.mem == s.mem && s'.hist == s.hist
    && tx'.rv == tx.rv && tx'.readSet == tx.readSet && tx'.obs == tx.obs && tx'.writes == tx.writes
    && Decided(tx') == Decided(tx) && !tx.phase.Publishing? && !tx'.phase.Publishing?
    && (forall x :: Confirmed(tx', x) ==> Confirmed(tx, x))
  }

  lemma TakingKeepsBounds(s: State, s': State, t: Tid, tx': Tx, l: nat)
    requires LockBounds(s) && t in s.txs && l < LOCK_ARRAY_SIZE && l !in s.owner && TakesLock(s, s', t, tx', l)
    ensures LockBounds(s') && Ver(s', l) == Ver(s, l)
  {
    assert forall l1 :: 0 <= l1 < |s'.locks| ==> Ver(s', l1) == Ver(s, l1);
  }

  lemma TakingKeepsOwners(s: State, s': State, t: Tid, tx': Tx, l: nat)
    requires OwnersHold(s) && t in s.txs && l !in s.owner && TakesLock(s, s', t, tx', l)
    ensures OwnersHold(s')
  {}

  lemma TakingKeepsHolders(s: State, s': State, t: Tid, tx': Tx, l: nat)
    requires HoldersOwn(s) && t in s.txs && l !in s.owner && TakesLock(s, s', t, tx', l)
    ensures HoldersOwn(s')
  {
    forall t1, l1 | t1 in s'.txs && l1 in s'.txs[t1].saved
      ensures l1 in s'.owner && s'.owner[l1] == t1 && l1 < |s'.locks| && s'.txs[t1].saved[l1] == Ver(s', l1)
      ensures s'.txs[t1].wv > 0 ==> s'.txs[t1].saved[l1] < s'.txs[t1].wv
    {
      if t1 != t || l1 != l {
        assert l1 in s.txs[t1].saved && s.owner[l1] == t1 && l1 != l;
      }
    }
  }

  lemma GivingKeepsBounds(s: State, s': State, t: Tid, tx': Tx, l: nat, word: int)
    requires LockInv(s) && t in s.txs && GivesLock(s, s', t, tx', l, word)
    requires s.txs[t].saved[l] <= word <= s.gv
    ensures LockBounds(s') && Ver(s, l) == s.txs[t].saved[l] && Ver(s', l) == word
  {
    assert forall l1 :: 0 <= l1 < |s'.locks| && l1 != l ==> Ver(s', l1) == Ver(s, l1);
  }

  lemma GivingKeepsOwners(s: State, s': State, t: Tid, tx': Tx, l: nat, word: int)
    requires OwnersHold(s) && t in s.txs && GivesLock(s, s', t, tx', l, word)
    ensures OwnersHold(s')
  {}

  lemma GivingKeepsHolders(s: State, s': State, t: Tid, tx': Tx, l: nat, word: int)
    requires HoldersOwn(s) && t in s.txs && GivesLock(s, s', t, tx', l, word)
    ensures HoldersOwn(s')
  {
    forall t1, l1 | t1 in s'.txs && l1 in s'.txs[t1].saved
      ensures l1 in s'.owner && s'.owner[l1] == t1 && l1 < |s'.locks| && s'.txs[t1].saved[l1] == Ver(s', l1)
      ensures s'.txs[t1].wv > 0 ==> s'.txs[t1].saved[l1] < s'.txs[t1].wv
    {
      assert l1 in s.txs[t1].saved && s.owner[l1] == t1 && l1 != l;
    }
  }

  lemma LockStepKeepsHistory(c: Config, s: State, s': State, t: Tid, tx': Tx, l: nat)
    requires LockInv(s) && t in s.txs && l < LOCK_ARRAY_SIZE && LockInv(s') && LockMoves(s, s', t, tx', l)
    requires HistInv(s) && WrittenInv(c, s)
    ensures HistInv(s') && WrittenInv(c, s')
  {
    forall u, x | u in s'.hist && x in s'.hist[u].writes
      ensures u <= Ver(s', c.LockOf(x)) || c.LockOf(x) in s'.txs[s'.hist[u].tid].saved
    {
      assert u <= Ver(s, c.LockOf(x)) || c.LockOf(x) in s.txs[s.hist[u].tid].saved;
    }
  }

  lemma LockStepKeepsEven(c: Config, s: State, s': State, t: Tid, tx': Tx, l: nat)
    requires LockInv(s) && t in s.txs && l < LOCK_ARRAY_SIZE && LockInv(s') && LockMoves(s, s', t, tx', l)
    requires EvenInv(s) && Ver(s', l) % 2 == 0
    ensures EvenInv(s')
  {
    forall l1 | 0 <= l1 < |s'.locks| ensures Ver(s', l1) % 2 == 0 {
      assert l1 != l ==> Ver(s, l1) == Ver(s', l1) && Ver(s, l1) % 2 == 0;
    }
  }

  lemma LockStepKeepsMem(c: Config, s: State, s': State, t: Tid, tx': Tx, l: nat)
    requires LockInv(s) && t in s.txs && l < LOCK_ARRAY_SIZE && LockInv(s') && LockMoves(s, s', t, tx', l)
    requires MemInv(c, s)
    ensures MemInv(c, s')
  {
    forall x ensures Get(s'.mem, x) == Current(c, s', x) {
      assert Get(s.mem, x) == Current(c, s, x);
    }
  }

  lemma LockStepKeepsConditions(c: Config, s: State, s': State, t: Tid, tx': Tx, l: nat)
    requires LockInv(s) && t in s.txs && l < LOCK_ARRAY_SIZE && LockInv(s') && LockMoves(s, s', t, tx', l)
    ensures forall rv, x :: SeenOk(c, s, rv, x) ==> SeenOk(c, s', rv, x)
    ensures forall rv, x, v :: ObsOk(c, s, rv, x, v) ==> ObsOk(c, s', rv, x, v)
    ensures forall t1, tx, x :: ConfirmedOk(c, s, t1, tx, x) ==> ConfirmedOk(c, s', t1, tx, x)
  {
    forall rv, x, v | ObsOk(c, s, rv, x, v) ensures ObsOk(c, s', rv, x, v) {
      if Tainted(c, s, rv, x) {
        assert Tainted(c, s', rv, x);
      }
    }
  }

  /** Reads stay good when the conditions on them survive. */
  lemma ReadsSurvive(c: Config, s: State, s': State, t: Tid, tx': Tx)
    requires LockInv(s) && LockInv(s') && SeenInv(c, s) && ObsInv(c, s) && ConfirmedInv(c, s)
    requires t in s.txs && s'.txs == s.txs[t := tx']
    requires tx'.rv == s.txs[t].rv && tx'.wv == s.txs[t].wv
    requires tx'.readSet == s.txs[t].readSet && tx'.obs == s.txs[t].obs
    requires forall rv, x :: SeenOk(c, s, rv, x) ==> SeenOk(c, s', rv, x)
    requires forall rv, x, v :: ObsOk(c, s, rv, x, v) ==> ObsOk(c, s', rv, x, v)
    requires forall t1, tx, x :: ConfirmedOk(c, s, t1, tx, x) ==> ConfirmedOk(c, s', t1, tx, x)
    requires forall x :: Confirmed(tx', x) ==> Confirmed(s.txs[t], x)
    ensures SeenInv(c, s') && ObsInv(c, s') && ConfirmedInv(c, s')
  {
    forall t1, x | t1 in s'.txs && Confirmed(s'.txs[t1], x) ensures ConfirmedOk(c, s', t1, s'.txs[t1], x) {
      assert ConfirmedOk(c, s, t1, s.txs[t1], x);
      assert ConfirmedOk(c, s', t1, s.txs[t1], x);
    }
  }

  lemma LockStepKeepsInv(c: Config, s: State, s': State, t: Tid, tx': Tx, l: nat)
    requires Inv(c, s) && t in s.txs && l < LOCK_ARRAY_SIZE && LockInv(s') && LockMoves(s, s', t, tx', l)
    requires LocalOk(c, tx') && Ver(s', l) % 2 == 0
    ensures Inv(c, s')
  {
    LocalKeepsVersions(c, s, s', t, tx');
    LockStepKeepsEven(c, s, s', t, tx', l);
    LockStepKeepsHistory(c, s, s', t, tx', l);
    LockStepKeepsMem(c, s, s', t, tx', l);
    LockStepKeepsConditions(c, s, s', t, tx', l);
    ReadsSurvive(c, s, s', t, tx');
  }

  lemma ElemsAppend<T>(s: seq<T>, i: nat)
    requires i < |s|
    ensures Elems(s[..i + 1]) == Elems(s[..i]) + {s[i]}
  {
    assert s[..i + 1] == s[..i] + [s[i]];
  }

  lemma ElemsDrop<T>(s: seq<T>, i: nat, j: nat)
    requires i < j <= |s| && Distinct(s)
    ensures Elems(s[i + 1..j]) == Elems(s[i..j]) - {s[i]}
    ensures s[i] in Elems(s[i..j])
  {
    assert s[i..j] == [s[i]] + s[i + 1..j];
  }

  lemma CasFails(c: Config, s: State, t: Tid)
    requires Enabled(c, s, CasLock(t)) && LocalOk(c, s.txs[t]) && NextTx(c, s, CasLock(t)).phase.RollingBack?
    ensures var tx, tx', s' := s.txs[t], NextTx(c, s, CasLock(t)), Apply(c, s, CasLock(t));
      LocalOk(c, tx') && SameShared(s, s') && SameCore(tx, tx') && SameReads(tx, tx')
  {
    var Acquiring(order, i, loaded) := s.txs[t].phase;
    assert order[0..i] == order[..i];
  }

  lemma CasSucceeds(c: Config, s: State, t: Tid)
    requires Enabled(c, s, CasLock(t)) && LocalOk(c, s.txs[t]) && NextTx(c, s, CasLock(t)).phase.Locking?
    ensures var tx, tx', s' := s.txs[t], NextTx(c, s, CasLock(t)), Apply(c, s, CasLock(t));
      var l := tx.phase.order[tx.phase.i];
      LocalOk(c, tx') && TakesLock(s, s', t, tx', l) && SameRest(s, s', tx, tx') && !Locked(s.locks[l])
  {
    ElemsAppend(s.txs[t].phase.order, s.txs[t].phase.i);
  }

  lemma TakingKeepsLocks(s: State, s': State, t: Tid, tx': Tx, l: nat)
    requires LockInv(s) && t in s.txs && l < |s.locks| && l !in s.owner && TakesLock(s, s', t, tx', l)
    ensures LockInv(s') && Ver(s', l) == Ver(s, l)
  {
    TakingKeepsBounds(s, s', t, tx', l);
    TakingKeepsOwners(s, s', t, tx', l);
    TakingKeepsHolders(s, s', t, tx', l);
  }

  lemma TakingMoves(s: State, s': State, t: Tid, tx': Tx, l: nat)
    requires LockInv(s) && EvenInv(s) && t in s.txs && !Decided(s.txs[t])
    requires l < |s.locks| && TakesLock(s, s', t, tx', l) && SameRest(s, s', s.txs[t], tx') && !Locked(s.locks[l])
    ensures LockInv(s') && LockMoves(s, s', t, tx', l) && Ver(s', l) % 2 == 0
  {
    assert Ver(s, l) % 2 == 0 && l !in s.owner;
    TakingKeepsLocks(s, s', t, tx', l);
  }

  lemma GivingMoves(s: State, s': State, t: Tid, tx': Tx, l: nat, word: int)
    requires LockInv(s) && t in s.txs && LockInv(s)
    requires GivesLock(s, s', t, tx', l, word) && SameRest(s, s', s.txs[t], tx')
    requires s.txs[t].saved[l] <= word <= s.gv && word % 2 == 0 && (Decided(s.txs[t]) ==> s.txs[t].wv <= word)
    ensures LockInv(s') && LockMoves(s, s', t, tx', l) && Ver(s', l) % 2 == 0
  {
    GivingKeepsBounds(s, s', t, tx', l, word);
    GivingKeepsOwners(s, s', t, tx', l, word);
    GivingKeepsHolders(s, s', t, tx', l, word);
  }

  lemma CasKeepsInv(c: Config, s: State, t: Tid, s': State)
    requires Inv(c, s) && Enabled(c, s, CasLock(t)) && s' == Apply(c, s, CasLock(t))
    ensures Inv(c, s')
  {
    var tx' := NextTx(c, s, CasLock(t));
    assert LocalOk(c, s.txs[t]);
    if tx'.phase.Locking? {
      CasSucceeds(c, s, t);
      TakingMoves(s, s', t, tx', s.txs[t].phase.order[s.txs[t].phase.i]);
      LockStepKeepsInv(c, s, s', t, tx', s.txs[t].phase.order[s.txs[t].phase.i]);
    } else {
      CasFails(c, s, t);
      UnchangedReadsKeepInv(c, s, s', t, tx');
    }
  }

  lemma ReleaseMoves(c: Config, s: State, t: Tid)
    requires Enabled(c, s, ReleaseLock(t)) && LocalOk(c, s.txs[t])
    ensures var tx, tx', s' := s.txs[t], NextTx(c, s, ReleaseLock(t)), Apply(c, s, ReleaseLock(t));
      var l := tx.phase.order[tx.phase.i];
      LocalOk(c, tx') && GivesLock(s, s', t, tx', l, tx.wv) && SameRest(s, s', tx, tx') && tx.wv > 0
  {
    ElemsDrop(s.txs[t].phase.order, s.txs[t].phase.i, |s.txs[t].phase.order|);
  }

  lemma ReleaseKeepsInv(c: Config, s: State, t: Tid, s': State, tx': Tx, l: nat)
    requires Inv(c, s) && t in s.txs && LocalOk(c, tx') && s.txs[t].wv > 0
    requires l < |s.locks| && GivesLock(s, s', t, tx', l, s.txs[t].wv) && SameRest(s, s', s.txs[t], tx')
    ensures Inv(c, s')
  {
    ReleaseMovesLock(s, s', t, tx', l);
    LockStepKeepsInv(c, s, s', t, tx', l);
  }

  lemma ReleaseMovesLock(s: State, s': State, t: Tid, tx': Tx, l: nat)
    requires LockInv(s) && EvenInv(s) && VersionInv(s) && t in s.txs && s.txs[t].wv > 0
    requires l < |s.locks| && GivesLock(s, s', t, tx', l, s.txs[t].wv) && SameRest(s, s', s.txs[t], tx')
    ensures LockInv(s') && LockMoves(s, s', t, tx', l) && Ver(s', l) % 2 == 0
  {
    assert VersionsOk(s, s.txs[t]);
    GivingMoves(s, s', t, tx', l, s.txs[t].wv);
  }

  lemma RollBackMoves(c: Config, s: State, t: Tid)
    requires Enabled(c, s, RollBackLock(t)) && LocalOk(c, s.txs[t])
    ensures var tx, tx', s' := s.txs[t], NextTx(c, s, RollBackLock(t)), Apply(c, s, RollBackLock(t));
      var l := tx.phase.order[tx.phase.i];
      LocalOk(c, tx') && GivesLock(s, s', t, tx', l, s.locks[l] - 1) && SameRest(s, s', tx, tx') && !Decided(tx)
  {
    ElemsDrop(s.txs[t].phase.order, s.txs[t].phase.i, s.txs[t].phase.stop);
  }

  lemma RollBackKeepsInv(c: Config, s: State, t: Tid, s': State, tx': Tx, l: nat)
    requires Inv(c, s) && t in s.txs && LocalOk(c, tx') && !Decided(s.txs[t])
    requires l < |s.locks| && GivesLock(s, s', t, tx', l, s.locks[l] - 1) && SameRest(s, s', s.txs[t], tx')
    ensures Inv(c, s')
  {
    RollBackMovesLock(s, s', t, tx', l);
    LockStepKeepsInv(c, s, s', t, tx', l);
  }

  lemma RollBackMovesLock(s: State, s': State, t: Tid, tx': Tx, l: nat)
    requires LockInv(s) && EvenInv(s) && t in s.txs && !Decided(s.txs[t])
    requires l < |s.locks| && GivesLock(s, s', t, tx', l, s.locks[l] - 1) && SameRest(s, s', s.txs[t], tx')
    ensures LockInv(s') && LockMoves(s, s', t, tx', l) && Ver(s', l) % 2 == 0
  {
    assert Ver(s, l) % 2 == 0 && Ver(s, l) <= s.gv;
    GivingMoves(s, s', t, tx', l, s.locks[l] - 1);
  }

  // ---- beginning

  lemma BeginKeepsLocks(s: State, s': State, t: Tid, tx': Tx)
    requires LockInv(s) && EvenInv(s) && t !in s.txs && SameShared(s, s') && s'.txs == s.txs[t := tx']
    requires tx'.rv == s.gv && tx'.wv == 0 && tx'.saved == map[]
    ensures LockInv(s') && EvenInv(s')
  {
    assert forall l :: 0 <= l < |s'.locks| ==> Ver(s', l) == Ver(s, l);
  }

  lemma BeginKeepsHistory(c: Config, s: State, s': State, t: Tid, tx': Tx)
    requires LockInv(s) && HistInv(s) && WrittenInv(c, s) && MemInv(c, s) && LockInv(s')
    requires t !in s.txs && SameShared(s, s') && s'.txs == s.txs[t := tx'] && tx'.phase == Running
    ensures HistInv(s') && WrittenInv(c, s') && MemInv(c, s')
  {
    forall x ensures Get(s'.mem, x) == Current(c, s', x) {
      assert Get(s.mem, x) == Current(c, s, x);
    }
  }

  lemma BeginKeepsReads(c: Config, s: State, s': State, t: Tid, tx': Tx)
    requires LockInv(s) && SeenInv(c, s) && ObsInv(c, s) && ConfirmedInv(c, s) && LockInv(s')
    requires t !in s.txs && SameShared(s, s') && s'.txs == s.txs[t := tx']
    requires tx'.phase == Running && tx'.readSet == {} && tx'.obs == {}
    ensures SeenInv(c, s') && ObsInv(c, s') && ConfirmedInv(c, s')
  {
    forall t1, p | t1 in s'.txs && p in s'.txs[t1].obs ensures ObsOk(c, s', s'.txs[t1].rv, p.0, p.1) {
      assert ObsOk(c, s, s.txs[t1].rv, p.0, p.1);
      assert Tainted(c, s, s.txs[t1].rv, p.0) == Tainted(c, s', s.txs[t1].rv, p.0);
    }
    forall t1, x | t1 in s'.txs && Confirmed(s'.txs[t1], x) ensures ConfirmedOk(c, s', t1, s'.txs[t1], x) {
      assert ConfirmedOk(c, s, t1, s.txs[t1], x);
    }
  }

  lemma BeginKeepsInv(c: Config, s: State, t: Tid, readOnly: bool, s': State)
    requires Inv(c, s) && Enabled(c, s, Begin(t, readOnly)) && s' == Apply(c, s, Begin(t, readOnly))
    ensures Inv(c, s')
  {
    var tx' := NextTx(c, s, Begin(t, readOnly));
    BeginKeepsLocks(s, s', t, tx');
    BeginKeepsHistory(c, s, s', t, tx');
    BeginKeepsReads(c, s, s', t, tx');
    assert LocalOk(c, tx') && VersionsOk(s', tx');
    assert forall t1 :: t1 in s.txs ==> VersionsOk(s', s'.txs[t1]) == VersionsOk(s, s.txs[t1]);
  }

  // ---- taking the write version

  /** Transaction `t`, holding its whole lock set, takes the next version. */
  ghost predicate Fetches(c: Config, s: State, s': State, t: Tid, tx': Tx) {
    && t in s.txs && s'.txs == s.txs[t := tx'] && s'.gv == s.gv + 2
    && s'.locks == s.locks && s'.mem == s.mem && s'.hist == s.hist && s'.owner == s.owner
    && s.txs[t].wv == 0 && tx'.wv == s'.gv && tx'.rv == s.txs[t].rv && tx'.saved == s.txs[t].saved
    && tx'.readSet == s.txs[t].readSet && tx'.obs == s.txs[t].obs
    && !Decided(s.txs[t]) && tx'.phase.Fetched? && LocalOk(c, tx')
  }

  lemma FetchMoves(c: Config, s: State, t: Tid)
    requires Enabled(c, s, FetchAdd(t)) && LocalOk(c, s.txs[t]) && s.gv >= 0
    ensures Fetches(c, s, Apply(c, s, FetchAdd(t)), t, NextTx(c, s, FetchAdd(t)))
  {
    assert s.txs[t].phase.order[..s.txs[t].phase.i] == s.txs[t].phase.order;
  }

  lemma FetchKeepsVersions(c: Config, s: State, s': State, t: Tid, tx': Tx)
    requires LocalInv(c, s) && VersionInv(s) && Fetches(c, s, s', t, tx')
    ensures LocalInv(c, s') && VersionInv(s')
  {
    assert VersionsOk(s, s.txs[t]);
    assert forall t1 :: t1 in s.txs && t1 != t ==> VersionsOk(s, s.txs[t1]) && VersionsOk(s', s'.txs[t1]);
  }

  lemma FetchKeepsLocks(c: Config, s: State, s': State, t: Tid, tx': Tx)
    requires LockInv(s) && EvenInv(s) && Fetches(c, s, s', t, tx')
    ensures LockInv(s') && EvenInv(s')
  {
    assert forall l :: 0 <= l < |s'.locks| ==> Ver(s', l) == Ver(s, l);
  }

  lemma FetchKeepsHistory(c: Config, s: State, s': State, t: Tid, tx': Tx)
    requires LockInv(s) && HistInv(s) && WrittenInv(c, s) && VersionInv(s) && LockInv(s') && Fetches(c, s, s', t, tx')
    ensures HistInv(s') && WrittenInv(c, s')
  {}

  lemma FetchKeepsMem(c: Config, s: State, s': State, t: Tid, tx': Tx)
    requires LockInv(s) && HistInv(s) && MemInv(c, s) && VersionInv(s) && LockInv(s') && Fetches(c, s, s', t, tx')
    ensures MemInv(c, s')
  {
    forall x ensures Get(s'.mem, x) == Current(c, s', x) {
      assert Get(s.mem, x) == Current(c, s, x);
      assert NotWritten(s.hist, s.gv, s.gv + 2, x) by {
        assert forall u :: u in s.hist ==> VersionsOk(s, s.txs[s.hist[u].tid]);
      }
      ValSkips(s.hist, s.gv, s.gv + 2, x);
    }
  }

  lemma FetchKeepsConditions(c: Config, s: State, s': State, t: Tid, tx': Tx)
    requires LockInv(s) && VersionInv(s) && LockInv(s') && Fetches(c, s, s', t, tx')
    ensures forall rv, x :: rv <= s.gv && SeenOk(c, s, rv, x) ==> SeenOk(c, s', rv, x)
    ensures forall rv, x, v :: ObsOk(c, s, rv, x, v) ==> ObsOk(c, s', rv, x, v)
    ensures forall t1, tx: Tx, x :: tx.wv <= s.gv && ConfirmedOk(c, s, t1, tx, x) ==> ConfirmedOk(c, s', t1, tx, x)
  {
    forall rv, x, v | ObsOk(c, s, rv, x, v) ensures ObsOk(c, s', rv, x, v) {
      assert Tainted(c, s, rv, x) == Tainted(c, s', rv, x);
    }
  }

  /** When nobody took a version since the transaction began, every read is still the snapshot. */
  lemma SkipIsConfirmed(c: Config, s: State, s': State, t: Tid, tx': Tx, x: Addr)
    requires LockInv(s) && HistInv(s) && VersionInv(s) && SeenInv(c, s) && ObsInv(c, s) && LockInv(s')
    requires Fetches(c, s, s', t, tx') && x in tx'.readSet && s.gv == tx'.rv
    ensures ConfirmedOk(c, s', t, tx', x)
  {
    var l := c.LockOf(x);
    assert forall t1 :: t1 in s.txs ==> VersionsOk(s, s.txs[t1]);
    assert SeenOk(c, s, tx'.rv, x);
    assert Ver(s, l) <= s.gv;
    assert !Tainted(c, s, tx'.rv, x);
    forall v | (x, v) in tx'.obs ensures v == Val(s'.hist, tx'.rv, x) {
      assert ObsOk(c, s, tx'.rv, (x, v).0, (x, v).1);
    }
  }

  lemma FetchKeepsReads(c: Config, s: State, s': State, t: Tid, tx': Tx)
    requires LockInv(s) && HistInv(s) && VersionInv(s) && SeenInv(c, s) && ObsInv(c, s) && ConfirmedInv(c, s)
    requires LockInv(s') && Fetches(c, s, s', t, tx')
    ensures SeenInv(c, s') && ObsInv(c, s') && ConfirmedInv(c, s')
  {
    FetchKeepsConditions(c, s, s', t, tx');
    assert forall t1 :: t1 in s.txs ==> VersionsOk(s, s.txs[t1]);
    forall t1, x | t1 in s'.txs && Confirmed(s'.txs[t1], x) ensures ConfirmedOk(c, s', t1, s'.txs[t1], x) {
      if t1 == t {
        SkipIsConfirmed(c, s, s', t, tx', x);
      } else {
        assert ConfirmedOk(c, s, t1, s.txs[t1], x);
      }
    }
  }

  lemma FetchKeepsInv(c: Config, s: State, s': State, t: Tid, tx': Tx)
    requires Inv(c, s) && Fetches(c, s, s', t, tx')
    ensures Inv(c, s')
  {
    FetchKeepsVersions(c, s, s', t, tx');
    FetchKeepsLocks(c, s, s', t, tx');
    FetchKeepsHistory(c, s, s', t, tx');
    FetchKeepsMem(c, s, s', t, tx');
    FetchKeepsReads(c, s, s', t, tx');
  }
}
