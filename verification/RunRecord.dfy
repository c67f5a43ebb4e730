/** What the records kept beside the protocol say: logs, version order, segments. */
module RunRecord {
  import opened Protocol
  import opened Replay
  import opened Reference
  import opened ProtocolInvariant
  import CommitSteps

  /** A transaction's log agrees with its write set and with what it copied from shared memory. */
  ghost predicate LogOk(tx: Tx) {
    && tx.writes == WritesOf(tx.log)
    && Overlay(tx.log, tx.obs)
    && (tx.readOnly ==> tx.writes == map[] && tx.allocs == [])
  }

  ghost predicate LogInv(s: State) {
    forall t :: t in s.txs ==> LogOk(s.txs[t])
  }

  predicate AddsToLog(step: Step) {
    step.CopyWord? || step.CheckAndCopy? || step.WriteWord? || step.Alloc?
  }

  lemma SilentKeepsLog(c: Config, s: State, step: Step)
    requires Enabled(c, s, step) && step.t in s.txs && !AddsToLog(step) && LogOk(s.txs[step.t])
    ensures LogOk(NextTx(c, s, step)) && NextTx(c, s, step).log == s.txs[step.t].log
  {}

  lemma CallKeepsLog(c: Config, s: State, step: Step)
    requires Enabled(c, s, step) && step.t in s.txs && AddsToLog(step) && LogOk(s.txs[step.t])
    ensures LogOk(NextTx(c, s, step)) && s.txs[step.t].log <= NextTx(c, s, step).log
  {
    var tx, tx' := s.txs[step.t], NextTx(c, s, step);
    if tx'.log != tx.log {
      assert tx'.log == tx.log + [tx'.log[|tx.log|]];
      OverlayExtends(tx.log, tx.obs, tx'.log[|tx.log|], tx'.obs);
    }
  }

  lemma StepKeepsLog(c: Config, s: State, step: Step)
    requires Enabled(c, s, step) && (step.t in s.txs ==> LogOk(s.txs[step.t]))
    ensures LogOk(NextTx(c, s, step))
    ensures step.t in s.txs ==> s.txs[step.t].log <= NextTx(c, s, step).log
  {
    if step.t in s.txs {
      if AddsToLog(step) {
        CallKeepsLog(c, s, step);
      } else {
        SilentKeepsLog(c, s, step);
      }
    }
  }

  /** Fields of a transaction that never change once set. */
  ghost predicate Continues(tx: Tx, tx': Tx) {
    && tx'.readOnly == tx.readOnly && tx'.rv == tx.rv && tx.log <= tx'.log && tx.obs <= tx'.obs
    && (tx.wv > 0 ==> tx'.wv == tx.wv)
    && (tx.phase.Committed? || tx.phase.Aborted? ==> tx' == tx)
  }

  lemma ReadContinues(c: Config, s: State, step: Step)
    requires Enabled(c, s, step) && step.t in s.txs && ReadStep(step)
    ensures Continues(s.txs[step.t], NextTx(c, s, step))
  {}

  lemma StepContinues(c: Config, s: State, step: Step)
    requires Enabled(c, s, step) && step.t in s.txs && LocalOk(c, s.txs[step.t])
    ensures Continues(s.txs[step.t], NextTx(c, s, step))
  {
    if ReadStep(step) {
      ReadContinues(c, s, step);
    }
  }

  // ---- segments

  /** How often segment `b` appears in the shared list, among the freed ones, and in its owner's `alloc_set`. */
  ghost function Places(s: State, b: Addr): nat
    requires b in s.bases && s.bases[b] in s.txs
  {
    multiset(s.segments)[b] + multiset(s.freed)[b] + multiset(s.txs[s.bases[b]].allocs)[b]
  }

  ghost predicate BasesOk(s: State) {
    && (forall b :: b in s.bases ==> b in s.home && s.home[b] == s.bases[b] && s.bases[b] in s.txs)
    && (forall t, b :: t in s.txs && b in s.txs[t].allocs ==> b in s.bases && s.bases[b] == t)
    && (forall b :: b in s.segments || b in s.freed ==> b in s.bases)
  }

  ghost predicate PlacesOk(s: State)
    requires BasesOk(s)
  {
    && (forall b :: b in s.bases ==> Places(s, b) == 1)
    && (forall b :: b in s.segments ==> s.txs[s.bases[b]].phase.Committed?)
    && (forall b :: b in s.freed ==> s.txs[s.bases[b]].phase.Aborted?)
    && (forall t :: t in s.txs && (s.txs[t].phase.Committed? || s.txs[t].phase.Aborted?) ==> s.txs[t].allocs == [])
  }

  /** Every allocated word belongs to the transaction that allocated it, and to nobody else. */
  ghost predicate HomeOk(c: Config, s: State) {
    && s.home.Keys !! c.root
    && (forall y :: y in s.home ==> s.home[y] in s.txs)
    && (forall t, i :: t in s.txs && 0 <= i < |s.txs[t].log| && s.txs[t].log[i].EvAlloc? ==>
          && s.txs[t].log[i].base in s.bases && s.bases[s.txs[t].log[i].base] == t
          && forall y :: y in Block(s.txs[t].log[i].base, s.txs[t].log[i].n) ==> y in s.home && s.home[y] == t)
  }

  ghost predicate SegmentInv(c: Config, s: State) {
    BasesOk(s) && PlacesOk(s) && HomeOk(c, s)
  }

  /** `tx` hands its segments over: to the shared list when it commits, to `free` when it aborts. */
  ghost predicate HandsOver(s: State, s': State, tx: Tx, tx': Tx) {
    && tx'.allocs == [] && !tx.phase.Committed? && !tx.phase.Aborted?
    && (|| (tx'.phase.Committed? && s'.segments == s.segments + tx.allocs && s'.freed == s.freed)
        || (tx'.phase.Aborted? && s'.segments == s.segments && s'.freed == s.freed + tx.allocs))
  }

  ghost predicate KeepsSegments(s: State, s': State, tx: Tx, tx': Tx) {
    && tx'.allocs == tx.allocs && s'.segments == s.segments && s'.freed == s.freed
    && !tx.phase.Committed? && !tx.phase.Aborted?
    && (tx'.phase.Committed? || tx'.phase.Aborted? ==> tx'.allocs == [])
  }

  ghost predicate AddsNoAlloc(log: seq<Event>, log': seq<Event>) {
    log' == log || (|log'| == |log| + 1 && log'[..|log|] == log && !log'[|log|].EvAlloc?)
  }

  /** How a step that is not an allocation treats segments. */
  ghost predicate MovesSegments(s: State, s': State, t: Tid, tx: Tx, tx': Tx) {
    && s'.txs == s.txs[t := tx'] && s'.home == s.home && s'.bases == s.bases
    && AddsNoAlloc(tx.log, tx'.log)
    && (HandsOver(s, s', tx, tx') || KeepsSegments(s, s', tx, tx'))
  }

  lemma CheckMovesSegments(c: Config, s: State, step: Step)
    requires Enabled(c, s, step) && step.t in s.txs && (step.FirstCheck? || step.SecondCheck? || step.ValidateWord?)
    ensures MovesSegments(s, Apply(c, s, step), step.t, s.txs[step.t], NextTx(c, s, step))
  {}

  lemma CopyMovesSegments(c: Config, s: State, step: Step)
    requires Enabled(c, s, step) && step.t in s.txs && (step.CopyWord? || step.CheckAndCopy?)
    ensures MovesSegments(s, Apply(c, s, step), step.t, s.txs[step.t], NextTx(c, s, step))
  {}

  lemma CallMovesSegments(c: Config, s: State, step: Step)
    requires Enabled(c, s, step) && step.t in s.txs && !step.Alloc? && LogOk(s.txs[step.t]) && Private(step)
    ensures MovesSegments(s, Apply(c, s, step), step.t, s.txs[step.t], NextTx(c, s, step))
  {}

  lemma CommitMovesSegments(c: Config, s: State, step: Step)
    requires Enabled(c, s, step) && step.t in s.txs && !Private(step) && !ReadStep(step) && !step.ValidateWord?
    ensures MovesSegments(s, Apply(c, s, step), step.t, s.txs[step.t], NextTx(c, s, step))
  {}

  lemma MoveKeepsBases(s: State, s': State, t: Tid, tx': Tx)
    requires BasesOk(s) && t in s.txs && MovesSegments(s, s', t, s.txs[t], tx')
    ensures BasesOk(s')
  {}

  lemma MoveKeepsPlaces(s: State, s': State, t: Tid, tx': Tx)
    requires BasesOk(s) && PlacesOk(s) && t in s.txs && MovesSegments(s, s', t, s.txs[t], tx') && BasesOk(s')
    ensures PlacesOk(s')
  {
    forall b | b in s'.bases ensures Places(s', b) == 1 {
      MoveKeepsPlace(s, s', t, tx', b);
    }
  }

  lemma MoveKeepsPlace(s: State, s': State, t: Tid, tx': Tx, b: Addr)
    requires BasesOk(s) && PlacesOk(s) && t in s.txs && MovesSegments(s, s', t, s.txs[t], tx') && BasesOk(s')
    requires b in s.bases
    ensures Places(s', b) == 1
  {
    assert Places(s, b) == 1;
    assert b in s.txs[t].allocs ==> s.bases[b] == t;
    assert b in multiset(s.txs[t].allocs) <==> b in s.txs[t].allocs;
  }

  lemma MoveKeepsHome(c: Config, s: State, s': State, t: Tid, tx': Tx)
    requires HomeOk(c, s) && t in s.txs && MovesSegments(s, s', t, s.txs[t], tx')
    ensures HomeOk(c, s')
  {}

  /** Transaction `t` gets a segment none of whose words has an owner yet. */
  ghost predicate Allocates(c: Config, s: State, s': State, t: Tid, tx': Tx, base: Addr, n: nat) {
    && t in s.txs && s.txs[t].phase.Running? && base !in s.home
    && Block(base, n) !! s.home.Keys && Block(base, n) !! c.root
    && s'.txs == s.txs[t := tx'] && s'.segments == s.segments && s'.freed == s.freed
    && s'.home == s.home + (map y | y in Block(base, n) :: t) && s'.bases == s.bases[base := t]
    && tx' == s.txs[t].(allocs := s.txs[t].allocs + [base], log := s.txs[t].log + [EvAlloc(base, n)])
  }

  lemma AllocMoves(c: Config, s: State, step: Step)
    requires Enabled(c, s, step) && step.Alloc?
    ensures Allocates(c, s, Apply(c, s, step), step.t, NextTx(c, s, step), step.base, step.n)
  {
    assert step.base in Block(step.base, step.n);
  }

  lemma AllocKeepsBases(c: Config, s: State, s': State, t: Tid, tx': Tx, base: Addr, n: nat)
    requires BasesOk(s) && Allocates(c, s, s', t, tx', base, n)
    ensures BasesOk(s')
  {
    assert base in Block(base, n);
  }

  lemma AllocPlaces(c: Config, s: State, s': State, t: Tid, tx': Tx, base: Addr, n: nat, b: Addr)
    requires BasesOk(s) && Allocates(c, s, s', t, tx', base, n) && BasesOk(s') && b in s'.bases
    requires b in s.bases ==> Places(s, b) == 1
    ensures Places(s', b) == 1
  {
    if b == base {
      assert base !in s.segments && base !in s.freed && base !in s.txs[t].allocs;
    }
  }

  lemma AllocKeepsPlaces(c: Config, s: State, s': State, t: Tid, tx': Tx, base: Addr, n: nat)
    requires BasesOk(s) && PlacesOk(s) && Allocates(c, s, s', t, tx', base, n) && BasesOk(s')
    ensures PlacesOk(s')
  {
    forall b | b in s'.bases ensures Places(s', b) == 1 {
      AllocPlaces(c, s, s', t, tx', base, n, b);
    }
  }

  lemma AllocKeepsHome(c: Config, s: State, s': State, t: Tid, tx': Tx, base: Addr, n: nat)
    requires HomeOk(c, s) && Allocates(c, s, s', t, tx', base, n)
    ensures HomeOk(c, s')
  {
    forall t1, i | t1 in s'.txs && 0 <= i < |s'.txs[t1].log| && s'.txs[t1].log[i].EvAlloc?
      ensures s'.txs[t1].log[i].base in s'.bases && s'.bases[s'.txs[t1].log[i].base] == t1
      ensures forall y :: y in Block(s'.txs[t1].log[i].base, s'.txs[t1].log[i].n) ==> y in s'.home && s'.home[y] == t1
    {
      var e := s'.txs[t1].log[i];
      if t1 != t || i < |s.txs[t].log| {
        assert s.txs[t1].log[i] == e;
        assert e.base in Block(e.base, e.n);
      }
    }
  }

  lemma BeginKeepsSegments(c: Config, s: State, t: Tid, s': State, tx': Tx)
    requires SegmentInv(c, s) && t !in s.txs && s'.txs == s.txs[t := tx'] && s'.segments == s.segments
    requires s'.freed == s.freed && s'.home == s.home && s'.bases == s.bases
    requires tx'.allocs == [] && tx'.log == []
    ensures SegmentInv(c, s')
  {
    forall b | b in s'.bases ensures Places(s', b) == 1 {
      assert Places(s, b) == 1;
    }
  }

  lemma StepKeepsSegments(c: Config, s: State, step: Step)
    requires Enabled(c, s, step) && SegmentInv(c, s) && LogInv(s)
    ensures SegmentInv(c, Apply(c, s, step))
  {
    var s', tx' := Apply(c, s, step), NextTx(c, s, step);
    if step.Begin? {
      BeginKeepsSegments(c, s, step.t, s', tx');
    } else if step.Alloc? {
      AllocMoves(c, s, step);
      AllocKeepsBases(c, s, s', step.t, tx', step.base, step.n);
      AllocKeepsPlaces(c, s, s', step.t, tx', step.base, step.n);
      AllocKeepsHome(c, s, s', step.t, tx', step.base, step.n);
    } else {
      if Private(step) {
        CallMovesSegments(c, s, step);
      } else if step.CopyWord? || step.CheckAndCopy? {
        CopyMovesSegments(c, s, step);
      } else if step.FirstCheck? || step.SecondCheck? || step.ValidateWord? {
        CheckMovesSegments(c, s, step);
      } else {
        CommitMovesSegments(c, s, step);
      }
      MoveKeepsBases(s, s', step.t, tx');
      MoveKeepsPlaces(s, s', step.t, tx');
      MoveKeepsHome(c, s, s', step.t, tx');
    }
  }

  // ---- where values come from

  /** `v` was written to `x` by commit `u` (or is the initial zero), and `u` is no older than any commit
      up to version `rv` that writes `x`. */
  ghost predicate FromCommit(h: map<int, Commit>, rv: int, x: Addr, v: Word, u: int) {
    && (if u == 0 then v == 0 else u in h && x in h[u].writes && h[u].writes[x] == v)
    && (forall u' :: u' in h && u' <= rv && x in h[u'].writes ==> u' <= u)
  }

  /** No value is read that no transaction committed, whatever the interleaving. */
  ghost predicate SourceInv(s: State) {
    forall t, p :: t in s.txs && p in s.txs[t].obs ==> exists u :: FromCommit(s.hist, s.txs[t].rv, p.0, p.1, u)
  }

  lemma ReplayHasSource(h: map<int, Commit>, rv: int, w: int, x: Addr) returns (u: int)
    requires rv <= w && (forall u' :: u' in h ==> u' > 0)
    ensures FromCommit(h, rv, x, Val(h, w, x), u)
  {
    u := ValWriter(h, w, x);
  }

  /** A copy from shared memory returns a committed value, at least as new as the read version. */
  lemma CopyHasSource(c: Config, s: State, rv: int, x: Addr) returns (u: int)
    requires LockInv(s) && Get(s.mem, x) == Current(c, s, x) && rv <= s.gv && SeenOk(c, s, rv, x)
    requires forall u' :: u' in s.hist ==> u' > 0
    requires forall t :: t in s.txs && Decided(s.txs[t]) ==> s.txs[t].wv > 0
    ensures FromCommit(s.hist, rv, x, Get(s.mem, x), u)
  {
    var l := c.LockOf(x);
    if l in s.owner && Pending(s.txs[s.owner[l]], x) {
      u := ReplayHasSource(s.hist, rv, s.txs[s.owner[l]].wv - 1, x);
    } else {
      u := ReplayHasSource(s.hist, rv, s.gv, x);
    }
  }

  lemma CommitsArePositive(c: Config, s: State)
    requires LocalInv(c, s) && HistInv(s)
    ensures forall t :: t in s.txs && Decided(s.txs[t]) ==> s.txs[t].wv > 0
    ensures forall u :: u in s.hist ==> u > 0
  {
    forall t | t in s.txs && Decided(s.txs[t]) ensures s.txs[t].wv > 0 {
      assert LocalOk(c, s.txs[t]);
    }
  }

  lemma CopyAdds(c: Config, s: State, step: Step, p: (Addr, Word))
    requires Enabled(c, s, step) && (step.t in s.txs ==> LocalOk(c, s.txs[step.t]))
    requires p in NextTx(c, s, step).obs && (step.t in s.txs ==> p !in s.txs[step.t].obs)
    ensures step.t in s.txs && ReadStep(step) && p.0 in s.txs[step.t].readSet && p.1 == Get(s.mem, p.0)
    ensures NextTx(c, s, step).rv == s.txs[step.t].rv && Apply(c, s, step).hist == s.hist
  {}

  lemma StepKeepsSource(c: Config, s: State, step: Step)
    requires Inv(c, s) && Enabled(c, s, step) && SourceInv(s)
    ensures SourceInv(Apply(c, s, step))
  {
    var s', tx' := Apply(c, s, step), NextTx(c, s, step);
    forall t1, p | t1 in s'.txs && p in s'.txs[t1].obs
      ensures exists u :: FromCommit(s'.hist, s'.txs[t1].rv, p.0, p.1, u)
    {
      SourceAt(c, s, step, t1, p);
    }
  }

  lemma SourceAt(c: Config, s: State, step: Step, t1: Tid, p: (Addr, Word))
    requires Inv(c, s) && Enabled(c, s, step) && SourceInv(s)
    requires var s' := Apply(c, s, step); t1 in s'.txs && p in s'.txs[t1].obs
    ensures var s' := Apply(c, s, step); exists u :: FromCommit(s'.hist, s'.txs[t1].rv, p.0, p.1, u)
  {
    if t1 in s.txs && p in s.txs[t1].obs {
      SourceStays(c, s, step, t1, p);
      if t1 == step.t {
        StepContinues(c, s, step);
      }
    } else {
      assert t1 == step.t && (t1 in s.txs ==> LocalOk(c, s.txs[t1]));
      CopyAdds(c, s, step, p);
      assert VersionsOk(s, s.txs[t1]) && SeenOk(c, s, s.txs[t1].rv, p.0);
      CommitsArePositive(c, s);
      assert Get(s.mem, p.0) == Current(c, s, p.0);
      var u := CopyHasSource(c, s, s.txs[t1].rv, p.0);
    }
  }

  lemma HistoryStays(c: Config, s: State, step: Step)
    requires Enabled(c, s, step) && !step.SkipValidation? && !step.FinishValidation?
    ensures Apply(c, s, step).hist == s.hist
  {}

  /** A decision cannot add a commit at or below a read version that has seen the word. */
  lemma DecisionIsLate(c: Config, s: State, step: Step, rv: int, x: Addr)
    requires LockInv(s) && HistInv(s) && VersionInv(s) && SeenOk(c, s, rv, x)
    requires Enabled(c, s, step) && (step.SkipValidation? || step.FinishValidation?) && LocalOk(c, s.txs[step.t])
    ensures s.txs[step.t].wv !in s.hist && s.txs[step.t].wv > 0
    ensures x in s.txs[step.t].writes ==> s.txs[step.t].wv > rv
  {
    if x in s.txs[step.t].writes {
      WriteLockIsHeld(c, s.txs[step.t], x);
    }
  }

  lemma SourceExtends(h: map<int, Commit>, w: int, e: Commit, rv: int, x: Addr, v: Word, u: int)
    requires FromCommit(h, rv, x, v, u) && w !in h && w > 0 && (x in e.writes ==> w > rv)
    ensures FromCommit(h[w := e], rv, x, v, u)
  {}

  lemma SourceStays(c: Config, s: State, step: Step, t1: Tid, p: (Addr, Word))
    requires Inv(c, s) && Enabled(c, s, step) && SourceInv(s) && t1 in s.txs && p in s.txs[t1].obs
    ensures exists u :: FromCommit(Apply(c, s, step).hist, s.txs[t1].rv, p.0, p.1, u)
  {
    var u :| FromCommit(s.hist, s.txs[t1].rv, p.0, p.1, u);
    if step.SkipValidation? || step.FinishValidation? {
      assert LocalOk(c, s.txs[t1]) && LocalOk(c, s.txs[step.t]);
      assert SeenOk(c, s, s.txs[t1].rv, p.0);
      DecisionIsLate(c, s, step, s.txs[t1].rv, p.0);
      SourceExtends(s.hist, s.txs[step.t].wv, Commit(step.t, s.txs[step.t].writes), s.txs[t1].rv, p.0, p.1, u);
    } else {
      HistoryStays(c, s, step);
    }
    assert FromCommit(Apply(c, s, step).hist, s.txs[t1].rv, p.0, p.1, u);
  }

  /** The first read of a log was copied from shared memory. */
  lemma ReadIsObserved(tx: Tx, x: Addr)
    requires LogOk(tx) && |tx.log| > 0 && tx.log[0].EvRead? && tx.log[0].x == x
    ensures (x, tx.log[0].v) in tx.obs
  {
    assert OverlayAt(tx.log, tx.obs, 0);
    assert tx.log[..0] == [];
  }

  // ---- everything together

  ghost predicate Good(c: Config, s: State) {
    Inv(c, s) && LogInv(s) && SegmentInv(c, s) && SourceInv(s)
  }

  lemma InitIsGood(c: Config)
    ensures Good(c, Init())
  {
    InitHolds(c);
  }

  lemma StepKeepsGood(c: Config, s: State, step: Step)
    requires Good(c, s) && Enabled(c, s, step)
    ensures Good(c, Apply(c, s, step))
  {
    CommitSteps.StepKeepsInv(c, s, step);
    StepKeepsLog(c, s, step);
    StepKeepsSegments(c, s, step);
    StepKeepsSource(c, s, step);
  }

  /** Everything holds in every state of every run, for any number of transactions. */
  lemma {:induction false} RunIsGood(c: Config, steps: seq<Step>, trace: seq<State>, i: nat)
    requires Run(c, steps, trace) && i <= |steps|
    ensures Good(c, trace[i])
  {
    if i == 0 {
      InitIsGood(c);
    } else {
      RunIsGood(c, steps, trace, i - 1);
      assert Moved(c, steps, trace, i - 1);
      StepKeepsGood(c, trace[i - 1], steps[i - 1]);
    }
  }

  lemma ReachableGood(c: Config, s: State)
    requires Reachable(c, s)
    ensures Good(c, s)
  {
    var steps, trace :| Run(c, steps, trace) && trace[|steps|] == s;
    RunIsGood(c, steps, trace, |steps|);
  }
}
