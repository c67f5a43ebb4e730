/** Running one transaction from begin to end while the others stand still. It always works when no lock is
    held or newer than the counter: so whatever the reference can do serially, the manager can do. */
module SoloRuns {
  import opened VersionLock
  import opened Protocol
  import opened Reference

  /** Nobody holds a lock, and no lock is newer than `rv`. */
  ghost predicate Calm(s: State, rv: int) {
    forall l :: 0 <= l < |s.locks| ==> !Locked(s.locks[l]) && s.locks[l] <= rv
  }

  /** Any transaction that begins now and is left alone will commit. */
  ghost predicate Settled(s: State) {
    |s.locks| == LOCK_ARRAY_SIZE && Calm(s, s.gv) && s.gv % 2 == 0
  }

  /** Words that were never handed out. */
  ghost predicate Unused(c: Config, s: State, words: set<Addr>) {
    words !! s.home.Keys && words !! c.root && words !! s.mem.Keys
  }

  /** Nobody but `t` has moved. */
  ghost predicate OthersRest(s: State, s': State, t: Tid) {
    forall u :: u != t ==> (u in s'.txs <==> u in s.txs) && (u in s.txs ==> s'.txs[u] == s.txs[u])
  }

  /** Nothing shared has changed either. */
  ghost predicate Alone(s: State, s': State, t: Tid) {
    t in s'.txs && OthersRest(s, s', t) && s'.gv == s.gv && s'.locks == s.locks && s'.mem == s.mem && s'.hist == s.hist
  }

  /** Only the place in the code has changed, or what has been looked at. */
  ghost predicate SameCalls(tx: Tx, tx': Tx) {
    && tx'.readOnly == tx.readOnly && tx'.rv == tx.rv && tx'.wv == tx.wv && tx'.saved == tx.saved
    && tx'.log == tx.log && tx'.writes == tx.writes
  }

  /** One more call has been made. */
  ghost predicate Called(tx: Tx, tx': Tx, e: Event) {
    && tx'.readOnly == tx.readOnly && tx'.rv == tx.rv && tx'.wv == tx.wv && tx'.saved == tx.saved
    && tx'.log == tx.log + [e] && tx'.writes == (if e.EvWrite? then tx.writes[e.x := e.v] else tx.writes)
  }

  /** Transaction `t` is between two calls, and nothing stands in its way. */
  ghost predicate Ready(s: State, t: Tid) {
    && |s.locks| == LOCK_ARRAY_SIZE && t in s.txs && s.txs[t].phase.Running? && Calm(s, s.txs[t].rv)
    && (s.txs[t].readOnly ==> s.txs[t].writes == map[])
  }

  // ---- calls

  /** The words the allocator does not hand out any more. */
  ghost function Taken(c: Config, s: State): set<Addr> {
    c.root + s.home.Keys + s.mem.Keys
  }

  ghost function Gets(e: Event): set<Addr> {
    if e.EvAlloc? then Block(e.base, e.n) else {}
  }

  lemma SoloCheck(c: Config, s0: State, s: State, t: Tid, x: Addr) returns (s': State)
    requires Leads(c, s0, s) && Ready(s, t)
    ensures Leads(c, s0, s') && Alone(s, s', t) && s'.home == s.home
    ensures s'.txs[t].phase == Checked(x) && SameCalls(s.txs[t], s'.txs[t])
  {
    StepLeads(c, s0, s, FirstCheck(t, x));
    s' := Apply(c, s, FirstCheck(t, x));
  }

  /** Both checks, up to the copy. */
  lemma SoloChecks(c: Config, s0: State, s: State, t: Tid, x: Addr) returns (s': State)
    requires !c.fusedRead && Leads(c, s0, s) && Ready(s, t)
    ensures Leads(c, s0, s') && Alone(s, s', t) && s'.home == s.home
    ensures s'.txs[t].phase == Rechecked(x) && SameCalls(s.txs[t], s'.txs[t])
  {
    var s1 := SoloCheck(c, s0, s, t, x);
    StepLeads(c, s0, s1, SecondCheck(t));
    s' := Apply(c, s1, SecondCheck(t));
  }

  lemma SoloCopy(c: Config, s0: State, s: State, t: Tid, x: Addr) returns (s': State)
    requires Leads(c, s0, s) && |s.locks| == LOCK_ARRAY_SIZE && t in s.txs && s.txs[t].phase == Rechecked(x)
    requires s.txs[t].readOnly ==> s.txs[t].writes == map[]
    ensures Leads(c, s0, s') && Alone(s, s', t) && s'.home == s.home && s'.txs[t].phase.Running?
    ensures Called(s.txs[t], s'.txs[t], EvRead(x, Get(s.mem + s.txs[t].writes, x)))
  {
    StepLeads(c, s0, s, CopyWord(t));
    s' := Apply(c, s, CopyWord(t));
  }

  lemma SoloRead(c: Config, s0: State, s: State, t: Tid, x: Addr) returns (s': State)
    requires Leads(c, s0, s) && Ready(s, t)
    ensures Leads(c, s0, s') && Alone(s, s', t) && s'.home == s.home && s'.txs[t].phase.Running?
    ensures Called(s.txs[t], s'.txs[t], EvRead(x, Get(s.mem + s.txs[t].writes, x)))
  {
    if c.fusedRead {
      var s1 := SoloCheck(c, s0, s, t, x);
      StepLeads(c, s0, s1, CheckAndCopy(t));
      s' := Apply(c, s1, CheckAndCopy(t));
    } else {
      var s1 := SoloChecks(c, s0, s, t, x);
      s' := SoloCopy(c, s0, s1, t, x);
    }
  }

  lemma SoloWrite(c: Config, s0: State, s: State, t: Tid, x: Addr, v: Word) returns (s': State)
    requires Leads(c, s0, s) && Ready(s, t) && !s.txs[t].readOnly
    ensures Leads(c, s0, s') && Alone(s, s', t) && s'.home == s.home && s'.txs[t].phase.Running?
    ensures Called(s.txs[t], s'.txs[t], EvWrite(x, v))
  {
    StepLeads(c, s0, s, WriteWord(t, x, v));
    s' := Apply(c, s, WriteWord(t, x, v));
  }

  lemma SoloAlloc(c: Config, s0: State, s: State, t: Tid, base: Addr, n: nat) returns (s': State)
    requires Leads(c, s0, s) && Ready(s, t) && !s.txs[t].readOnly && Block(base, n) !! Taken(c, s)
    ensures Leads(c, s0, s') && Alone(s, s', t) && s'.txs[t].phase.Running?
    ensures Called(s.txs[t], s'.txs[t], EvAlloc(base, n)) && s'.home.Keys == s.home.Keys + Block(base, n)
  {
    StepLeads(c, s0, s, Alloc(t, base, n));
    s' := Apply(c, s, Alloc(t, base, n));
  }

  /** A call that the reference can make on shared memory overlaid with the own writes. */
  lemma SoloCall(c: Config, s0: State, s: State, t: Tid, e: Event) returns (s': State)
    requires Leads(c, s0, s) && Ready(s, t) && (s.txs[t].readOnly ==> e.EvRead?)
    requires RunCall(s.mem + s.txs[t].writes, e).Memory? && Gets(e) !! Taken(c, s)
    ensures Leads(c, s0, s') && Alone(s, s', t) && s'.txs[t].phase.Running? && Called(s.txs[t], s'.txs[t], e)
    ensures s'.home.Keys == s.home.Keys + Gets(e)
    ensures RunCall(s.mem + s.txs[t].writes, e) == Memory(s.mem + s'.txs[t].writes)
  {
    match e {
      case EvRead(x, v) =>
        s' := SoloRead(c, s0, s, t, x);
      case EvWrite(x, v) =>
        s' := SoloWrite(c, s0, s, t, x, v);
        assert s.mem + s.txs[t].writes[x := v] == (s.mem + s.txs[t].writes)[x := v];
      case EvAlloc(base, n) =>
        s' := SoloAlloc(c, s0, s, t, base, n);
    }
  }

  /** The words a log allocates. */
  ghost function Allocated(log: seq<Event>): set<Addr> {
    if |log| == 0 then {}
    else Allocated(log[..|log| - 1]) + Gets(log[|log| - 1])
  }

  /** Every allocation of the log gets words outside `taken`, and that it did not get before. */
  ghost predicate Obtainable(taken: set<Addr>, log: seq<Event>) {
    forall i :: 0 <= i < |log| && log[i].EvAlloc? ==>
      Block(log[i].base, log[i].n) !! taken && Block(log[i].base, log[i].n) !! Allocated(log[..i])
  }

  lemma {:induction false} RunPrefix(m: map<Addr, Word>, log: seq<Event>, n: nat)
    requires RunLog(m, log).Memory? && n <= |log|
    ensures RunLog(m, log[..n]).Memory?
    decreases |log|
  {
    if n < |log| {
      var most := log[..|log| - 1];
      assert most[..n] == log[..n];
      RunPrefix(m, most, n);
    } else {
      assert log[..n] == log;
    }
  }

  lemma NextCallRuns(c: Config, s: State, s1: State, t: Tid, log: seq<Event>, n: nat)
    requires RunLog(s.mem, log).Memory? && Obtainable(Taken(c, s), log) && n < |log| && t in s1.txs
    requires RunLog(s.mem, log[..n]) == Memory(s.mem + s1.txs[t].writes) && s1.mem == s.mem
    requires s1.home.Keys == s.home.Keys + Allocated(log[..n])
    ensures RunCall(s1.mem + s1.txs[t].writes, log[n]).Memory? && Gets(log[n]) !! Taken(c, s1)
    ensures RunLog(s.mem, log[..n + 1]) == RunCall(s1.mem + s1.txs[t].writes, log[n])
    ensures s1.home.Keys + Gets(log[n]) == s.home.Keys + Allocated(log[..n + 1])
    ensures log[..n + 1] == log[..n] + [log[n]]
  {
    RunPrefix(s.mem, log, n + 1);
    RunsOn(s.mem, log, n);
  }

  lemma RunsOn(m: map<Addr, Word>, log: seq<Event>, n: nat)
    requires n < |log|
    ensures log[..n + 1] == log[..n] + [log[n]] && Allocated(log[..n + 1]) == Allocated(log[..n]) + Gets(log[n])
    ensures RunLog(m, log[..n + 1]) ==
      match RunLog(m, log[..n]) { case Mismatch => Outcome.Mismatch case Memory(m1) => RunCall(m1, log[n]) }
  {
    assert log[..n + 1][..n] == log[..n];
  }

  /** The first `n` calls of a log that the reference can run. */
  lemma {:induction false} SoloCalls(c: Config, s0: State, s: State, t: Tid, log: seq<Event>, n: nat)
    returns (s': State)
    requires Leads(c, s0, s) && Ready(s, t) && s.txs[t].writes == map[] && s.txs[t].log == [] && n <= |log|
    requires RunLog(s.mem, log).Memory? && Obtainable(Taken(c, s), log)
    requires s.txs[t].readOnly ==> forall i :: 0 <= i < |log| ==> log[i].EvRead?
    ensures Leads(c, s0, s') && Alone(s, s', t) && Ready(s', t)
    ensures s'.home.Keys == s.home.Keys + Allocated(log[..n])
    ensures s'.txs[t].log == log[..n] && s'.txs[t].readOnly == s.txs[t].readOnly && s'.txs[t].rv == s.txs[t].rv
    ensures s'.txs[t].wv == s.txs[t].wv && s'.txs[t].saved == s.txs[t].saved
    ensures RunLog(s.mem, log[..n]) == Memory(s.mem + s'.txs[t].writes)
  {
    if n == 0 {
      s' := s;
      assert log[..0] == [] && s.mem + map[] == s.mem;
    } else {
      var s1 := SoloCalls(c, s0, s, t, log, n - 1);
      NextCallRuns(c, s, s1, t, log, n - 1);
      s' := SoloCall(c, s0, s1, t, log[n - 1]);
    }
  }

  // ---- the end

  lemma {:induction false} SomeOrder<T>(keys: set<T>) returns (order: seq<T>)
    ensures Visits(order, keys)
    decreases keys
  {
    if keys == {} {
      order := [];
    } else {
      var k :| k in keys;
      var rest := SomeOrder(keys - {k});
      order := rest + [k];
      assert Elems(order) == Elems(rest) + {k};
    }
  }

  /** `locks` with the lock bit set on the first `i` of `order`. */
  ghost predicate LockedUpTo(locks: seq<int>, locks': seq<int>, order: seq<nat>, i: nat)
    requires i <= |order|
  {
    |locks'| == |locks| &&
    forall l :: 0 <= l < |locks| ==> locks'[l] == locks[l] + (if l in order[..i] then 1 else 0)
  }

  ghost predicate InRange(order: seq<nat>) {
    forall k :: 0 <= k < |order| ==> order[k] < LOCK_ARRAY_SIZE
  }

  lemma SoloAcquire(c: Config, s0: State, s: State, t: Tid, order: seq<nat>, i: nat) returns (s': State)
    requires Leads(c, s0, s) && |s.locks| == LOCK_ARRAY_SIZE && InRange(order) && i < |order|
    requires t in s.txs && s.txs[t].phase == Locking(order, i) && !Locked(s.locks[order[i]])
    ensures Leads(c, s0, s') && t in s'.txs && OthersRest(s, s', t)
    ensures s'.gv == s.gv && s'.mem == s.mem && s'.hist == s.hist
    ensures s'.home == s.home && s'.locks == s.locks[order[i] := s.locks[order[i]] + 1]
    ensures s'.txs[t] == s.txs[t].(phase := Locking(order, i + 1), saved := s'.txs[t].saved)
  {
    StepLeads(c, s0, s, LoadLock(t));
    var s1 := Apply(c, s, LoadLock(t));
    StepLeads(c, s0, s1, CasLock(t));
    s' := Apply(c, s1, CasLock(t));
  }

  lemma {:induction false} SoloAcquireAll(c: Config, s0: State, s: State, t: Tid, order: seq<nat>, i: nat)
    returns (s': State)
    requires Leads(c, s0, s) && |s.locks| == LOCK_ARRAY_SIZE && InRange(order) && Distinct(order) && i <= |order|
    requires t in s.txs && s.txs[t].phase == Locking(order, 0) && Calm(s, s.gv)
    ensures Leads(c, s0, s') && t in s'.txs && OthersRest(s, s', t)
    ensures s'.gv == s.gv && s'.mem == s.mem && s'.hist == s.hist
    ensures s'.home == s.home && LockedUpTo(s.locks, s'.locks, order, i)
    ensures s'.txs[t] == s.txs[t].(phase := Locking(order, i), saved := s'.txs[t].saved)
  {
    if i == 0 {
      s' := s;
    } else {
      var s1 := SoloAcquireAll(c, s0, s, t, order, i - 1);
      assert order[i - 1] !in order[..i - 1] && order[..i] == order[..i - 1] + [order[i - 1]];
      s' := SoloAcquire(c, s0, s1, t, order, i - 1);
    }
  }

  lemma SoloDecide(c: Config, s0: State, s: State, t: Tid, order: seq<nat>, ws: seq<Addr>) returns (s': State)
    requires Leads(c, s0, s) && |s.locks| == LOCK_ARRAY_SIZE && t in s.txs && s.txs[t].phase == Locking(order, |order|)
    requires s.txs[t].rv == s.gv && Visits(ws, s.txs[t].writes.Keys)
    ensures Leads(c, s0, s') && t in s'.txs && OthersRest(s, s', t)
    ensures s'.gv == s.gv + 2 && s'.mem == s.mem && s'.locks == s.locks
    ensures s'.hist == s.hist[s.gv + 2 := Commit(t, s.txs[t].writes)] && s'.home == s.home
    ensures s'.txs[t] == s.txs[t].(phase := Publishing(order, ws, 0), wv := s.gv + 2)
  {
    StepLeads(c, s0, s, FetchAdd(t));
    var s1 := Apply(c, s, FetchAdd(t));
    StepLeads(c, s0, s1, SkipValidation(t, ws));
    s' := Apply(c, s1, SkipValidation(t, ws));
  }

  /** `mem` with the first `k` words of `ws` written. */
  ghost function Written(mem: map<Addr, Word>, writes: map<Addr, Word>, ws: seq<Addr>, k: nat): map<Addr, Word>
    requires k <= |ws|
  {
    if k == 0 then mem else Written(mem, writes, ws, k - 1)[ws[k - 1] := Get(writes, ws[k - 1])]
  }

  lemma {:induction false} WrittenAt(mem: map<Addr, Word>, writes: map<Addr, Word>, ws: seq<Addr>, k: nat)
    requires k <= |ws| && forall j :: 0 <= j < |ws| ==> ws[j] in writes
    ensures forall x :: x in Written(mem, writes, ws, k) <==> x in mem || x in ws[..k]
    ensures forall x :: x in Written(mem, writes, ws, k) ==>
      Written(mem, writes, ws, k)[x] == if x in ws[..k] then writes[x] else mem[x]
  {
    if k > 0 {
      WrittenAt(mem, writes, ws, k - 1);
      assert ws[..k] == ws[..k - 1] + [ws[k - 1]];
    }
  }

  lemma WordsAreWritten(writes: map<Addr, Word>, ws: seq<Addr>)
    requires Visits(ws, writes.Keys)
    ensures forall j :: 0 <= j < |ws| ==> ws[j] in writes
  {
    forall j | 0 <= j < |ws| ensures ws[j] in writes {
      assert ws[j] in Elems(ws);
    }
  }

  lemma WrittenIsAll(mem: map<Addr, Word>, writes: map<Addr, Word>, ws: seq<Addr>)
    requires Visits(ws, writes.Keys)
    ensures forall j :: 0 <= j < |ws| ==> ws[j] in writes
    ensures Written(mem, writes, ws, |ws|) == mem + writes
  {
    WordsAreWritten(writes, ws);
    WrittenAt(mem, writes, ws, |ws|);
    assert ws[..|ws|] == ws;
    forall x ensures x in ws <==> x in writes {
      assert x in Elems(ws) <==> x in writes.Keys;
    }
    var all, both := Written(mem, writes, ws, |ws|), mem + writes;
    assert forall x :: x in all.Keys <==> x in both.Keys;
    assert forall x :: x in all ==> all[x] == both[x];
  }

  lemma {:induction false} SoloPublish(c: Config, s0: State, s: State, t: Tid, order: seq<nat>, ws: seq<Addr>, k: nat)
    returns (s': State)
    requires Leads(c, s0, s) && |s.locks| == LOCK_ARRAY_SIZE && t in s.txs && k <= |ws|
    requires s.txs[t].phase == Publishing(order, ws, 0) && forall j :: 0 <= j < |ws| ==> ws[j] in s.txs[t].writes
    ensures Leads(c, s0, s') && t in s'.txs && OthersRest(s, s', t)
    ensures s'.gv == s.gv && s'.locks == s.locks && s'.hist == s.hist
    ensures s'.mem == Written(s.mem, s.txs[t].writes, ws, k) && s'.home == s.home
    ensures s'.txs[t] == s.txs[t].(phase := Publishing(order, ws, k))
  {
    if k == 0 {
      s' := s;
    } else {
      var s1 := SoloPublish(c, s0, s, t, order, ws, k - 1);
      StepLeads(c, s0, s1, PublishWord(t));
      s' := Apply(c, s1, PublishWord(t));
    }
  }

  /** `locks` with `wv` in the first `i` of `order`, and without lock bits. */
  ghost predicate ReleasedUpTo(locks: seq<int>, locks': seq<int>, order: seq<nat>, i: nat, wv: int)
    requires i <= |order|
  {
    |locks'| == |locks| && forall l :: 0 <= l < |locks| ==> locks'[l] == if l in order[..i] then wv else locks[l]
  }

  lemma {:induction false} SoloRelease(c: Config, s0: State, s: State, t: Tid, order: seq<nat>, i: nat)
    returns (s': State)
    requires Leads(c, s0, s) && |s.locks| == LOCK_ARRAY_SIZE && InRange(order) && i <= |order|
    requires t in s.txs && s.txs[t].phase == Releasing(order, 0)
    ensures Leads(c, s0, s') && t in s'.txs && OthersRest(s, s', t)
    ensures s'.gv == s.gv && s'.mem == s.mem && s'.hist == s.hist
    ensures ReleasedUpTo(s.locks, s'.locks, order, i, s.txs[t].wv) && s'.home == s.home
    ensures s'.txs[t] == s.txs[t].(phase := Releasing(order, i), saved := s'.txs[t].saved)
  {
    if i == 0 {
      s' := s;
    } else {
      var s1 := SoloRelease(c, s0, s, t, order, i - 1);
      assert order[..i] == order[..i - 1] + [order[i - 1]];
      StepLeads(c, s0, s1, ReleaseLock(t));
      s' := Apply(c, s1, ReleaseLock(t));
    }
  }

  /** `tm_end` of a read-write transaction that began last. */
  lemma SoloEnd(c: Config, s0: State, s: State, t: Tid) returns (s': State)
    requires Leads(c, s0, s) && Ready(s, t) && !s.txs[t].readOnly && s.txs[t].rv == s.gv && s.gv % 2 == 0
    ensures Leads(c, s0, s') && t in s'.txs && OthersRest(s, s', t)
    ensures s'.gv == s.gv + 2 && s'.mem == s.mem + s.txs[t].writes
    ensures s'.hist == s.hist[s.gv + 2 := Commit(t, s.txs[t].writes)] && s'.home == s.home
    ensures |s'.locks| == LOCK_ARRAY_SIZE && Calm(s', s'.gv) && s'.txs[t].phase.Committed?
    ensures s'.txs[t].readOnly == s.txs[t].readOnly && s'.txs[t].rv == s.txs[t].rv && s'.txs[t].wv == s'.gv
    ensures s'.txs[t].log == s.txs[t].log && s'.txs[t].writes == s.txs[t].writes
  {
    var s1, order := SoloLockAll(c, s0, s, t);
    var s2 := SoloPublishAll(c, s0, s1, t, order);
    s' := SoloReleaseAll(c, s0, s2, t, order);
    CalmAgain(s, s1, s', order, s.gv);
  }

  lemma SoloLockAll(c: Config, s0: State, s: State, t: Tid) returns (s': State, order: seq<nat>)
    requires Leads(c, s0, s) && Ready(s, t) && !s.txs[t].readOnly && s.txs[t].rv == s.gv
    ensures Leads(c, s0, s') && t in s'.txs && OthersRest(s, s', t)
    ensures s'.gv == s.gv && s'.mem == s.mem && s'.hist == s.hist && s'.home == s.home
    ensures InRange(order) && LockedUpTo(s.locks, s'.locks, order, |order|)
    ensures s'.txs[t] == s.txs[t].(phase := Locking(order, |order|), saved := s'.txs[t].saved)
  {
    order := SomeOrder(LockSet(c, s.txs[t].writes));
    LocksAreInRange(c, s.txs[t].writes, order);
    StepLeads(c, s0, s, StartCommit(t, order));
    var s1 := Apply(c, s, StartCommit(t, order));
    s' := SoloAcquireAll(c, s0, s1, t, order, |order|);
  }

  lemma LocksAreInRange(c: Config, writes: map<Addr, Word>, order: seq<nat>)
    requires Visits(order, LockSet(c, writes))
    ensures InRange(order)
  {
    forall k | 0 <= k < |order| ensures order[k] < LOCK_ARRAY_SIZE {
      assert order[k] in Elems(order);
    }
  }

  /** From holding all locks to having written all words. */
  lemma SoloPublishAll(c: Config, s0: State, s: State, t: Tid, order: seq<nat>) returns (s': State)
    requires Leads(c, s0, s) && |s.locks| == LOCK_ARRAY_SIZE
    requires t in s.txs && s.txs[t].phase == Locking(order, |order|) && s.txs[t].rv == s.gv
    ensures Leads(c, s0, s') && t in s'.txs && OthersRest(s, s', t) && s'.gv == s.gv + 2 && s'.locks == s.locks
    ensures s'.mem == s.mem + s.txs[t].writes && s'.home == s.home
    ensures s'.hist == s.hist[s.gv + 2 := Commit(t, s.txs[t].writes)]
    ensures s'.txs[t] == s.txs[t].(phase := Releasing(order, 0), wv := s.gv + 2)
  {
    var ws := SomeOrder(s.txs[t].writes.Keys);
    var s3 := SoloDecide(c, s0, s, t, order, ws);
    WrittenIsAll(s3.mem, s3.txs[t].writes, ws);
    var s4 := SoloPublish(c, s0, s3, t, order, ws, |ws|);
    StepLeads(c, s0, s4, StartRelease(t));
    s' := Apply(c, s4, StartRelease(t));
  }

  lemma SoloReleaseAll(c: Config, s0: State, s: State, t: Tid, order: seq<nat>) returns (s': State)
    requires Leads(c, s0, s) && |s.locks| == LOCK_ARRAY_SIZE && InRange(order)
    requires t in s.txs && s.txs[t].phase == Releasing(order, 0)
    ensures Leads(c, s0, s') && t in s'.txs && OthersRest(s, s', t)
    ensures s'.gv == s.gv && s'.mem == s.mem && s'.hist == s.hist
    ensures ReleasedUpTo(s.locks, s'.locks, order, |order|, s.txs[t].wv) && s'.home == s.home
    ensures s'.txs[t].phase.Committed? && SameCalls(s.txs[t].(saved := s'.txs[t].saved), s'.txs[t])
  {
    var s1 := SoloRelease(c, s0, s, t, order, |order|);
    StepLeads(c, s0, s1, FinishCommit(t));
    s' := Apply(c, s1, FinishCommit(t));
  }

  lemma CalmAgain(s1: State, s2: State, s': State, order: seq<nat>, gv: int)
    requires Calm(s1, gv) && LockedUpTo(s1.locks, s2.locks, order, |order|)
    requires ReleasedUpTo(s2.locks, s'.locks, order, |order|, gv + 2) && gv % 2 == 0
    ensures Calm(s', gv + 2)
  {}

  // ---- whole transactions

  /** Up to the last call. */
  lemma SoloBody(c: Config, s0: State, s: State, t: Tid, readOnly: bool, log: seq<Event>) returns (s': State)
    requires Leads(c, s0, s) && |s.locks| == LOCK_ARRAY_SIZE && Calm(s, s.gv) && t !in s.txs
    requires RunLog(s.mem, log).Memory? && Obtainable(Taken(c, s), log)
    requires readOnly ==> forall i :: 0 <= i < |log| ==> log[i].EvRead?
    ensures Leads(c, s0, s') && Alone(s, s', t) && Ready(s', t)
    ensures s'.home.Keys == s.home.Keys + Allocated(log)
    ensures s'.txs[t].log == log && s'.txs[t].readOnly == readOnly && s'.txs[t].rv == s.gv && s'.txs[t].wv == 0
    ensures RunLog(s.mem, log) == Memory(s.mem + s'.txs[t].writes)
  {
    StepLeads(c, s0, s, Begin(t, readOnly));
    var s1 := Apply(c, s, Begin(t, readOnly));
    assert Obtainable(Taken(c, s1), log);
    s' := SoloCalls(c, s0, s1, t, log, |log|);
    assert log[..|log|] == log;
  }

  lemma SoloReaderEnds(c: Config, s0: State, s: State, t: Tid) returns (s': State)
    requires Leads(c, s0, s) && |s.locks| == LOCK_ARRAY_SIZE
    requires t in s.txs && s.txs[t].phase.Running? && s.txs[t].readOnly
    ensures Leads(c, s0, s') && Alone(s, s', t) && s'.home == s.home
    ensures s'.txs[t] == s.txs[t].(phase := Committed)
  {
    StepLeads(c, s0, s, EndReadOnly(t));
    s' := Apply(c, s, EndReadOnly(t));
  }

  /** A reader gets as far as copying word `x`. */
  lemma ReaderPauses(c: Config, s0: State, s: State, t: Tid, log: seq<Event>, x: Addr) returns (s': State)
    requires !c.fusedRead && Leads(c, s0, s) && Settled(s) && t !in s.txs
    requires RunLog(s.mem, log).Memory? && forall i :: 0 <= i < |log| ==> log[i].EvRead?
    ensures Leads(c, s0, s') && Settled(s') && Alone(s, s', t) && Taken(c, s) <= Taken(c, s')
    ensures s'.txs[t].phase == Rechecked(x) && s'.txs[t].readOnly && s'.txs[t].log == log
    ensures s'.txs[t].writes == map[]
  {
    assert Obtainable(Taken(c, s), log);
    var s1 := SoloBody(c, s0, s, t, true, log);
    s' := SoloChecks(c, s0, s1, t, x);
  }

  /** It copies what memory holds by then, and ends. */
  lemma ReaderResumes(c: Config, s0: State, s: State, t: Tid, x: Addr) returns (s': State)
    requires Leads(c, s0, s) && |s.locks| == LOCK_ARRAY_SIZE && t in s.txs && s.txs[t].phase == Rechecked(x)
    requires s.txs[t].readOnly && s.txs[t].writes == map[]
    ensures Leads(c, s0, s') && Alone(s, s', t) && s'.txs[t].phase.Committed? && s'.txs[t].readOnly
    ensures s'.txs[t].log == s.txs[t].log + [EvRead(x, Get(s.mem, x))]
  {
    var s1 := SoloCopy(c, s0, s, t, x);
    assert s.mem + map[] == s.mem;
    s' := SoloReaderEnds(c, s0, s1, t);
  }

  /** Any log the reference can run on shared memory can be run as a transaction, and commits. */
  lemma SoloTransaction(c: Config, s0: State, s: State, t: Tid, readOnly: bool, log: seq<Event>) returns (s': State)
    requires Leads(c, s0, s) && Settled(s) && t !in s.txs
    requires RunLog(s.mem, log).Memory? && Obtainable(Taken(c, s), log)
    requires readOnly ==> forall i :: 0 <= i < |log| ==> log[i].EvRead?
    ensures Leads(c, s0, s') && t in s'.txs && OthersRest(s, s', t) && Settled(s')
    ensures s'.txs[t].phase.Committed? && s'.txs[t].readOnly == readOnly && s'.txs[t].log == log
    ensures s'.txs[t].rv == s.gv && s'.gv == (if readOnly then s.gv else s.gv + 2)
    ensures s'.txs[t].wv == (if readOnly then 0 else s'.gv) && RunLog(s.mem, log) == Memory(s'.mem)
    ensures s'.hist == if readOnly then s.hist else s.hist[s'.gv := Commit(t, s'.txs[t].writes)]
    ensures s'.home.Keys == s.home.Keys + Allocated(log) && Taken(c, s) <= Taken(c, s')
  {
    var s1 := SoloBody(c, s0, s, t, readOnly, log);
    if readOnly {
      s' := SoloReaderEnds(c, s0, s1, t);
      assert s.mem + map[] == s.mem;
    } else {
      s' := SoloEnd(c, s0, s1, t);
    }
  }

  /** A run goes on to wherever its last state leads. */
  lemma RunGoesOn(c: Config, steps: seq<Step>, trace: seq<State>, s: State)
    returns (steps': seq<Step>, trace': seq<State>)
    requires Run(c, steps, trace) && Leads(c, trace[|steps|], s)
    ensures Run(c, steps', trace') && steps <= steps' && trace <= trace' && trace'[|steps'|] == s
  {
    var more, states :| Path(c, more, states) && states[0] == trace[|steps|] && states[|more|] == s;
    PathsJoin(c, steps, trace, more, states);
    steps', trace' := steps + more, trace + states[1..];
  }

  lemma RunVia(c: Config, s0: State, s: State) returns (steps: seq<Step>, trace: seq<State>, i: nat)
    requires Reachable(c, s0) && Leads(c, s0, s)
    ensures Run(c, steps, trace) && i <= |steps| && trace[i] == s0 && trace[|steps|] == s
  {
    var first, states :| Run(c, first, states) && states[|first|] == s0;
    steps, trace := RunGoesOn(c, first, states, s);
    i := |first|;
  }

  // ---- serial runs

  lemma {:induction false} RunLogsPrefix(m: map<Addr, Word>, logs: seq<seq<Event>>, n: nat)
    requires RunLogs(m, logs).Memory? && n <= |logs|
    ensures RunLogs(m, logs[..n]).Memory?
    decreases |logs|
  {
    if n < |logs| {
      var most := logs[..|logs| - 1];
      assert most[..n] == logs[..n];
      RunLogsPrefix(m, most, n);
    } else {
      assert logs[..n] == logs;
    }
  }

  ghost function AllocatedBy(logs: seq<seq<Event>>): set<Addr> {
    if |logs| == 0 then {} else AllocatedBy(logs[..|logs| - 1]) + Allocated(logs[|logs| - 1])
  }

  /** After the first `k` logs, run one after the other from zeroed memory, log `k` allocates only words that
      nobody has or has written. */
  ghost predicate ObtainableAt(c: Config, logs: seq<seq<Event>>, k: nat)
    requires k < |logs|
  {
    match RunLogs(map[], logs[..k])
    case Mismatch => false
    case Memory(m) => Obtainable(c.root + AllocatedBy(logs[..k]) + m.Keys, logs[k])
  }

  /** Completeness: whatever the reference can do serially from zeroed memory, transaction after transaction,
      the manager can do, with the same calls and results and the same memory at each moment. */
  lemma {:induction false} SerialRunsHappen(c: Config, logs: seq<seq<Event>>, n: nat) returns (s: State)
    requires n <= |logs| && RunLogs(map[], logs).Memory? && forall k :: 0 <= k < |logs| ==> ObtainableAt(c, logs, k)
    ensures Reachable(c, s) && RunLogs(map[], logs[..n]) == Memory(s.mem)
    ensures forall k: Tid :: k in s.txs <==> k < n
    ensures forall k: Tid :: k < n ==> s.txs[k].phase.Committed? && s.txs[k].log == logs[k]
    ensures Settled(s) && s.gv == 2 * n && s.home.Keys == AllocatedBy(logs[..n])
  {
    if n == 0 {
      InitIsReachable(c);
      s := Init();
    } else {
      var s1 := SerialRunsHappen(c, logs, n - 1);
      RunLogsPrefix(map[], logs, n);
      assert ObtainableAt(c, logs, n - 1);
      s := SerialStep(c, s1, logs, n - 1);
    }
  }

  lemma SerialStep(c: Config, s: State, logs: seq<seq<Event>>, n: nat) returns (s': State)
    requires Reachable(c, s) && Settled(s)
    requires n < |logs| && RunLogs(map[], logs[..n]) == Memory(s.mem) && RunLogs(map[], logs[..n + 1]).Memory?
    requires s.home.Keys == AllocatedBy(logs[..n]) && n !in s.txs
    requires Obtainable(c.root + AllocatedBy(logs[..n]) + s.mem.Keys, logs[n])
    ensures Reachable(c, s') && RunLogs(map[], logs[..n + 1]) == Memory(s'.mem) && n in s'.txs && OthersRest(s, s', n)
    ensures s'.txs[n].phase.Committed? && s'.txs[n].log == logs[n] && s'.gv == s.gv + 2
    ensures Settled(s') && s'.home.Keys == AllocatedBy(logs[..n + 1])
  {
    assert logs[..n + 1][..n] == logs[..n];
    LeadsNowhere(c, s);
    s' := SoloTransaction(c, s, s, n, false, logs[n]);
    LeadsIsReachable(c, s, s');
  }
}
