/** The calls of `415640/tm.c` as code: the loops, branches and callbacks of the source, over a shared
    region that other threads change between any two operations on it.

    The region keeps, as ghost state, the run that led to its present state. Each method only prolongs that run
    (`Went`), by steps that `Protocol` allows its own transaction and, unless it is `solo`, by any steps of others
    in between; so what `Serializability` and `Runs` prove of runs holds of this code, within one call and across
    calls (`TimePasses`, `CallsAreOrdered`). With `solo` set nobody interferes, and the contracts say what becomes
    of memory and locks. */
module TransactionManager {
  import opened VersionLock
  import opened Protocol
  import opened Reference
  import RunRecord
  import Serializability
  import opened Runs
  import opened SoloRuns
  import ProtocolInvariant

  // ---- what others may do

  /** A run is determined by its steps. */
  lemma {:induction false} RunsAgree(c: Config, steps: seq<Step>, trace: seq<State>, steps': seq<Step>,
                                     trace': seq<State>, i: nat)
    requires Run(c, steps, trace) && Run(c, steps', trace') && steps <= steps' && i <= |steps|
    ensures trace'[i] == trace[i]
  {
    if i > 0 {
      RunsAgree(c, steps, trace, steps', trace', i - 1);
      assert Moved(c, steps, trace, i - 1) && Moved(c, steps', trace', i - 1);
    }
  }

  /** Steps `i` to `j` are made by others, so they leave the record of `t` alone. */
  lemma {:induction false} OthersKeepMine(c: Config, steps: seq<Step>, trace: seq<State>, i: nat, j: nat, t: Tid)
    requires Run(c, steps, trace) && i <= j <= |steps| && t in trace[i].txs
    requires forall k :: i <= k < j ==> steps[k].t != t
    ensures t in trace[j].txs && trace[j].txs[t] == trace[i].txs[t]
    decreases j - i
  {
    if i < j {
      OthersKeepMine(c, steps, trace, i, j - 1, t);
      assert Moved(c, steps, trace, j - 1);
      OthersStay(c, trace[j - 1], steps[j - 1], t);
    }
  }

  /** Steps `i` to `j` are made by `t` alone, so nobody else moves. */
  lemma {:induction false} OwnStepsSpareOthers(c: Config, steps: seq<Step>, trace: seq<State>, i: nat, j: nat, t: Tid)
    requires Run(c, steps, trace) && i <= j <= |steps| && forall k :: i <= k < j ==> steps[k].t == t
    ensures OthersRest(trace[i], trace[j], t)
    decreases j - i
  {
    if i < j {
      OwnStepsSpareOthers(c, steps, trace, i, j - 1, t);
      assert Moved(c, steps, trace, j - 1);
    }
  }

  /** While no transaction is inside `tm_end`, every lock is free and none is newer than the counter. */
  lemma QuietIsCalm(c: Config, s: State)
    requires Reachable(c, s) && forall t :: t in s.txs ==> ProtocolInvariant.Held(s.txs[t].phase) == {}
    ensures |s.locks| == LOCK_ARRAY_SIZE && Calm(s, s.gv)
  {
    RunRecord.ReachableGood(c, s);
    assert forall t :: t in s.txs ==> ProtocolInvariant.LocalOk(c, s.txs[t]);
    forall l | 0 <= l < |s.locks| ensures !Locked(s.locks[l]) && s.locks[l] <= s.gv {
      Serializability.LockTable(c, s, l);
    }
  }

  /** What a transaction holds at the end of a lock order, and in what state the lock words are. */
  lemma HoldsOrder(c: Config, s: State, t: Tid)
    requires Reachable(c, s) && t in s.txs
    ensures s.txs[t].saved.Keys == ProtocolInvariant.Held(s.txs[t].phase)
    ensures forall l :: l in s.txs[t].saved ==>
      l < |s.locks| && Locked(s.locks[l]) && s.locks[l] == s.txs[t].saved[l] + 1
  {
    RunRecord.ReachableGood(c, s);
    assert ProtocolInvariant.LocalOk(c, s.txs[t]);
    forall l | l in s.txs[t].saved
      ensures l < |s.locks| && Locked(s.locks[l]) && s.locks[l] == s.txs[t].saved[l] + 1
    {
      Serializability.HeldIsLocked(s, t, l);
      assert s.txs[t].saved[l] == ProtocolInvariant.Ver(s, l);
    }
  }

  // ---- transactions

  class Transaction {
    const t: Tid
    const readOnly: bool
    const readVersion: int
    var writeVersion: int
    var readSet: set<Addr>
    var writeSet: map<Addr, Word>
    var allocSet: seq<Addr>

    constructor (t: Tid, readOnly: bool, readVersion: int)
      ensures this.t == t && this.readOnly == readOnly && this.readVersion == readVersion
      ensures writeVersion == 0 && readSet == {} && writeSet == map[] && allocSet == []
    {
      this.t, this.readOnly, this.readVersion := t, readOnly, readVersion;
      writeVersion, readSet, writeSet, allocSet := 0, {}, map[], [];
    }

    /** The fields agree with the transaction's record. */
    ghost predicate Matches(s: State)
      reads this
    {
      t in s.txs &&
      var tx := s.txs[t];
      && tx.readOnly == readOnly && tx.rv == readVersion && tx.wv == writeVersion
      && tx.writes == writeSet && tx.allocs == allocSet && (!readOnly ==> tx.readSet == readSet)
    }
  }

  /** What `dic_forEach` visits in an unmodified dictionary with these keys: each once, in some order. */
  method VisitOrder<T(==)>(keys: set<T>) returns (order: seq<T>)
    ensures Visits(order, keys)
  {
    order := [];
    var rest := keys;
    while rest != {}
      invariant Distinct(order) && Elems(order) + rest == keys && Elems(order) !! rest
      decreases rest
    {
      var k :| k in rest;
      assert Elems(order + [k]) == Elems(order) + {k};
      order, rest := order + [k], rest - {k};
    }
  }

  // ---- the shared region

  class SharedRegion {
    const c: Config
    const align: nat  // word size in bytes
    var globalVersion: int
    var locks: array<int>
    var memory: map<Addr, Word>
    var segments: seq<Addr>
    ghost var state: State
    ghost var steps: seq<Step>   // the run so far
    ghost var trace: seq<State>

    /** The recorded run ends in the present state. */
    ghost predicate Recorded()
      reads `state, `steps, `trace
    {
      Run(c, steps, trace) && trace[|steps|] == state
    }

    ghost predicate Valid()
      reads this, locks
    {
      && align > 0 && !c.fusedRead && Recorded()
      && state.gv == globalVersion && state.locks == locks[..] && locks.Length == LOCK_ARRAY_SIZE
      && state.mem == memory && state.segments == segments
    }

    /** The run has only been prolonged; if `solo`, by steps of transaction `t` alone. */
    twostate predicate Went(t: Tid, solo: bool)
      reads `steps
    {
      old(steps) <= steps && (solo ==> forall i :: |old(steps)| <= i < |steps| ==> steps[i].t == t)
    }

    /** The states of the run so far stay, too. */
    twostate lemma StatesStay()
      requires old(Recorded()) && Recorded() && old(steps) <= steps
      ensures old(trace) <= trace && trace[|old(steps)|] == old(state)
    {
      forall i | 0 <= i < |old(trace)| ensures trace[i] == old(trace)[i] {
        RunsAgree(c, old(steps), old(trace), steps, trace, i);
      }
    }

    /** Memory, counter and segments are what they were. */
    twostate predicate OnlyLocksChange()
      reads `globalVersion, `memory, `segments
    {
      globalVersion == old(globalVersion) && memory == old(memory) && segments == old(segments)
    }

    /** Locks, counter and segments are what they were. */
    twostate predicate OnlyMemoryChanges()
      reads `globalVersion, `locks, locks, `segments
    {
      globalVersion == old(globalVersion) && segments == old(segments) && locks[..] == old(locks[..])
    }

    /** Memory, locks, counter and segments are what they were. */
    twostate predicate SharedStays()
      reads this, locks
    {
      OnlyLocksChange() && locks[..] == old(locks[..])
    }

    constructor (c: Config, align: nat)
      requires align > 0 && !c.fusedRead
      ensures Valid() && state == Init() && this.c == c && this.align == align && fresh(locks)
    {
      this.c, this.align := c, align;
      globalVersion, memory, segments := 0, map[], [];
      locks := new int[LOCK_ARRAY_SIZE](_ => 0);
      state, steps, trace := Init(), [], [Init()];
      new;
      assert locks[..] == Init().locks;
    }

    /** `tm_create`: refuses an alignment that is no power of two and a size that is no multiple of it or takes
        more than 48 bits; otherwise versions, locks and words start at zero. */
    static method TmCreate(c: Config, size: nat, align: nat) returns (region: SharedRegion?)
      requires !c.fusedRead
      ensures region != null <==> PowerOfTwo(align) && size % align == 0 && size < 0x1_0000_0000_0000
      ensures region != null ==> fresh(region) && fresh(region.locks) && region.Valid() && region.state == Init()
      ensures region != null ==> region.c == c && region.align == align
    {
      region := null;
      OneBitIsPowerOfTwo(align);
      if align > 0 && BitAnd(align, align - 1) == 0 && size % align == 0 && size < 0x1_0000_0000_0000 {
        region := new SharedRegion(c, align);
      }
    }

    /** `tm_destroy`, with no running transaction: it frees the shared list, front to back, and with that every
        segment has been freed exactly once since the region was created. */
    method TmDestroy() returns (freed: seq<Addr>)
      requires Valid() && forall t :: t in state.txs ==> state.txs[t].phase.Committed? || state.txs[t].phase.Aborted?
      ensures freed == segments
      ensures forall b :: b in state.bases ==> multiset(state.freed + freed)[b] == 1
    {
      freed := [];
      var i := 0;
      while i < |segments|
        invariant i <= |segments| && freed == segments[..i]
      {
        freed := freed + [segments[i]];
        i := i + 1;
      }
      assert freed == state.segments;
      forall b | b in state.bases ensures multiset(state.freed + freed)[b] == 1 {
        Serializability.DestroyFreesTheRest(c, state, b);
      }
    }

    // ---- the run

    ghost predicate InPhase(tx: Transaction, p: Phase)
      reads this, tx
    {
      tx.Matches(state) && state.txs[tx.t].phase == p
    }

    /** The region's state moves on by one step; the fields follow. */
    ghost method Take(step: Step)
      requires Recorded() && Enabled(c, state, step)
      modifies `state, `steps, `trace
      ensures Recorded() && state == Apply(c, old(state), step) && Went(step.t, true)
      ensures steps == old(steps) + [step]
    {
      PathGrows(c, steps, trace, step);
      steps, state := steps + [step], Apply(c, state, step);
      trace := trace + [state];
    }

    /** Other threads run: any number of steps of any other transactions, or none when `solo`. */
    method Interfere(ghost t: Tid, ghost solo: bool)
      requires Valid()
      modifies this, locks
      ensures Valid() && locks == old(locks) && Went(t, solo)
      ensures forall i :: |old(steps)| <= i < |steps| ==> steps[i].t != t
      ensures solo ==> SharedStays() && state == old(state)
    {}

    /** The same, seen from transaction `tx`. */
    method Pause(tx: Transaction, ghost solo: bool)
      requires Valid() && tx.Matches(state)
      modifies this, locks
      ensures Valid() && locks == old(locks) && tx.Matches(state) && Went(tx.t, solo)
      ensures state.txs[tx.t] == old(state.txs[tx.t])
      ensures solo ==> SharedStays() && state == old(state)
    {
      Interfere(tx.t, solo);
      StatesStay();
      OthersKeepMine(c, steps, trace, |old(steps)|, |steps|, tx.t);
    }

    /** From one moment to a later one, whatever was called in between: nothing that a transaction has fixed
        changes, the counter does not fall, commits stay, and newcomers read at least the present counter. */
    twostate lemma TimePasses()
      requires old(Valid()) && Valid() && old(steps) <= steps
      ensures Later(old(state), state)
      ensures forall u :: u in old(state.hist) ==> u in state.hist && state.hist[u] == old(state.hist)[u]
    {
      var i := |old(steps)|;
      StatesStay();
      RunIsOrdered(c, steps, trace, i, |steps|);
      forall u | u in old(state.hist) ensures u in state.hist && state.hist[u] == old(state.hist)[u] {
        HistoryGrows(c, steps, trace, i, |steps|, u);
      }
    }

    /** Real-time order across calls: a transaction that had committed at one moment precedes, in the serial
        order, one that began after that moment. */
    twostate lemma CallsAreOrdered(t1: Tid, t2: Tid)
      requires old(Valid()) && Valid() && old(steps) <= steps
      requires t1 in old(state.txs) && old(state.txs)[t1].phase.Committed? && t2 !in old(state.txs)
      requires t2 in state.txs && state.txs[t2].phase.Committed?
      ensures t1 in state.txs && state.txs[t1] == old(state.txs)[t1] && SerialBefore(state.txs[t1], state.txs[t2])
    {
      var i := |old(steps)|;
      StatesStay();
      RealTimeOrder(c, steps, trace, i, |steps|, t1, t2);
    }

    /** What a transaction does undisturbed changes no other transaction. */
    twostate lemma SoloSparesOthers(t: Tid)
      requires old(Valid()) && Valid() && Went(t, true)
      ensures OthersRest(old(state), state, t)
    {
      StatesStay();
      OwnStepsSpareOthers(c, steps, trace, |old(steps)|, |steps|, t);
    }

    lemma StateIsReachable()
      requires Recorded()
      ensures Reachable(c, state)
    {}

    /** `tm_begin`. */
    method TmBegin(t: Tid, readOnly: bool) returns (tx: Transaction)
      requires Valid() && t !in state.txs
      modifies `state, `steps, `trace
      ensures Valid() && fresh(tx) && tx.t == t && tx.readOnly == readOnly && locks == old(locks)
      ensures state == Apply(c, old(state), Begin(t, readOnly)) && InPhase(tx, Phase.Running)
      ensures tx.readVersion == state.gv && Went(t, true)
    {
      tx := new Transaction(t, readOnly, globalVersion);
      Take(Begin(t, readOnly));
    }

    /** `tx_destroy` of an aborted transaction. */
    method Destroy(tx: Transaction)
      modifies tx`allocSet
      ensures tx.allocSet == []
    {
      tx.allocSet := [];
    }

    // ---- tm_read

    /** The first `lock_check` of a word, and the read set entry that follows it. */
    method CheckFirst(tx: Transaction, x: Addr) returns (ok: bool)
      requires Valid() && InPhase(tx, Phase.Running)
      modifies `state, `steps, `trace, tx`allocSet, tx`readSet
      ensures Valid() && tx.Matches(state) && Went(tx.t, true) && SameRegion(old(state), state)
      ensures ok <==> Check(LockWord(c, state, x), tx.readVersion)
      ensures var mine := old(state.txs[tx.t]);
        state.txs[tx.t] ==
          if ok then mine.(phase := Checked(x), readSet := mine.readSet + {x}) else Abort(mine)
    {
      ok := Check(locks[c.LockOf(x)], tx.readVersion);
      Take(FirstCheck(tx.t, x));
      if !ok {
        Destroy(tx);
      } else if !tx.readOnly {
        tx.readSet := tx.readSet + {x};
      }
    }

    /** The second `lock_check`. */
    method CheckAgain(tx: Transaction, ghost x: Addr, lock: nat) returns (ok: bool)
      requires Valid() && InPhase(tx, Checked(x)) && lock == c.LockOf(x)
      modifies `state, `steps, `trace, tx`allocSet
      ensures Valid() && tx.Matches(state) && Went(tx.t, true) && SameRegion(old(state), state)
      ensures ok <==> Check(LockWord(c, state, x), tx.readVersion)
      ensures var mine := old(state.txs[tx.t]);
        state.txs[tx.t] == if ok then mine.(phase := Rechecked(x)) else Abort(mine)
    {
      ok := Check(locks[lock], tx.readVersion);
      Take(SecondCheck(tx.t));
      if !ok {
        Destroy(tx);
      }
    }

    /** The `memcpy` of one word: from the private copy `own` if there is one. */
    method Copy(tx: Transaction, x: Addr, own: bool) returns (v: Word)
      requires Valid() && InPhase(tx, Rechecked(x)) && (own <==> !tx.readOnly && x in tx.writeSet)
      modifies `state, `steps, `trace
      ensures Valid() && InPhase(tx, Phase.Running) && Went(tx.t, true) && SameRegion(old(state), state)
      ensures state.txs[tx.t] == Copied(memory, old(state.txs[tx.t]), x)
      ensures state.txs[tx.t].log == old(state.txs[tx.t].log) + [EvRead(x, v)]
      ensures v == if own then tx.writeSet[x] else Get(memory, x)
    {
      v := if own then tx.writeSet[x] else Get(memory, x);
      Take(CopyWord(tx.t));
    }

    /** Everything before the copy: two lock checks, with the lookup in the write set in between. */
    method CheckTwice(tx: Transaction, x: Addr, ghost solo: bool) returns (ok: bool, own: bool)
      requires Valid() && InPhase(tx, Phase.Running)
      modifies this, locks, tx`allocSet, tx`readSet
      ensures Valid() && tx.Matches(state) && locks == old(locks) && Went(tx.t, solo)
      ensures var mine := old(state.txs[tx.t]);
        if ok then state.txs[tx.t] == mine.(phase := Rechecked(x), readSet := mine.readSet + {x})
        else state.txs[tx.t].phase.Aborted?
      ensures own <==> ok && !tx.readOnly && x in tx.writeSet
      ensures solo ==> SharedStays() && state.home == old(state.home)
      ensures solo ==> (ok <==> Check(LockWord(c, old(state), x), tx.readVersion))
    {
      own := false;
      var lock := c.LockOf(x);
      Pause(tx, solo);
      ok := CheckFirst(tx, x);
      if ok {
        var found := !tx.readOnly && x in tx.writeSet;
        Pause(tx, solo);
        ok := CheckAgain(tx, x, lock);
        own := ok && found;
      }
    }

    /** The body of the loop of `tm_read`: returns the transaction's own write of the word, or else what memory
        holds at the end of the call. */
    method ReadWord(tx: Transaction, x: Addr, ghost solo: bool) returns (ok: bool, v: Word)
      requires Valid() && InPhase(tx, Phase.Running)
      modifies this, locks, tx`allocSet, tx`readSet
      ensures Valid() && tx.Matches(state) && locks == old(locks) && Went(tx.t, solo)
      ensures ok ==> state.txs[tx.t].phase.Running? && state.txs[tx.t].log == old(state.txs[tx.t].log) + [EvRead(x, v)]
      ensures !ok ==> state.txs[tx.t].phase.Aborted?
      ensures ok ==> v == Seen(tx.readOnly, tx.writeSet, memory, x)
      ensures ok ==> NewReadsAre(old(state.txs[tx.t].obs), state.txs[tx.t].obs, memory)
      ensures solo ==> SharedStays() && state.home == old(state.home)
      ensures solo ==> (ok <==> Check(LockWord(c, old(state), x), tx.readVersion))
    {
      v := 0;
      var own;
      ok, own := CheckTwice(tx, x, solo);
      if !ok { return; }
      Pause(tx, solo);
      v := Copy(tx, x, own);
    }

    /** `tm_read`: `size` bytes from word `source` on. On success each word returned is the logged one;
        undisturbed it succeeds exactly if all words pass the lock check. */
    method TmRead(tx: Transaction, source: Addr, size: nat, ghost solo: bool) returns (ok: bool, target: seq<Word>)
      requires Valid() && InPhase(tx, Phase.Running)
      modifies this, locks, tx`allocSet, tx`readSet
      ensures Valid() && tx.Matches(state) && locks == old(locks) && Went(tx.t, solo)
      ensures ok ==> state.txs[tx.t].phase.Running? && |target| == size / align
      ensures ok ==> state.txs[tx.t].log == old(state.txs[tx.t].log) + ReadsOf(source, target)
      ensures !ok ==> state.txs[tx.t].phase.Aborted?
      ensures solo ==> SharedStays() && state.home == old(state.home)
      ensures solo && ok ==> NewReadsAre(old(state.txs[tx.t].obs), state.txs[tx.t].obs, memory)
      ensures solo && ok ==>
        forall k :: 0 <= k < |target| ==> target[k] == Seen(tx.readOnly, tx.writeSet, memory, source + k)
      ensures solo ==> (ok <==> ChecksPass(c, old(state), tx.readVersion, source, size / align))
    {
      target := [];
      var i := 0;
      while i < size / align
        invariant i <= size / align && |target| == i && Valid() && InPhase(tx, Phase.Running) && locks == old(locks)
        invariant Went(tx.t, solo)
        invariant state.txs[tx.t].log == old(state.txs[tx.t].log) + ReadsOf(source, target)
        invariant solo ==> SharedStays() && state.home == old(state.home)
        invariant solo ==> NewReadsAre(old(state.txs[tx.t].obs), state.txs[tx.t].obs, memory)
        invariant solo ==> ChecksPass(c, old(state), tx.readVersion, source, i)
        invariant solo ==> forall k :: 0 <= k < i ==> target[k] == Seen(tx.readOnly, tx.writeSet, memory, source + k)
      {
        var v;
        ok, v := ReadWord(tx, source + i, solo);
        if !ok {
          assert solo ==> !Check(LockWord(c, old(state), source + i), tx.readVersion);
          return;
        }
        assert ReadsOf(source, target + [v]) == ReadsOf(source, target) + [EvRead(source + i, v)];
        target := target + [v];
        i := i + 1;
      }
      ok := true;
    }

    // ---- tm_write

    method WriteOne(tx: Transaction, x: Addr, v: Word)
      requires Valid() && InPhase(tx, Phase.Running) && !tx.readOnly
      modifies `state, `steps, `trace, tx`writeSet
      ensures Valid() && InPhase(tx, Phase.Running) && Went(tx.t, true) && SameRegion(old(state), state)
      ensures state.txs[tx.t].log == old(state.txs[tx.t].log) + [EvWrite(x, v)]
      ensures state.txs[tx.t].obs == old(state.txs[tx.t].obs) && tx.writeSet == old(tx.writeSet)[x := v]
    {
      tx.writeSet := tx.writeSet[x := v];
      Take(WriteWord(tx.t, x, v));
    }

    /** `tm_write`: a size that is no multiple of the word size aborts. Nothing shared changes. */
    method TmWrite(tx: Transaction, source: seq<Word>, size: nat, target: Addr) returns (ok: bool)
      requires Valid() && InPhase(tx, Phase.Running) && !tx.readOnly && |source| >= size / align
      modifies `state, `steps, `trace, tx`writeSet, tx`allocSet
      ensures Valid() && tx.Matches(state) && Went(tx.t, true) && SameRegion(old(state), state)
      ensures ok <==> size % align == 0
      ensures ok ==> state.txs[tx.t].phase.Running? && state.txs[tx.t].obs == old(state.txs[tx.t].obs)
      ensures ok ==> state.txs[tx.t].log == old(state.txs[tx.t].log) + WritesFrom(target, source[..size / align])
      ensures !ok ==> state.txs[tx.t].phase.Aborted?
    {
      if size % align != 0 {
        Take(BadWrite(tx.t));
        Destroy(tx);
        return false;
      }
      var i := 0;
      while i < size / align
        invariant i <= size / align && Valid() && InPhase(tx, Phase.Running) && Went(tx.t, true)
        invariant SameRegion(old(state), state) && state.txs[tx.t].obs == old(state.txs[tx.t].obs)
        invariant state.txs[tx.t].log == old(state.txs[tx.t].log) + WritesFrom(target, source[..i])
      {
        WriteOne(tx, target + i, source[i]);
        assert WritesFrom(target, source[..i + 1]) ==
          WritesFrom(target, source[..i]) + [EvWrite(target + i, source[i])];
        i := i + 1;
      }
      ok := true;
    }

    // ---- tm_alloc

    /** `tm_alloc`; `base` is what the system allocator returns, words nobody has used. */
    method TmAlloc(tx: Transaction, size: nat, base: Addr) returns (ok: bool)
      requires Valid() && InPhase(tx, Phase.Running) && !tx.readOnly
      requires Unused(c, state, Block(base, size / align))
      modifies `state, `steps, `trace, tx`allocSet
      ensures Valid() && InPhase(tx, Phase.Running) && Went(tx.t, true)
      ensures state.gv == old(state.gv) && state.locks == old(state.locks) && state.mem == old(state.mem)
      ensures state.home.Keys <= old(state.home).Keys + Block(base, size / align)
      ensures ok <==> size % align == 0 && size < 0x1_0000_0000_0000
      ensures !ok ==> state == old(state) && tx.allocSet == old(tx.allocSet)
      ensures ok ==> state.txs[tx.t].log == old(state.txs[tx.t].log) + [EvAlloc(base, size / align)]
      ensures ok ==> base in state.bases && state.bases[base] == tx.t && tx.allocSet == old(tx.allocSet) + [base]
      ensures state.txs[tx.t].obs == old(state.txs[tx.t].obs)
    {
      if size % align != 0 || size >= 0x1_0000_0000_0000 {
        return false;
      }
      AllocWords(tx, size / align, base);
      ok := true;
    }

    method AllocWords(tx: Transaction, ghost n: nat, base: Addr)
      requires Valid() && InPhase(tx, Phase.Running) && !tx.readOnly && Unused(c, state, Block(base, n))
      modifies `state, `steps, `trace, tx`allocSet
      ensures Valid() && InPhase(tx, Phase.Running) && Went(tx.t, true)
      ensures state.gv == old(state.gv) && state.locks == old(state.locks) && state.mem == old(state.mem)
      ensures state.home.Keys <= old(state.home).Keys + Block(base, n)
      ensures state.txs[tx.t].log == old(state.txs[tx.t].log) + [EvAlloc(base, n)]
      ensures base in state.bases && state.bases[base] == tx.t && tx.allocSet == old(tx.allocSet) + [base]
      ensures state.txs[tx.t].obs == old(state.txs[tx.t].obs)
    {
      tx.allocSet := tx.allocSet + [base];
      Take(Alloc(tx.t, base, n));
    }

    // ---- tm_end

    /** `unique_lock_create` over the write set. */
    method CreateUniqueLocks(tx: Transaction) returns (uniqueLocks: set<nat>)
      ensures uniqueLocks == LockSet(c, tx.writeSet)
    {
      var words := VisitOrder(tx.writeSet.Keys);
      uniqueLocks := {};
      for i := 0 to |words|
        invariant uniqueLocks == set k | 0 <= k < i :: c.LockOf(words[k])
      {
        uniqueLocks := uniqueLocks + {c.LockOf(words[i])};
      }
      forall l | l in LockSet(c, tx.writeSet) ensures l in uniqueLocks {
        var x :| x in tx.writeSet && c.LockOf(x) == l;
        assert x in Elems(words);
      }
      forall l | l in uniqueLocks ensures l in LockSet(c, tx.writeSet) {
        var k :| 0 <= k < |words| && c.LockOf(words[k]) == l;
        assert words[k] in Elems(words);
      }
    }

    /** A step of `tm_end` that touches nothing but the transaction's phase. */
    ghost method Move(tx: Transaction, step: Step)
      requires Valid() && tx.Matches(state) && Enabled(c, state, step) && step.t == tx.t
      requires step.StartCommit? || step.StartValidation? || step.StartRelease?
      modifies `state, `steps, `trace
      ensures Valid() && tx.Matches(state) && state == Apply(c, old(state), step) && Went(tx.t, true)
      ensures Keeps(old(state.txs[tx.t]), state.txs[tx.t]) && state.txs[tx.t].saved == old(state.txs[tx.t].saved)
    {
      Take(step);
    }

    /** The load of `lock_try_acquire`. */
    method LoadLockWord(tx: Transaction, order: seq<nat>, i: nat, ghost solo: bool) returns (vl: int)
      requires Valid() && InPhase(tx, Locking(order, i)) && i < |order| && order[i] < LOCK_ARRAY_SIZE
      modifies this, locks
      ensures Valid() && locks == old(locks) && Went(tx.t, solo) && vl == locks[order[i]]
      ensures InPhase(tx, if Locked(vl) then RollingBack(order, 0, i) else Acquiring(order, i, vl))
      ensures Keeps(old(state.txs[tx.t]), state.txs[tx.t]) && state.txs[tx.t].saved == old(state.txs[tx.t].saved)
      ensures solo ==> SharedStays()
    {
      Pause(tx, solo);
      vl := locks[order[i]];
      Take(LoadLock(tx.t));
    }

    /** The compare-and-swap of `lock_try_acquire`. */
    method Swap(tx: Transaction, order: seq<nat>, i: nat, vl: int, ghost solo: bool) returns (ok: bool)
      requires Valid() && InPhase(tx, Acquiring(order, i, vl)) && i < |order| && order[i] < LOCK_ARRAY_SIZE
      modifies this, locks
      ensures Valid() && locks == old(locks) && Went(tx.t, solo)
      ensures InPhase(tx, if ok then Locking(order, i + 1) else RollingBack(order, 0, i))
      ensures Keeps(old(state.txs[tx.t]), state.txs[tx.t]) && (ok ==> locks[order[i]] == vl + 1)
      ensures state.txs[tx.t].saved ==
        if ok then old(state.txs[tx.t].saved)[order[i] := vl] else old(state.txs[tx.t].saved)
      ensures solo ==> OnlyLocksChange() && (ok <==> old(locks[order[i]]) == vl)
      ensures solo ==> locks[..] == if ok then old(locks[..])[order[i] := vl + 1] else old(locks[..])
    {
      Pause(tx, solo);
      Take(CasLock(tx.t));
      ok := locks[order[i]] == vl;
      if ok {
        locks[order[i]] := vl + 1;
      }
    }

    /** `lock_try_acquire` on `order[i]`: a load, then a compare-and-swap, with others before each. On success the
        lock bit is set, and what was there before is saved. */
    method TryAcquire(tx: Transaction, order: seq<nat>, i: nat, ghost solo: bool) returns (ok: bool)
      requires Valid() && InPhase(tx, Locking(order, i)) && i < |order| && order[i] < LOCK_ARRAY_SIZE
      modifies this, locks
      ensures Valid() && locks == old(locks) && Went(tx.t, solo)
      ensures InPhase(tx, if ok then Locking(order, i + 1) else RollingBack(order, 0, i))
      ensures Keeps(old(state.txs[tx.t]), state.txs[tx.t])
      ensures ok ==> Locked(locks[order[i]])
      ensures state.txs[tx.t].saved == if ok then old(state.txs[tx.t].saved)[order[i] := locks[order[i]] - 1]
                                       else old(state.txs[tx.t].saved)
      ensures solo ==> OnlyLocksChange()
      ensures solo ==> (ok <==> !Locked(old(locks[order[i]])))
      ensures solo ==> locks[..] == if ok then old(locks[..])[order[i] := old(locks[order[i]]) + 1] else old(locks[..])
    {
      var vl := LoadLockWord(tx, order, i, solo);
      ok := false;
      if !Locked(vl) {
        ok := Swap(tx, order, i, vl, solo);
      }
    }

    /** `dic_forEach(unique_locks, lock_unique_lock_set)`: stops at the first lock it cannot take, and returns it.
        The locks before it are held, each with its former value saved. Undisturbed it stops exactly at the first
        lock that is not free, and sets the lock bits before it. */
    method LockAll(tx: Transaction, order: seq<nat>, ghost solo: bool) returns (failed: seq<nat>, ghost stop: nat)
      requires Valid() && InPhase(tx, Locking(order, 0)) && Distinct(order) && InRange(order)
      modifies this, locks
      ensures Valid() && locks == old(locks) && tx.Matches(state) && Keeps(old(state.txs[tx.t]), state.txs[tx.t])
      ensures Went(tx.t, solo) && stop <= |order| && state.txs[tx.t].saved.Keys == Elems(order[..stop])
      ensures state.txs[tx.t].phase == if failed == [] then Locking(order, |order|) else RollingBack(order, 0, stop)
      ensures if failed == [] then stop == |order| else stop < |order| && failed == [order[stop]]
      ensures forall l :: l in state.txs[tx.t].saved ==>
        l < locks.Length && Locked(locks[l]) && locks[l] == state.txs[tx.t].saved[l] + 1
      ensures solo ==> OnlyLocksChange()
      ensures solo ==> LockedUpTo(old(locks[..]), locks[..], order, stop)
      ensures solo ==> forall k :: 0 <= k < stop ==> !Locked(old(locks[order[k]]))
      ensures solo && failed != [] ==> Locked(old(locks[order[stop]]))
    {
      failed, stop := LockEach(tx, order, solo);
      HoldsOrder(c, state, tx.t);
    }

    /** The pass itself. */
    method LockEach(tx: Transaction, order: seq<nat>, ghost solo: bool) returns (failed: seq<nat>, ghost stop: nat)
      requires Valid() && InPhase(tx, Locking(order, 0)) && Distinct(order) && InRange(order)
      modifies this, locks
      ensures Valid() && locks == old(locks) && tx.Matches(state) && Keeps(old(state.txs[tx.t]), state.txs[tx.t])
      ensures Went(tx.t, solo) && stop <= |order|
      ensures state.txs[tx.t].phase == if failed == [] then Locking(order, |order|) else RollingBack(order, 0, stop)
      ensures if failed == [] then stop == |order| else stop < |order| && failed == [order[stop]]
      ensures solo ==> OnlyLocksChange() && LockedUpTo(old(locks[..]), locks[..], order, stop)
      ensures solo ==> forall k :: 0 <= k < stop ==> !Locked(old(locks[order[k]]))
      ensures solo && failed != [] ==> Locked(old(locks[order[stop]]))
    {
      var i := 0;
      while i < |order|
        invariant i <= |order| && Valid() && locks == old(locks) && InPhase(tx, Locking(order, i))
        invariant Went(tx.t, solo) && Keeps(old(state.txs[tx.t]), state.txs[tx.t])
        invariant solo ==> OnlyLocksChange() && LockedUpTo(old(locks[..]), locks[..], order, i)
        invariant solo ==> forall k :: 0 <= k < i ==> !Locked(old(locks[order[k]]))
      {
        OneMoreLocked(order, i);
        var ok := TryAcquire(tx, order, i, solo);
        if !ok {
          return [order[i]], i;
        }
        i := i + 1;
      }
      failed, stop := [], |order|;
    }

    /** `lock_release`, a fetch-and-sub: the lock gets back the value saved when it was taken. */
    method Release(tx: Transaction, order: seq<nat>, i: nat, ghost stop: nat, ghost solo: bool)
      requires Valid() && InPhase(tx, RollingBack(order, i, stop))
      requires i != stop && i < |order| && order[i] < LOCK_ARRAY_SIZE
      modifies this, locks
      ensures Valid() && locks == old(locks) && InPhase(tx, RollingBack(order, i + 1, stop)) && Went(tx.t, solo)
      ensures Keeps(old(state.txs[tx.t]), state.txs[tx.t])
      ensures order[i] in old(state.txs[tx.t].saved) && locks[order[i]] == old(state.txs[tx.t].saved)[order[i]]
      ensures solo ==> OnlyLocksChange() && locks[..] == old(locks[..])[order[i] := old(locks[order[i]]) - 1]
    {
      Pause(tx, solo);
      StateIsReachable();
      ReleasesOwnLock(c, state, tx.t);
      Take(RollBackLock(tx.t));
      locks[order[i]] := locks[order[i]] - 1;
    }

    /** `dic_forEach(unique_locks, unlock_unique_lock_set_until)`: visits the unmodified table in the same order
        again, up to the lock that could not be taken; then `tx_destroy`. Every lock held is given back, with its
        saved value; undisturbed, exactly the lock bits before `stop` are cleared. */
    method RollBack(tx: Transaction, order: seq<nat>, key: seq<nat>, ghost stop: nat, ghost solo: bool)
      requires Valid() && InPhase(tx, RollingBack(order, 0, stop)) && Distinct(order) && InRange(order)
      requires if key == [] then stop == |order| else stop < |order| && key == [order[stop]]
      modifies this, locks, tx`allocSet
      ensures Valid() && locks == old(locks) && InPhase(tx, Phase.Aborted) && Went(tx.t, solo)
      ensures Keeps(old(state.txs[tx.t]), state.txs[tx.t]) && state.txs[tx.t].saved == map[]
      ensures forall l :: l in old(state.txs[tx.t].saved) ==>
        GaveBack(steps, trace, |old(steps)|, |steps|, tx.t, l, old(state.txs[tx.t].saved)[l])
      ensures solo ==> OnlyLocksChange()
      ensures solo ==> LockedUpTo(locks[..], old(locks[..]), order, stop)
    {
      ReleaseUntil(tx, order, key, stop, solo);
      AbortRolledBack(tx);
      LocksWereGivenBack(tx.t);
    }

    /** The pass itself. */
    method ReleaseUntil(tx: Transaction, order: seq<nat>, key: seq<nat>, ghost stop: nat, ghost solo: bool)
      requires Valid() && InPhase(tx, RollingBack(order, 0, stop)) && Distinct(order) && InRange(order)
      requires if key == [] then stop == |order| else stop < |order| && key == [order[stop]]
      modifies this, locks
      ensures Valid() && locks == old(locks) && InPhase(tx, RollingBack(order, stop, stop)) && Went(tx.t, solo)
      ensures Keeps(old(state.txs[tx.t]), state.txs[tx.t])
      ensures solo ==> OnlyLocksChange() && LockedUpTo(locks[..], old(locks[..]), order, stop)
    {
      var i := 0;
      while i < |order| && (key == [] || order[i] != key[0])
        invariant i <= stop <= |order| && Valid() && locks == old(locks) && InPhase(tx, RollingBack(order, i, stop))
        invariant Went(tx.t, solo) && Keeps(old(state.txs[tx.t]), state.txs[tx.t])
        invariant solo ==> OnlyLocksChange() && LockedUpTo(locks[..], old(locks[..]), order, i)
      {
        OneMoreLocked(order, i);
        Release(tx, order, i, stop, solo);
        i := i + 1;
      }
    }

    /** What an aborted transaction held before, it gave back in between. */
    twostate lemma LocksWereGivenBack(t: Tid)
      requires old(Recorded()) && Recorded() && old(steps) <= steps
      requires t in old(state.txs) && t in state.txs && state.txs[t].phase.Aborted?
      ensures state.txs[t].saved == map[]
      ensures forall l :: l in old(state.txs)[t].saved ==>
        GaveBack(steps, trace, |old(steps)|, |steps|, t, l, old(state.txs)[t].saved[l])
    {
      var i := |old(steps)|;
      StatesStay();
      forall l | l in old(state.txs)[t].saved
        ensures GaveBack(steps, trace, i, |steps|, t, l, old(state.txs)[t].saved[l])
      {
        RollbackIsExact(c, steps, trace, i, |steps|, t, l);
      }
      LocksAreGood(c, steps, trace, |steps|, t);
    }

    method AbortRolledBack(tx: Transaction)
      requires Valid() && tx.Matches(state) && state.txs[tx.t].phase.RollingBack?
      requires state.txs[tx.t].phase.i == state.txs[tx.t].phase.stop
      modifies `state, `steps, `trace, tx`allocSet
      ensures Valid() && InPhase(tx, Phase.Aborted) && Keeps(old(state.txs[tx.t]), state.txs[tx.t]) && Went(tx.t, true)
    {
      Take(FinishRollBack(tx.t));
      Destroy(tx);
    }

    /** The fetch-and-add that gives the transaction its write version. */
    method FetchVersion(tx: Transaction, order: seq<nat>, ghost solo: bool)
      requires Valid() && InPhase(tx, Locking(order, |order|))
      modifies this, locks, tx`writeVersion
      ensures Valid() && locks == old(locks) && InPhase(tx, Fetched(order)) && Went(tx.t, solo)
      ensures Keeps(old(state.txs[tx.t]), state.txs[tx.t]) && state.txs[tx.t].saved == old(state.txs[tx.t].saved)
      ensures tx.writeVersion == globalVersion
      ensures solo ==> globalVersion == old(globalVersion) + 2 && memory == old(memory) && segments == old(segments)
      ensures solo ==> locks[..] == old(locks[..])
    {
      Pause(tx, solo);
      Take(FetchAdd(tx.t));
      tx.writeVersion := globalVersion + 2;
      globalVersion := globalVersion + 2;
    }

    /** `validate_reading_set` on one word. */
    method ValidateOne(tx: Transaction, order: seq<nat>, rs: seq<Addr>, j: nat, ghost solo: bool) returns (ok: bool)
      requires Valid() && InPhase(tx, Validating(order, rs, j)) && j < |rs|
      modifies this, locks
      ensures Valid() && InPhase(tx, if ok then Validating(order, rs, j + 1) else RollingBack(order, 0, |order|))
      ensures locks == old(locks) && Keeps(old(state.txs[tx.t]), state.txs[tx.t]) && Went(tx.t, solo)
      ensures state.txs[tx.t].saved == old(state.txs[tx.t].saved) && (solo ==> SharedStays())
      ensures ok <==> Current(c, locks[..], tx.writeSet, tx.readVersion, rs[j])
    {
      Pause(tx, solo);
      var lock := c.LockOf(rs[j]);
      VersionIsEven(tx.t);
      CheckComparesVersions(locks[lock], tx.readVersion);
      ok := if rs[j] in tx.writeSet then CheckVersion(locks[lock], tx.readVersion)
            else Check(locks[lock], tx.readVersion);
      Take(ValidateWord(tx.t));
    }

    /** `dic_forEach(read_set, validate_reading_set)`: stops at the first word that fails its check. Undisturbed it
        succeeds exactly if all words pass. */
    method ValidateAll(tx: Transaction, order: seq<nat>, rs: seq<Addr>, ghost solo: bool) returns (ok: bool)
      requires Valid() && InPhase(tx, Validating(order, rs, 0))
      modifies this, locks
      ensures Valid() && InPhase(tx, if ok then Validating(order, rs, |rs|) else RollingBack(order, 0, |order|))
      ensures locks == old(locks) && Keeps(old(state.txs[tx.t]), state.txs[tx.t]) && Went(tx.t, solo)
      ensures state.txs[tx.t].saved == old(state.txs[tx.t].saved)
      ensures !ok ==> exists j :: 0 <= j < |rs| && !Current(c, locks[..], tx.writeSet, tx.readVersion, rs[j])
      ensures solo ==> SharedStays() && (ok <==> AllCurrent(c, locks[..], tx.writeSet, tx.readVersion, Elems(rs)))
    {
      var j := 0;
      while j < |rs|
        invariant j <= |rs| && Valid() && locks == old(locks) && InPhase(tx, Validating(order, rs, j))
        invariant Keeps(old(state.txs[tx.t]), state.txs[tx.t]) && Went(tx.t, solo)
        invariant state.txs[tx.t].saved == old(state.txs[tx.t].saved) && (solo ==> SharedStays())
        invariant solo ==> forall k :: 0 <= k < j ==> Current(c, locks[..], tx.writeSet, tx.readVersion, rs[k])
      {
        ok := ValidateOne(tx, order, rs, j, solo);
        if !ok { return; }
        j := j + 1;
      }
      ok := true;
    }

    /** Validation is over: the write set enters the history. Nothing happens in memory. */
    ghost method Decide(tx: Transaction, order: seq<nat>, ws: seq<Addr>)
      requires Valid() && tx.Matches(state) && Visits(ws, tx.writeSet.Keys)
      requires var tx0 := state.txs[tx.t];
        || (tx0.phase == Fetched(order) && tx0.wv == tx0.rv + 2)
        || (tx0.phase.Validating? && tx0.phase.order == order && tx0.phase.j == |tx0.phase.rs|)
      modifies `state, `steps, `trace
      ensures Valid() && InPhase(tx, Publishing(order, ws, 0)) && Keeps(old(state.txs[tx.t]), state.txs[tx.t])
      ensures Went(tx.t, true) && tx.writeVersion in state.hist
      ensures state.hist[tx.writeVersion] == Protocol.Commit(tx.t, tx.writeSet)
    {
      Take(if state.txs[tx.t].phase.Fetched? then SkipValidation(tx.t, ws) else FinishValidation(tx.t, ws));
    }

    /** `write_writing_set` on one word. */
    method PublishOne(tx: Transaction, order: seq<nat>, ws: seq<Addr>, k: nat, ghost solo: bool)
      requires Valid() && InPhase(tx, Publishing(order, ws, k)) && k < |ws| && ws[k] in tx.writeSet
      modifies this, locks
      ensures Valid() && locks == old(locks) && InPhase(tx, Publishing(order, ws, k + 1)) && Went(tx.t, solo)
      ensures Keeps(old(state.txs[tx.t]), state.txs[tx.t])
      ensures solo ==> OnlyMemoryChanges() && memory == old(memory)[ws[k] := tx.writeSet[ws[k]]]
    {
      Pause(tx, solo);
      Take(PublishWord(tx.t));
      memory := memory[ws[k] := tx.writeSet[ws[k]]];
    }

    /** `dic_forEach(write_set, write_writing_set)`: afterwards memory holds the write set, whatever others do;
        undisturbed, nothing else has changed. */
    method PublishAll(tx: Transaction, order: seq<nat>, ws: seq<Addr>, ghost solo: bool)
      requires Valid() && InPhase(tx, Publishing(order, ws, 0)) && Visits(ws, tx.writeSet.Keys)
      modifies this, locks
      ensures Valid() && locks == old(locks) && InPhase(tx, Publishing(order, ws, |ws|)) && Went(tx.t, solo)
      ensures Keeps(old(state.txs[tx.t]), state.txs[tx.t])
      ensures forall x :: x in tx.writeSet ==> Get(memory, x) == tx.writeSet[x]
      ensures solo ==> memory == old(memory) + tx.writeSet
      ensures solo ==> OnlyMemoryChanges()
    {
      WordsAreWritten(tx.writeSet, ws);
      CopyWords(tx, order, ws, solo);
      WrittenIsAll(old(memory), tx.writeSet, ws);
      WordsArePublished(tx.t);
    }

    lemma WordsArePublished(t: Tid)
      requires Recorded() && t in state.txs && state.txs[t].phase.Publishing?
      requires state.txs[t].phase.k == |state.txs[t].phase.ws|
      ensures forall x :: x in state.txs[t].writes ==> Get(state.mem, x) == state.txs[t].writes[x]
    {
      StateIsReachable();
      forall x | x in state.txs[t].writes ensures Get(state.mem, x) == state.txs[t].writes[x] {
        Serializability.PublishedIsNewest(c, state, t, x);
      }
    }

    method CopyWords(tx: Transaction, order: seq<nat>, ws: seq<Addr>, ghost solo: bool)
      requires Valid() && InPhase(tx, Publishing(order, ws, 0))
      requires forall j :: 0 <= j < |ws| ==> ws[j] in tx.writeSet
      modifies this, locks
      ensures Valid() && locks == old(locks) && InPhase(tx, Publishing(order, ws, |ws|)) && Went(tx.t, solo)
      ensures Keeps(old(state.txs[tx.t]), state.txs[tx.t])
      ensures solo ==> OnlyMemoryChanges() && memory == Written(old(memory), tx.writeSet, ws, |ws|)
    {
      var k := 0;
      while k < |ws|
        invariant k <= |ws| && Valid() && locks == old(locks) && InPhase(tx, Publishing(order, ws, k))
        invariant Keeps(old(state.txs[tx.t]), state.txs[tx.t]) && Went(tx.t, solo)
        invariant solo ==> OnlyMemoryChanges() && memory == Written(old(memory), tx.writeSet, ws, k)
      {
        PublishOne(tx, order, ws, k, solo);
        k := k + 1;
      }
    }

    /** `lock_update_and_release`, a store. */
    method UpdateAndRelease(tx: Transaction, order: seq<nat>, i: nat, ghost solo: bool)
      requires Valid() && InPhase(tx, Releasing(order, i)) && i < |order| && order[i] < LOCK_ARRAY_SIZE
      modifies this, locks
      ensures Valid() && locks == old(locks) && InPhase(tx, Releasing(order, i + 1)) && Went(tx.t, solo)
      ensures Keeps(old(state.txs[tx.t]), state.txs[tx.t]) && locks[order[i]] == tx.writeVersion
      ensures solo ==> OnlyLocksChange() && locks[..] == old(locks[..])[order[i] := tx.writeVersion]
    {
      Pause(tx, solo);
      Take(ReleaseLock(tx.t));
      locks[order[i]] := tx.writeVersion;
    }

    /** `dic_forEach(unique_locks, update_unique_lock_set)`, `ll_concat_safe` and `tx_destroy`: the write version is
        stored into every lock of the order, and the new segments end the shared list. */
    method ReleaseAll(tx: Transaction, order: seq<nat>, ghost solo: bool)
      requires Valid() && InPhase(tx, Releasing(order, 0)) && Distinct(order) && InRange(order)
      modifies this, locks, tx`allocSet
      ensures Valid() && locks == old(locks) && InPhase(tx, Phase.Committed) && Went(tx.t, solo)
      ensures Keeps(old(state.txs[tx.t]), state.txs[tx.t]) && tx.writeVersion == old(tx.writeVersion)
      ensures forall l :: l in old(state.txs[tx.t].saved) ==>
        Stored(steps, trace, |old(steps)|, |steps|, tx.t, l, tx.writeVersion)
      ensures EndsWith(segments, old(tx.allocSet))
      ensures solo ==> globalVersion == old(globalVersion) && memory == old(memory)
      ensures solo ==> segments == old(segments) + old(tx.allocSet)
      ensures solo ==> ReleasedUpTo(old(locks[..]), locks[..], order, |order|, tx.writeVersion)
    {
      StoreVersions(tx, order, solo);
      HandOver(tx, order, solo);
      VersionsWereStored(tx.t);
    }

    method StoreVersions(tx: Transaction, order: seq<nat>, ghost solo: bool)
      requires Valid() && InPhase(tx, Releasing(order, 0)) && Distinct(order) && InRange(order)
      modifies this, locks
      ensures Valid() && locks == old(locks) && InPhase(tx, Releasing(order, |order|)) && Went(tx.t, solo)
      ensures Keeps(old(state.txs[tx.t]), state.txs[tx.t])
      ensures solo ==> OnlyLocksChange() && ReleasedUpTo(old(locks[..]), locks[..], order, |order|, tx.writeVersion)
    {
      var i := 0;
      while i < |order|
        invariant i <= |order| && Valid() && locks == old(locks) && InPhase(tx, Releasing(order, i))
        invariant Keeps(old(state.txs[tx.t]), state.txs[tx.t]) && Went(tx.t, solo)
        invariant solo ==> OnlyLocksChange() && ReleasedUpTo(old(locks[..]), locks[..], order, i, tx.writeVersion)
      {
        OneMoreLocked(order, i);
        UpdateAndRelease(tx, order, i, solo);
        i := i + 1;
      }
    }

    /** What a committed transaction held before got its write version in between. */
    twostate lemma VersionsWereStored(t: Tid)
      requires old(Recorded()) && Recorded() && old(steps) <= steps
      requires t in old(state.txs) && t in state.txs && state.txs[t].phase.Committed?
      ensures forall l :: l in old(state.txs)[t].saved ==>
        Stored(steps, trace, |old(steps)|, |steps|, t, l, state.txs[t].wv)
    {
      var i := |old(steps)|;
      StatesStay();
      forall l | l in old(state.txs)[t].saved ensures Stored(steps, trace, i, |steps|, t, l, state.txs[t].wv) {
        CommitStoresVersion(c, steps, trace, i, |steps|, t, l);
      }
    }

    /** `ll_concat_safe` and `tx_destroy`: the new segments become shared. */
    method HandOver(tx: Transaction, ghost order: seq<nat>, ghost solo: bool)
      requires Valid() && InPhase(tx, Releasing(order, |order|))
      modifies this, locks, tx`allocSet
      ensures Valid() && locks == old(locks) && InPhase(tx, Phase.Committed) && Went(tx.t, solo)
      ensures Keeps(old(state.txs[tx.t]), state.txs[tx.t]) && EndsWith(segments, old(tx.allocSet))
      ensures solo ==> globalVersion == old(globalVersion) && memory == old(memory) && locks[..] == old(locks[..])
      ensures solo ==> segments == old(segments) + old(tx.allocSet)
    {
      Pause(tx, solo);
      Take(FinishCommit(tx.t));
      segments := segments + tx.allocSet;
      tx.allocSet := [];
    }

    /** A read-only transaction ends without touching anything shared. */
    method EndReader(tx: Transaction)
      requires Valid() && InPhase(tx, Phase.Running) && tx.readOnly
      modifies `state, `steps, `trace
      ensures Valid() && InPhase(tx, Phase.Committed) && Keeps(old(state.txs[tx.t]), state.txs[tx.t])
      ensures Went(tx.t, true)
    {
      Take(EndReadOnly(tx.t));
    }

    /** From the write version to the decision: validation, unless nobody took a version in between. */
    method Confirm(tx: Transaction, order: seq<nat>, ghost solo: bool) returns (ok: bool)
      requires Valid() && InPhase(tx, Fetched(order)) && !tx.readOnly
      modifies this, locks
      ensures Valid() && locks == old(locks) && tx.Matches(state) && Went(tx.t, solo)
      ensures Keeps(old(state.txs[tx.t]), state.txs[tx.t]) && state.txs[tx.t].saved == old(state.txs[tx.t].saved)
      ensures !ok ==> state.txs[tx.t].phase == RollingBack(order, 0, |order|)
      ensures ok && tx.writeVersion == tx.readVersion + 2 ==> state.txs[tx.t].phase == Fetched(order)
      ensures ok && tx.writeVersion != tx.readVersion + 2 ==>
        exists rs :: state.txs[tx.t].phase == Validating(order, rs, |rs|)
      ensures solo ==> SharedStays()
      ensures tx.writeVersion == tx.readVersion + 2 ==> ok
      ensures solo && tx.writeVersion != tx.readVersion + 2 ==>
        (ok <==> AllCurrent(c, locks[..], tx.writeSet, tx.readVersion, tx.readSet))
    {
      ok := true;
      if tx.writeVersion != tx.readVersion + 2 {
        var rs := VisitOrder(tx.readSet);
        Move(tx, StartValidation(tx.t, rs));
        ok := ValidateAll(tx, order, rs, solo);
      }
    }

    /** From the decision to the end. */
    method Finish(tx: Transaction, order: seq<nat>, ghost solo: bool)
      requires Valid() && tx.Matches(state) && Distinct(order) && InRange(order)
      requires if tx.writeVersion == tx.readVersion + 2 then state.txs[tx.t].phase == Fetched(order)
               else exists rs :: state.txs[tx.t].phase == Validating(order, rs, |rs|)
      modifies this, locks, tx`allocSet
      ensures Valid() && locks == old(locks) && InPhase(tx, Phase.Committed) && Went(tx.t, solo)
      ensures Keeps(old(state.txs[tx.t]), state.txs[tx.t]) && tx.writeVersion == old(tx.writeVersion)
      ensures EndsWith(segments, old(tx.allocSet))
      ensures solo ==> globalVersion == old(globalVersion) && memory == old(memory) + tx.writeSet
      ensures solo ==> segments == old(segments) + old(tx.allocSet)
      ensures solo ==> ReleasedUpTo(old(locks[..]), locks[..], order, |order|, tx.writeVersion)
    {
      var ws := VisitOrder(tx.writeSet.Keys);
      Decide(tx, order, ws);
      PublishAll(tx, order, ws, solo);
      Move(tx, StartRelease(tx.t));
      ReleaseAll(tx, order, solo);
    }

    /** The second half of `tm_end`: from holding all locks. */
    method Commit(tx: Transaction, order: seq<nat>, ghost solo: bool) returns (committed: bool)
      requires Valid() && InPhase(tx, Locking(order, |order|)) && Distinct(order) && InRange(order) && !tx.readOnly
      modifies this, locks, tx`allocSet, tx`writeVersion
      ensures Valid() && InPhase(tx, if committed then Phase.Committed else Phase.Aborted)
      ensures locks == old(locks) && Keeps(old(state.txs[tx.t]), state.txs[tx.t]) && Went(tx.t, solo)
      ensures committed ==> EndsWith(segments, old(tx.allocSet))
      ensures solo ==> tx.writeVersion == globalVersion == old(globalVersion) + 2
      ensures solo ==> memory == if committed then old(memory) + tx.writeSet else old(memory)
      ensures solo ==> segments == if committed then old(segments) + old(tx.allocSet) else old(segments)
      ensures solo && committed ==> ReleasedUpTo(old(locks[..]), locks[..], order, |order|, tx.writeVersion)
      ensures solo && !committed ==> LockedUpTo(locks[..], old(locks[..]), order, |order|)
      ensures solo ==> (committed <==> old(globalVersion) == tx.readVersion ||
                                       AllCurrent(c, old(locks[..]), tx.writeSet, tx.readVersion, tx.readSet))
    {
      FetchVersion(tx, order, solo);
      committed := Confirm(tx, order, solo);
      if committed {
        Finish(tx, order, solo);
      } else {
        RollBack(tx, order, [], |order|, solo);
      }
    }

    /** `tm_end`. Whatever the others do, the transaction ends committed or aborted, with the reads and writes it
        had. Undisturbed, a commit publishes exactly the write set, gives the locks of the written words the new
        version and hands over the segments; a failure leaves memory, locks and
        segments as they were. With no lock held or newer than its read version it commits, even if several of its
        words share a lock. */
    method TmEnd(tx: Transaction, ghost solo: bool) returns (committed: bool)
      requires Valid() && InPhase(tx, Phase.Running)
      modifies this, locks, tx`allocSet, tx`writeVersion
      ensures Valid() && InPhase(tx, if committed then Phase.Committed else Phase.Aborted)
      ensures locks == old(locks) && Keeps(old(state.txs[tx.t]), state.txs[tx.t]) && Went(tx.t, solo)
      ensures tx.readOnly ==> committed
      ensures committed && !tx.readOnly ==> EndsWith(segments, old(tx.allocSet))
      ensures solo && (tx.readOnly || !committed) ==>
        memory == old(memory) && segments == old(segments) && locks[..] == old(locks[..])
      ensures solo && tx.readOnly ==> globalVersion == old(globalVersion)
      ensures solo && committed && !tx.readOnly ==>
        && memory == old(memory) + tx.writeSet && segments == old(segments) + old(tx.allocSet)
        && tx.writeVersion == globalVersion == old(globalVersion) + 2
        && Restamped(old(locks[..]), locks[..], LockSet(c, tx.writeSet), globalVersion)
      ensures solo && !tx.readOnly ==>
        (committed <==> MayCommit(c, old(locks[..]), old(globalVersion), tx.readVersion, tx.readSet, tx.writeSet))
      ensures solo && Calm(old(state), old(state.gv)) && old(state.gv) == tx.readVersion ==> committed
    {
      if tx.readOnly {
        EndReader(tx);
        committed := true;
      } else {
        committed := EndWriter(tx, solo);
      }
    }

    method EndWriter(tx: Transaction, ghost solo: bool) returns (committed: bool)
      requires Valid() && InPhase(tx, Phase.Running) && !tx.readOnly
      modifies this, locks, tx`allocSet, tx`writeVersion
      ensures Valid() && InPhase(tx, if committed then Phase.Committed else Phase.Aborted)
      ensures locks == old(locks) && Keeps(old(state.txs[tx.t]), state.txs[tx.t]) && Went(tx.t, solo)
      ensures committed ==> EndsWith(segments, old(tx.allocSet))
      ensures solo && !committed ==> memory == old(memory) && segments == old(segments) && locks[..] == old(locks[..])
      ensures solo && committed ==>
        && memory == old(memory) + tx.writeSet && segments == old(segments) + old(tx.allocSet)
        && tx.writeVersion == globalVersion == old(globalVersion) + 2
        && Restamped(old(locks[..]), locks[..], LockSet(c, tx.writeSet), globalVersion)
      ensures solo ==>
        (committed <==> MayCommit(c, old(locks[..]), old(globalVersion), tx.readVersion, tx.readSet, tx.writeSet))
    {
      VersionIsEven(tx.t);
      var order := StartLocking(tx);
      ghost var before, gv := locks[..], globalVersion;
      var failed, stop := LockAll(tx, order, solo);
      ghost var locked := locks[..];
      if failed != [] {
        RollBack(tx, order, failed, stop, solo);
        committed := false;
      } else {
        committed := Commit(tx, order, solo);
      }
      if solo {
        LocksAfter(before, locked, locks[..], order, stop, LockSet(c, tx.writeSet), globalVersion);
        CommitIsDecided(c, before, locked, order, stop, gv, tx.readVersion, tx.readSet, tx.writeSet);
      }
    }

    lemma VersionIsEven(t: Tid)
      requires Recorded() && t in state.txs
      ensures state.txs[t].rv % 2 == 0
    {
      StateIsReachable();
      RunRecord.ReachableGood(c, state);
      assert ProtocolInvariant.EvenInv(state);
    }

    /** The locks of the written words, in the order in which they will be visited. */
    method StartLocking(tx: Transaction) returns (order: seq<nat>)
      requires Valid() && InPhase(tx, Phase.Running) && !tx.readOnly
      modifies `state, `steps, `trace
      ensures Valid() && InPhase(tx, Locking(order, 0)) && Went(tx.t, true)
      ensures Visits(order, LockSet(c, tx.writeSet)) && InRange(order)
      ensures Keeps(old(state.txs[tx.t]), state.txs[tx.t])
    {
      var uniqueLocks := CreateUniqueLocks(tx);
      order := VisitOrder(uniqueLocks);
      LocksAreInRange(c, tx.writeSet, order);
      Move(tx, StartCommit(tx.t, order));
    }

    /** A whole transaction: any reads, writes and allocations, then `tm_end`. Run from a state in which nobody
        is inside `tm_end`, and undisturbed, it never aborts and commits; and what it does is then what the
        reference does with the same calls on the same memory. */
    method RunTransaction(t: Tid, readOnly: bool, calls: seq<Call>, ghost solo: bool) returns (committed: bool)
      requires Valid() && t !in state.txs
      requires CallsOk(align, readOnly, calls) && CallsFresh(c, state, align, calls, 0)
      requires !solo ==> forall k :: 0 <= k < |calls| ==> !calls[k].Allocate?
      modifies this, locks
      ensures Valid() && t in state.txs && Went(t, solo) && locks == old(locks)
      ensures state.txs[t].phase == if committed then Phase.Committed else Phase.Aborted
      ensures committed ==> CallsLogged(align, calls, state.txs[t].log)
      ensures solo && committed ==> RunLog(old(memory), state.txs[t].log) == Memory(memory)
      ensures solo && !committed ==> memory == old(memory) && segments == old(segments) && locks[..] == old(locks[..])
      ensures solo && (forall t' :: t' in old(state.txs) ==> ProtocolInvariant.Held(old(state.txs)[t'].phase) == {})
        ==> committed
    {
      ghost var quiet := forall t' :: t' in state.txs ==> ProtocolInvariant.Held(state.txs[t'].phase) == {};
      if quiet {
        StateIsReachable();
        QuietIsCalm(c, state);
      }
      var tx := TmBegin(t, readOnly);
      committed := RunBegun(tx, calls, solo);
    }

    /** The same, once it has begun. */
    method RunBegun(tx: Transaction, calls: seq<Call>, ghost solo: bool) returns (committed: bool)
      requires Valid() && InPhase(tx, Phase.Running) && state.txs[tx.t].log == [] && state.txs[tx.t].obs == {}
      requires CallsOk(align, tx.readOnly, calls) && CallsFresh(c, state, align, calls, 0)
      requires !solo ==> forall k :: 0 <= k < |calls| ==> !calls[k].Allocate?
      modifies this, locks, tx
      ensures Valid() && locks == old(locks) && Went(tx.t, solo)
      ensures InPhase(tx, if committed then Phase.Committed else Phase.Aborted)
      ensures committed ==> CallsLogged(align, calls, state.txs[tx.t].log)
      ensures solo && committed ==> RunLog(old(memory), state.txs[tx.t].log) == Memory(memory)
      ensures solo && !committed ==> memory == old(memory) && segments == old(segments) && locks[..] == old(locks[..])
      ensures solo && Calm(old(state), old(state.gv)) && old(state.gv) == tx.readVersion ==> committed
    {
      var ok := RunCalls(tx, calls, solo);
      committed := false;
      if ok {
        ghost var log := state.txs[tx.t].log;
        if solo {
          RunsLikeReference(memory, tx.t);
        }
        committed := TmEnd(tx, solo);
      }
    }

    /** A transaction whose reads all agree with memory `m` runs on the reference from there. */
    lemma RunsLikeReference(m: map<Addr, Word>, t: Tid)
      requires Recorded() && t in state.txs && forall p :: p in state.txs[t].obs ==> p.1 == Get(m, p.0)
      ensures RunLog(m, state.txs[t].log) == Memory(m + state.txs[t].writes)
      ensures state.txs[t].readOnly ==> m + state.txs[t].writes == m
    {
      StateIsReachable();
      RunRecord.ReachableGood(c, state);
      assert RunRecord.LogOk(state.txs[t]);
      OverlayRuns(m, state.txs[t].log, state.txs[t].obs);
      assert m + map[] == m;
    }

    method RunCalls(tx: Transaction, calls: seq<Call>, ghost solo: bool) returns (ok: bool)
      requires Valid() && InPhase(tx, Phase.Running) && state.txs[tx.t].log == [] && state.txs[tx.t].obs == {}
      requires CallsOk(align, tx.readOnly, calls) && CallsFresh(c, state, align, calls, 0)
      requires !solo ==> forall k :: 0 <= k < |calls| ==> !calls[k].Allocate?
      modifies this, locks, tx
      ensures Valid() && tx.Matches(state) && locks == old(locks) && Went(tx.t, solo)
      ensures state.txs[tx.t].phase == if ok then Phase.Running else Phase.Aborted
      ensures ok ==> CallsLogged(align, calls, state.txs[tx.t].log)
      ensures solo ==> SharedStays()
      ensures solo && ok ==> forall p :: p in state.txs[tx.t].obs ==> p.1 == Get(memory, p.0)
      ensures solo && Calm(old(state), tx.readVersion) ==> ok
    {
      var i := 0;
      while i < |calls|
        invariant i <= |calls| && Valid() && InPhase(tx, Phase.Running) && locks == old(locks) && Went(tx.t, solo)
        invariant CallsLogged(align, calls[..i], state.txs[tx.t].log)
        invariant solo ==> SharedStays() && CallsFresh(c, state, align, calls, i)
        invariant solo ==> forall p :: p in state.txs[tx.t].obs ==> p.1 == Get(memory, p.0)
      {
        ghost var log := state.txs[tx.t].log;
        ok := RunCall(tx, calls, i, calls[i], solo);
        if !ok {
          return;
        }
        OneMoreLogged(align, calls, i, log, state.txs[tx.t].log);
        i := i + 1;
      }
      assert calls[..i] == calls;
      ok := true;
    }

    /** One call of a transaction; an allocation that is refused is no reason to abort. */
    method RunCall(tx: Transaction, ghost calls: seq<Call>, ghost i: nat, call: Call, ghost solo: bool)
      returns (ok: bool)
      requires Valid() && InPhase(tx, Phase.Running) && i < |calls| && call == calls[i]
      requires tx.readOnly ==> call.Read?
      requires call.Write? ==> call.size % align == 0 && |call.values| >= call.size / align
      requires if solo then CallsFresh(c, state, align, calls, i) else !call.Allocate?
      modifies this, locks, tx
      ensures Valid() && tx.Matches(state) && locks == old(locks) && Went(tx.t, solo)
      ensures state.txs[tx.t].phase == if ok then Phase.Running else Phase.Aborted
      ensures ok ==> old(state.txs[tx.t].log) <= state.txs[tx.t].log
      ensures ok ==> CallLogged(align, call, state.txs[tx.t].log[|old(state.txs[tx.t].log)|..])
      ensures solo ==> SharedStays() && CallsFresh(c, state, align, calls, i + 1)
      ensures solo && ok ==> NewReadsAre(old(state.txs[tx.t].obs), state.txs[tx.t].obs, memory)
      ensures solo && Calm(old(state), tx.readVersion) ==> ok
    {
      match call {
        case Read(source, size) =>
          var target;
          ok, target := TmRead(tx, source, size, solo);
        case Write(values, size, target) =>
          ok := TmWrite(tx, values, size, target);
        case Allocate(size, base) =>
          var done := TmAlloc(tx, size, base);
          ok := true;
      }
    }
  }

  // ---- what the contracts speak of

  /** The bitwise `&`. */
  function BitAnd(a: nat, b: nat): nat {
    if a == 0 || b == 0 then 0 else 2 * BitAnd(a / 2, b / 2) + if a % 2 == 1 && b % 2 == 1 then 1 else 0
  }

  function Pow2(k: nat): (n: nat)
    ensures n > 0
  {
    if k == 0 then 1 else 2 * Pow2(k - 1)
  }

  ghost predicate PowerOfTwo(n: nat) {
    exists k: nat :: n == Pow2(k)
  }

  lemma {:induction false} BitAndSelf(n: nat)
    ensures BitAnd(n, n) == n
  {
    if n > 0 {
      BitAndSelf(n / 2);
      assert n % 2 == 0 || n % 2 == 1;
    }
  }

  /** The test of `tm_create` for a power of two. */
  lemma {:induction false} OneBitIsPowerOfTwo(n: nat)
    ensures n > 0 && BitAnd(n, n - 1) == 0 <==> PowerOfTwo(n)
  {
    if n == 1 {
      assert n == Pow2(0);
    } else if n % 2 == 1 {
      assert (n - 1) / 2 == n / 2;
      BitAndSelf(n / 2);
      forall k: nat ensures n != Pow2(k) {
        assert k > 0 ==> Pow2(k) == 2 * Pow2(k - 1);
      }
    } else if n > 0 {
      assert (n - 1) / 2 == n / 2 - 1;
      OneBitIsPowerOfTwo(n / 2);
      if k: nat :| n / 2 == Pow2(k) {
        assert n == Pow2(k + 1);
      }
      if k: nat :| n == Pow2(k) {
        assert n / 2 == Pow2(k - 1);
      }
    }
  }

  /** Everything shared is as it was. */
  ghost predicate SameRegion(s: State, s': State) {
    s'.gv == s.gv && s'.locks == s.locks && s'.mem == s.mem && s'.home == s.home
  }

  /** What a transaction sees of word `x`: its own write, or memory. */
  function Seen(readOnly: bool, writes: map<Addr, Word>, m: map<Addr, Word>, x: Addr): Word {
    if !readOnly && x in writes then writes[x] else Get(m, x)
  }

  /** What has been copied from shared memory since `obs` are values of memory `m`. */
  ghost predicate NewReadsAre(obs: set<(Addr, Word)>, obs': set<(Addr, Word)>, m: map<Addr, Word>) {
    forall p :: p in obs' ==> p in obs || p.1 == Get(m, p.0)
  }

  ghost predicate ChecksPass(c: Config, s: State, rv: int, source: Addr, n: nat)
    requires |s.locks| == LOCK_ARRAY_SIZE
  {
    forall x :: source <= x < source + n ==> Check(LockWord(c, s, x), rv)
  }

  /** The lock of word `x` carries no version newer than `rv`, and its bit is clear unless `x` is in the write set,
      whose locks the transaction itself holds. */
  ghost predicate Current(c: Config, locks: seq<int>, writes: map<Addr, Word>, rv: int, x: Addr)
    requires |locks| == LOCK_ARRAY_SIZE
  {
    var w := locks[c.LockOf(x)];
    w - w % 2 <= rv && (x in writes || w % 2 == 0)
  }

  ghost predicate AllCurrent(c: Config, locks: seq<int>, writes: map<Addr, Word>, rv: int, words: set<Addr>) {
    |locks| == LOCK_ARRAY_SIZE && forall x :: x in words ==> Current(c, locks, writes, rv, x)
  }

  /** No version newer than `rv` has been stored into the lock of `x`, and the lock is not held by others; nor, for
      the sake of another word that shares it, by the transaction itself. */
  ghost predicate StillFresh(c: Config, locks: seq<int>, writes: map<Addr, Word>, rv: int, x: Addr)
    requires |locks| == LOCK_ARRAY_SIZE
  {
    var w := locks[c.LockOf(x)];
    w - w % 2 <= rv && (x in writes || (w % 2 == 0 && c.LockOf(x) !in LockSet(c, writes)))
  }

  /** When a transaction commits that is left alone in `tm_end`, in terms of what it finds there: nobody holds the
      lock of a word it has written, and either no version has been taken since it began, or everything it has
      read is still fresh. */
  ghost predicate MayCommit(c: Config, locks: seq<int>, gv: int, rv: int, readSet: set<Addr>, writes: map<Addr, Word>) {
    && |locks| == LOCK_ARRAY_SIZE
    && (forall x :: x in writes ==> locks[c.LockOf(x)] % 2 == 0)
    && (gv == rv || forall x :: x in readSet ==> StillFresh(c, locks, writes, rv, x))
  }

  /** Under the transaction's own locks the checks of validation decide exactly that. */
  lemma CurrentIsFresh(c: Config, before: seq<int>, locked: seq<int>, order: seq<nat>, writes: map<Addr, Word>, rv: int,
                       x: Addr)
    requires |before| == LOCK_ARRAY_SIZE && rv % 2 == 0 && Visits(order, LockSet(c, writes))
    requires LockedUpTo(before, locked, order, |order|)
    requires forall y :: y in writes ==> before[c.LockOf(y)] % 2 == 0
    ensures Current(c, locked, writes, rv, x) <==> StillFresh(c, before, writes, rv, x)
  {
    var l := c.LockOf(x);
    assert order[..|order|] == order;
    assert l in order <==> l in Elems(order);
    if l in LockSet(c, writes) {
      var y :| y in writes && c.LockOf(y) == l;
      assert before[c.LockOf(y)] % 2 == 0;
    }
  }

  lemma FreeLocks(c: Config, locks: seq<int>, order: seq<nat>, writes: map<Addr, Word>)
    requires |locks| == LOCK_ARRAY_SIZE && Visits(order, LockSet(c, writes))
    requires forall k :: 0 <= k < |order| ==> order[k] < LOCK_ARRAY_SIZE && !Locked(locks[order[k]])
    ensures forall x :: x in writes ==> locks[c.LockOf(x)] % 2 == 0
  {
    forall x | x in writes ensures locks[c.LockOf(x)] % 2 == 0 {
      assert c.LockOf(x) in Elems(order);
      var k :| 0 <= k < |order| && order[k] == c.LockOf(x);
      assert !Locked(locks[order[k]]);
    }
  }

  lemma HeldLock(c: Config, locks: seq<int>, order: seq<nat>, stop: nat, writes: map<Addr, Word>)
    requires |locks| == LOCK_ARRAY_SIZE && Visits(order, LockSet(c, writes)) && stop < |order|
    requires order[stop] < LOCK_ARRAY_SIZE && Locked(locks[order[stop]])
    ensures exists x :: x in writes && locks[c.LockOf(x)] % 2 != 0
  {
    assert order[stop] in Elems(order);
    var x :| x in writes && c.LockOf(x) == order[stop];
    assert locks[c.LockOf(x)] % 2 != 0;
  }

  /** Taking the locks up to `stop` and then validating is deciding `MayCommit`. */
  lemma CommitIsDecided(c: Config, before: seq<int>, locked: seq<int>, order: seq<nat>, stop: nat, gv: int, rv: int,
                        readSet: set<Addr>, writes: map<Addr, Word>)
    requires |before| == LOCK_ARRAY_SIZE && rv % 2 == 0 && Visits(order, LockSet(c, writes)) && InRange(order)
    requires stop <= |order| && LockedUpTo(before, locked, order, stop)
    requires forall k :: 0 <= k < stop ==> !Locked(before[order[k]])
    requires stop < |order| ==> Locked(before[order[stop]])
    ensures MayCommit(c, before, gv, rv, readSet, writes) <==>
      stop == |order| && (gv == rv || AllCurrent(c, locked, writes, rv, readSet))
  {
    if stop < |order| {
      HeldLock(c, before, order, stop, writes);
    } else {
      FreeLocks(c, before, order, writes);
      forall x | x in readSet ensures Current(c, locked, writes, rv, x) <==> StillFresh(c, before, writes, rv, x) {
        CurrentIsFresh(c, before, locked, order, writes, rv, x);
      }
    }
  }

  predicate EndsWith<T(==)>(s: seq<T>, end: seq<T>) {
    |end| <= |s| && s[|s| - |end|..] == end
  }

  lemma OneMoreLocked(order: seq<nat>, i: nat)
    requires Distinct(order) && i < |order|
    ensures order[i] !in order[..i] && order[..i + 1] == order[..i] + [order[i]]
  {}

  /** The locks in `ls` carry version `wv`, the others are unchanged. */
  ghost predicate Restamped(locks: seq<int>, locks': seq<int>, ls: set<nat>, wv: int) {
    |locks'| == |locks| && forall l :: 0 <= l < |locks| ==> locks'[l] == if l in ls then wv else locks[l]
  }

  /** Taking locks and clearing them again changes nothing; taking and releasing them stamps them. */
  lemma LocksAfter(locks: seq<int>, locked: seq<int>, locks': seq<int>, order: seq<nat>, stop: nat, ls: set<nat>,
                   wv: int)
    requires stop <= |order| && LockedUpTo(locks, locked, order, stop) && Elems(order) == ls
    ensures LockedUpTo(locks', locked, order, stop) ==> locks' == locks
    ensures stop == |order| && ReleasedUpTo(locked, locks', order, stop, wv) ==> Restamped(locks, locks', ls, wv)
  {
    assert order[..|order|] == order;
    assert forall l :: l in order <==> l in Elems(order);
  }

  /** The calls of a transaction; `base` is what the system allocator returns. */
  datatype Call =
    | Read(source: Addr, size: nat)
    | Write(values: seq<Word>, size: nat, target: Addr)
    | Allocate(size: nat, base: Addr)

  /** What the interface demands: a read-only transaction only reads, and a write has a whole number of words. */
  predicate CallsOk(align: nat, readOnly: bool, calls: seq<Call>)
    requires align > 0
  {
    forall k :: 0 <= k < |calls| ==>
      && (readOnly ==> calls[k].Read?)
      && (calls[k].Write? ==> calls[k].size % align == 0 && |calls[k].values| >= calls[k].size / align)
  }

  function Words(align: nat, call: Call): set<Addr>
    requires align > 0 && call.Allocate?
  {
    Block(call.base, call.size / align)
  }

  /** From call `i` on, the allocator returns unused words, and never the same twice. */
  ghost predicate CallsFresh(c: Config, s: State, align: nat, calls: seq<Call>, i: nat)
    requires align > 0
  {
    && (forall k :: i <= k < |calls| && calls[k].Allocate? ==> Unused(c, s, Words(align, calls[k])))
    && (forall k, l :: i <= k < l < |calls| && calls[k].Allocate? && calls[l].Allocate? ==>
          Words(align, calls[k]) !! Words(align, calls[l]))
  }

  /** What a call adds to the log: one entry per word. */
  ghost predicate CallLogged(align: nat, call: Call, events: seq<Event>)
    requires align > 0
  {
    match call
    case Read(source, size) =>
      && |events| == size / align
      && forall k :: 0 <= k < |events| ==> events[k].EvRead? && events[k].x == source + k
    case Write(values, size, target) =>
      && |values| >= size / align && events == WritesFrom(target, values[..size / align])
    case Allocate(size, base) =>
      events == if size % align == 0 && size < 0x1_0000_0000_0000 then [EvAlloc(base, size / align)] else []
  }

  /** The log is what the calls add, one after the other. */
  ghost predicate CallsLogged(align: nat, calls: seq<Call>, log: seq<Event>)
    requires align > 0
    decreases |calls|, 1
  {
    if |calls| == 0 then log == []
    else exists n :: LoggedFrom(align, calls, log, n)
  }

  ghost predicate LoggedFrom(align: nat, calls: seq<Call>, log: seq<Event>, n: nat)
    requires align > 0 && |calls| > 0
    decreases |calls|, 0
  {
    n <= |log| && CallsLogged(align, calls[..|calls| - 1], log[..n]) && CallLogged(align, calls[|calls| - 1], log[n..])
  }

  lemma OneMoreLogged(align: nat, calls: seq<Call>, i: nat, log: seq<Event>, log': seq<Event>)
    requires align > 0 && i < |calls| && log <= log'
    requires CallsLogged(align, calls[..i], log) && CallLogged(align, calls[i], log'[|log|..])
    ensures CallsLogged(align, calls[..i + 1], log')
  {
    assert calls[..i + 1][..i] == calls[..i] && log'[..|log|] == log;
    assert LoggedFrom(align, calls[..i + 1], log', |log|);
  }

  /** What a transaction reads, writes and logs is untouched by its commit. */
  ghost predicate Keeps(tx: Tx, tx': Tx) {
    && tx'.readOnly == tx.readOnly && tx'.rv == tx.rv && tx'.readSet == tx.readSet && tx'.writes == tx.writes
    && tx'.obs == tx.obs && tx'.log == tx.log
  }

  function ReadsOf(source: Addr, values: seq<Word>): (es: seq<Event>)
    ensures |es| == |values|
    ensures forall k :: 0 <= k < |values| ==> es[k] == EvRead(source + k, values[k])
  {
    seq(|values|, k requires 0 <= k < |values| => EvRead(source + k, values[k]))
  }

  function WritesFrom(target: Addr, values: seq<Word>): (es: seq<Event>)
    ensures |es| == |values|
    ensures forall k :: 0 <= k < |values| ==> es[k] == EvWrite(target + k, values[k])
  {
    seq(|values|, k requires 0 <= k < |values| => EvWrite(target + k, values[k]))
  }
}
