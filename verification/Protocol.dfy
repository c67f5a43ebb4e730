/** The transaction manager of `415640/tm.c` and `415640/utils.c` as a transition system.

    Any number of transactions interleave; each step performs at most one operation on shared memory
    (a lock load, a compare-and-swap, a fetch-and-add, a word copy, a version store). Memory is
    sequentially consistent and a word copy is atomic. */
module Protocol {
  import opened VersionLock

  type Addr = int  // counts words
  type Word = int
  type Tid = nat   // a transaction handle; handles are never reused

  /** What a client sees of its own transaction, one entry per word. */
  datatype Event =
    | EvRead(x: Addr, v: Word)
    | EvWrite(x: Addr, v: Word)
    | EvAlloc(base: Addr, n: nat)

  /** `hash` stands for `hash_pointer`, an arbitrary function. `root` is the first segment.
      With `fusedRead` the second lock check of `tm_read` and the copy after it are one step;
      the source performs them one after the other. */
  datatype Config = Config(hash: Addr -> nat, root: set<Addr>, fusedRead: bool) {
    /** `lock_get_from_pointer`, as an index. */
    function LockOf(x: Addr): (l: nat)
      ensures l < LOCK_ARRAY_SIZE
    {
      hash(x) % LOCK_ARRAY_SIZE
    }
  }

  /** Where a transaction stands inside the manager's code. */
  datatype Phase =
    | Running                                               // between calls
    | Checked(x: Addr)                                      // tm_read: first check passed
    | Rechecked(x: Addr)                                    // tm_read: second check passed, copy pending
    | Locking(order: seq<nat>, i: nat)                      // about to load lock order[i]
    | Acquiring(order: seq<nat>, i: nat, loaded: int)       // loaded it, compare-and-swap pending
    | Fetched(order: seq<nat>)                              // write version taken
    | Validating(order: seq<nat>, rs: seq<Addr>, j: nat)    // about to check word rs[j]
    | Publishing(order: seq<nat>, ws: seq<Addr>, k: nat)    // about to copy word ws[k]
    | Releasing(order: seq<nat>, i: nat)                    // about to store the version into order[i]
    | RollingBack(order: seq<nat>, i: nat, stop: nat)       // about to release order[i], up to order[stop]
    | Committed
    | Aborted

  /** `readSet` is the read set of a read-write transaction; for a read-only one, which keeps none, it
      records the words whose first check passed. `obs` holds the (word, value) pairs copied from shared
      memory, `saved` the locks held with their value before acquisition, `allocs` the `alloc_set`. */
  datatype Tx = Tx(readOnly: bool, rv: int, wv: int, readSet: set<Addr>, writes: map<Addr, Word>,
                   obs: set<(Addr, Word)>, log: seq<Event>, saved: map<nat, int>, allocs: seq<Addr>,
                   phase: Phase)

  /** A write set that passed validation, with the transaction it belongs to. */
  datatype Commit = Commit(tid: Tid, writes: map<Addr, Word>)

  /** `hist`, `owner`, `home` and `bases` only record what happened; no guard reads them except that the
      allocator hands out words that have no `home` yet. Words missing from `mem` hold zero. */
  datatype State = State(gv: int, locks: seq<int>, mem: map<Addr, Word>, txs: map<Tid, Tx>,
                         segments: seq<Addr>, freed: seq<Addr>,
                         hist: map<int, Commit>, owner: map<nat, Tid>,
                         home: map<Addr, Tid>, bases: map<Addr, Tid>)

  datatype Step =
    | Begin(t: Tid, readOnly: bool)
    | FirstCheck(t: Tid, x: Addr)
    | SecondCheck(t: Tid)
    | CopyWord(t: Tid)
    | CheckAndCopy(t: Tid)
    | WriteWord(t: Tid, x: Addr, v: Word)
    | BadWrite(t: Tid)
    | Alloc(t: Tid, base: Addr, n: nat)
    | EndReadOnly(t: Tid)
    | StartCommit(t: Tid, order: seq<nat>)
    | LoadLock(t: Tid)
    | CasLock(t: Tid)
    | FetchAdd(t: Tid)
    | SkipValidation(t: Tid, ws: seq<Addr>)
    | StartValidation(t: Tid, rs: seq<Addr>)
    | ValidateWord(t: Tid)
    | FinishValidation(t: Tid, ws: seq<Addr>)
    | PublishWord(t: Tid)
    | StartRelease(t: Tid)
    | ReleaseLock(t: Tid)
    | FinishCommit(t: Tid)
    | RollBackLock(t: Tid)
    | FinishRollBack(t: Tid)

  function Get(m: map<Addr, Word>, x: Addr): Word {
    if x in m then m[x] else 0
  }

  function Elems<T>(s: seq<T>): set<T> {
    set e | e in s
  }

  predicate Distinct<T(==)>(s: seq<T>) {
    forall i, j :: 0 <= i < j < |s| ==> s[i] != s[j]
  }

  /** `s` visits exactly the members of `e`, each once: what `dic_forEach` does on an unmodified table. */
  predicate Visits<T(==)>(s: seq<T>, e: set<T>) {
    Distinct(s) && Elems(s) == e
  }

  /** `unique_lock_create` over a write set. */
  function LockSet(c: Config, writes: map<Addr, Word>): set<nat> {
    set x | x in writes :: c.LockOf(x)
  }

  /** The words of a segment; an empty segment still has an address of its own. */
  function Block(base: Addr, n: nat): (b: set<Addr>)
    ensures forall y :: y in b <==> base <= y < base + (if n == 0 then 1 else n)
  {
    if n <= 1 then {base} else Block(base, n - 1) + {base + n - 1}
  }

  function Init(): State {
    State(0, seq(LOCK_ARRAY_SIZE, _ => 0), map[], map[], [], [], map[], map[], map[], map[])
  }

  function LockWord(c: Config, s: State, x: Addr): int
    requires |s.locks| == LOCK_ARRAY_SIZE
  {
    s.locks[c.LockOf(x)]
  }

  predicate Enabled(c: Config, s: State, step: Step)
  {
    && |s.locks| == LOCK_ARRAY_SIZE
    && (step.Begin? <==> step.t !in s.txs)
    && (!step.Begin? ==>
          var tx := s.txs[step.t];
          match step
          case FirstCheck(_, _) => tx.phase.Running?
          case SecondCheck(_) => tx.phase.Checked? && !c.fusedRead
          case CopyWord(_) => tx.phase.Rechecked?
          case CheckAndCopy(_) => tx.phase.Checked? && c.fusedRead
          case WriteWord(_, _, _) => tx.phase.Running? && !tx.readOnly
          case BadWrite(_) => tx.phase.Running?
          case Alloc(_, base, n) =>
            && tx.phase.Running? && !tx.readOnly
            && Block(base, n) !! s.home.Keys && Block(base, n) !! c.root && Block(base, n) !! s.mem.Keys
          case EndReadOnly(_) => tx.phase.Running? && tx.readOnly
          case StartCommit(_, order) => tx.phase.Running? && !tx.readOnly && Visits(order, LockSet(c, tx.writes))
          case LoadLock(_) =>
            tx.phase.Locking? && tx.phase.i < |tx.phase.order| && tx.phase.order[tx.phase.i] < |s.locks|
          case CasLock(_) =>
            tx.phase.Acquiring? && tx.phase.i < |tx.phase.order| && tx.phase.order[tx.phase.i] < |s.locks|
          case FetchAdd(_) => tx.phase.Locking? && tx.phase.i == |tx.phase.order|
          case SkipValidation(_, ws) => tx.phase.Fetched? && tx.wv == tx.rv + 2 && Visits(ws, tx.writes.Keys)
          case StartValidation(_, rs) => tx.phase.Fetched? && tx.wv != tx.rv + 2 && Visits(rs, tx.readSet)
          case ValidateWord(_) => tx.phase.Validating? && tx.phase.j < |tx.phase.rs|
          case FinishValidation(_, ws) =>
            tx.phase.Validating? && tx.phase.j == |tx.phase.rs| && Visits(ws, tx.writes.Keys)
          case PublishWord(_) =>
            tx.phase.Publishing? && tx.phase.k < |tx.phase.ws| && tx.phase.ws[tx.phase.k] in tx.writes
          case StartRelease(_) => tx.phase.Publishing? && tx.phase.k == |tx.phase.ws|
          case ReleaseLock(_) =>
            tx.phase.Releasing? && tx.phase.i < |tx.phase.order| && tx.phase.order[tx.phase.i] < |s.locks|
          case FinishCommit(_) => tx.phase.Releasing? && tx.phase.i == |tx.phase.order|
          case RollBackLock(_) =>
            && tx.phase.RollingBack? && tx.phase.i < |tx.phase.order| && tx.phase.i != tx.phase.stop
            && tx.phase.order[tx.phase.i] < |s.locks|
          case FinishRollBack(_) => tx.phase.RollingBack? && tx.phase.i == tx.phase.stop)
  }

  /** `tx_destroy` of an aborted transaction; `NextFreed` frees its segments. */
  function Abort(tx: Tx): Tx {
    tx.(phase := Aborted, allocs := [])
  }

  /** The word copy that ends a read: from the private buffer if the transaction wrote the word. */
  function Copied(m: map<Addr, Word>, tx: Tx, x: Addr): Tx {
    if !tx.readOnly && x in tx.writes then
      tx.(phase := Running, log := tx.log + [EvRead(x, tx.writes[x])])
    else
      var v := Get(m, x);
      tx.(phase := Running, log := tx.log + [EvRead(x, v)], obs := tx.obs + {(x, v)})
  }

  /** `validate_reading_set` on one word: a word of the write set is locked by the transaction itself. */
  predicate Validates(c: Config, s: State, tx: Tx, x: Addr)
    requires |s.locks| == LOCK_ARRAY_SIZE
  {
    if x in tx.writes then CheckVersion(LockWord(c, s, x), tx.rv) else Check(LockWord(c, s, x), tx.rv)
  }

  /** What the step does to its own transaction. */
  function NextTx(c: Config, s: State, step: Step): Tx
    requires Enabled(c, s, step)
  {
    if step.Begin? then Tx(step.readOnly, s.gv, 0, {}, map[], {}, [], map[], [], Running) else
    var tx := s.txs[step.t];
    match step
    case FirstCheck(_, x) =>
      if Check(LockWord(c, s, x), tx.rv) then tx.(phase := Checked(x), readSet := tx.readSet + {x}) else Abort(tx)
    case SecondCheck(_) =>
      if Check(LockWord(c, s, tx.phase.x), tx.rv) then tx.(phase := Rechecked(tx.phase.x)) else Abort(tx)
    case CopyWord(_) => Copied(s.mem, tx, tx.phase.x)
    case CheckAndCopy(_) =>
      if Check(LockWord(c, s, tx.phase.x), tx.rv) then Copied(s.mem, tx, tx.phase.x) else Abort(tx)
    case WriteWord(_, x, v) => tx.(writes := tx.writes[x := v], log := tx.log + [EvWrite(x, v)])
    case BadWrite(_) => Abort(tx)
    case Alloc(_, base, n) => tx.(allocs := tx.allocs + [base], log := tx.log + [EvAlloc(base, n)])
    case EndReadOnly(_) => tx.(phase := Committed)
    case StartCommit(_, order) => tx.(phase := Locking(order, 0))
    case LoadLock(_) =>
      var Locking(order, i) := tx.phase;
      if Locked(s.locks[order[i]]) then tx.(phase := RollingBack(order, 0, i))
      else tx.(phase := Acquiring(order, i, s.locks[order[i]]))
    case CasLock(_) =>
      var Acquiring(order, i, loaded) := tx.phase;
      if s.locks[order[i]] == loaded then tx.(phase := Locking(order, i + 1), saved := tx.saved[order[i] := loaded])
      else tx.(phase := RollingBack(order, 0, i))
    case FetchAdd(_) => tx.(phase := Fetched(tx.phase.order), wv := s.gv + 2)
    case SkipValidation(_, ws) => tx.(phase := Publishing(tx.phase.order, ws, 0))
    case StartValidation(_, rs) => tx.(phase := Validating(tx.phase.order, rs, 0))
    case ValidateWord(_) =>
      var Validating(order, rs, j) := tx.phase;
      if Validates(c, s, tx, rs[j]) then tx.(phase := Validating(order, rs, j + 1))
      else tx.(phase := RollingBack(order, 0, |order|))
    case FinishValidation(_, ws) => tx.(phase := Publishing(tx.phase.order, ws, 0))
    case PublishWord(_) => tx.(phase := Publishing(tx.phase.order, tx.phase.ws, tx.phase.k + 1))
    case StartRelease(_) => tx.(phase := Releasing(tx.phase.order, 0))
    case ReleaseLock(_) =>
      var Releasing(order, i) := tx.phase;
      tx.(phase := Releasing(order, i + 1), saved := tx.saved - {order[i]})
    case FinishCommit(_) => tx.(phase := Committed, allocs := [])
    case RollBackLock(_) =>
      var RollingBack(order, i, stop) := tx.phase;
      tx.(phase := RollingBack(order, i + 1, stop), saved := tx.saved - {order[i]})
    case FinishRollBack(_) => Abort(tx)
  }

  /** The lock a locking or unlocking step works on. */
  function StepLock(s: State, step: Step): nat
    requires step.t in s.txs
    requires var p := s.txs[step.t].phase;
      (p.Acquiring? || p.Releasing? || p.RollingBack?) && p.i < |p.order|
  {
    s.txs[step.t].phase.order[s.txs[step.t].phase.i]
  }

  function NextLocks(c: Config, s: State, step: Step): seq<int>
    requires Enabled(c, s, step)
  {
    if step.CasLock? && NextTx(c, s, step).phase.Locking? then
      s.locks[StepLock(s, step) := s.txs[step.t].phase.loaded + 1]
    else if step.ReleaseLock? then s.locks[StepLock(s, step) := s.txs[step.t].wv]
    else if step.RollBackLock? then s.locks[StepLock(s, step) := s.locks[StepLock(s, step)] - 1]
    else s.locks
  }

  function NextOwner(c: Config, s: State, step: Step): map<nat, Tid>
    requires Enabled(c, s, step)
  {
    if step.CasLock? && NextTx(c, s, step).phase.Locking? then s.owner[StepLock(s, step) := step.t]
    else if step.ReleaseLock? || step.RollBackLock? then s.owner - {StepLock(s, step)}
    else s.owner
  }

  function NextMem(c: Config, s: State, step: Step): map<Addr, Word>
    requires Enabled(c, s, step)
  {
    if step.PublishWord? then
      var tx := s.txs[step.t];
      s.mem[tx.phase.ws[tx.phase.k] := tx.writes[tx.phase.ws[tx.phase.k]]]
    else s.mem
  }

  function NextHist(c: Config, s: State, step: Step): map<int, Commit>
    requires Enabled(c, s, step)
  {
    if step.SkipValidation? || step.FinishValidation? then
      s.hist[s.txs[step.t].wv := Commit(step.t, s.txs[step.t].writes)]
    else s.hist
  }

  /** `tx_destroy` frees the segments of a transaction that aborts. */
  function NextFreed(c: Config, s: State, step: Step): seq<Addr>
    requires Enabled(c, s, step)
  {
    if !step.Begin? && NextTx(c, s, step).phase.Aborted? then s.freed + s.txs[step.t].allocs else s.freed
  }

  /** What the step does to everything shared, and to the record of the run. */
  function Apply(c: Config, s: State, step: Step): State
    requires Enabled(c, s, step)
  {
    State(if step.FetchAdd? then s.gv + 2 else s.gv,
          NextLocks(c, s, step),
          NextMem(c, s, step),
          s.txs[step.t := NextTx(c, s, step)],
          if step.FinishCommit? then s.segments + s.txs[step.t].allocs else s.segments,
          NextFreed(c, s, step),
          NextHist(c, s, step),
          NextOwner(c, s, step),
          if step.Alloc? then s.home + (map y | y in Block(step.base, step.n) :: step.t) else s.home,
          if step.Alloc? then s.bases[step.base := step.t] else s.bases)
  }

  /** Step `i` of a run leads from state `i` to state `i + 1`. */
  ghost predicate Moved(c: Config, steps: seq<Step>, trace: seq<State>, i: nat)
    requires i < |steps| && |trace| == |steps| + 1
  {
    Enabled(c, trace[i], steps[i]) && trace[i + 1] == Apply(c, trace[i], steps[i])
  }

  /** A stretch of a run: any interleaving of steps, with the states before, between and after them. */
  ghost predicate Path(c: Config, steps: seq<Step>, trace: seq<State>) {
    && |trace| == |steps| + 1
    && forall i {:trigger Moved(c, steps, trace, i)} :: 0 <= i < |steps| ==> Moved(c, steps, trace, i)
  }

  /** A run: a path from the initial state. */
  ghost predicate Run(c: Config, steps: seq<Step>, trace: seq<State>) {
    Path(c, steps, trace) && trace[0] == Init()
  }

  ghost predicate Reachable(c: Config, s: State) {
    exists steps, trace {:trigger Run(c, steps, trace)} :: Run(c, steps, trace) && trace[|steps|] == s
  }

  /** Some path leads from `s` to `s'`. */
  ghost predicate Leads(c: Config, s: State, s': State) {
    exists steps, trace {:trigger Path(c, steps, trace)} ::
      Path(c, steps, trace) && trace[0] == s && trace[|steps|] == s'
  }

  lemma InitIsReachable(c: Config)
    ensures Reachable(c, Init())
  {
    assert Run(c, [], [Init()]);
  }

  lemma PathGrows(c: Config, steps: seq<Step>, trace: seq<State>, step: Step)
    requires Path(c, steps, trace) && Enabled(c, trace[|steps|], step)
    ensures Path(c, steps + [step], trace + [Apply(c, trace[|steps|], step)])
  {
    var steps', trace' := steps + [step], trace + [Apply(c, trace[|steps|], step)];
    forall i | 0 <= i < |steps'| ensures Moved(c, steps', trace', i) {
      assert i < |steps| ==> Moved(c, steps, trace, i);
    }
  }

  /** Any enabled step may come next. */
  lemma StepIsReachable(c: Config, s: State, step: Step)
    requires Reachable(c, s) && Enabled(c, s, step)
    ensures Reachable(c, Apply(c, s, step))
  {
    var steps, trace :| Run(c, steps, trace) && trace[|steps|] == s;
    PathGrows(c, steps, trace, step);
    assert Run(c, steps + [step], trace + [Apply(c, s, step)]);
  }

  lemma PathsJoin(c: Config, steps: seq<Step>, trace: seq<State>, steps': seq<Step>, trace': seq<State>)
    requires Path(c, steps, trace) && Path(c, steps', trace') && trace'[0] == trace[|steps|]
    ensures Path(c, steps + steps', trace + trace'[1..])
  {
    var all, states := steps + steps', trace + trace'[1..];
    forall i | 0 <= i < |all| ensures Moved(c, all, states, i) {
      if i < |steps| {
        assert Moved(c, steps, trace, i);
      } else {
        assert Moved(c, steps', trace', i - |steps|);
      }
    }
  }

  lemma LeadsNowhere(c: Config, s: State)
    ensures Leads(c, s, s)
  {
    assert Path(c, [], [s]);
  }

  lemma StepLeads(c: Config, s0: State, s: State, step: Step)
    requires Leads(c, s0, s) && Enabled(c, s, step)
    ensures Leads(c, s0, Apply(c, s, step))
  {
    var steps, trace :| Path(c, steps, trace) && trace[0] == s0 && trace[|steps|] == s;
    PathGrows(c, steps, trace, step);
    var trace' := trace + [Apply(c, s, step)];
    assert trace'[0] == s0 && trace'[|steps + [step]|] == Apply(c, s, step);
  }

  lemma LeadsIsReachable(c: Config, s: State, s': State)
    requires Reachable(c, s) && Leads(c, s, s')
    ensures Reachable(c, s')
  {
    var steps, trace :| Run(c, steps, trace) && trace[|steps|] == s;
    var steps', trace' :| Path(c, steps', trace') && trace'[0] == s && trace'[|steps'|] == s';
    PathsJoin(c, steps, trace, steps', trace');
    assert Run(c, steps + steps', trace + trace'[1..]);
  }
}
