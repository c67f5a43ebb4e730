/** The bank of `grading/workload.hpp` on the transaction manager: any number of concurrent transfers,
    account creations and destructions, and read-only audits. */
module BankOverStm {
  import opened Protocol
  import opened Replay
  import opened Reference
  import opened ProtocolInvariant
  import opened RunRecord
  import Serializability
  import opened Runs
  import opened Bank
  import opened BankAllocation
  import opened BankAudit

  /** What a transaction does: the two transactions of `init`, and those of `run`. */
  datatype Kind = Opening | FirstLook | Allocation(trigger: nat) | Short(send: nat, recv: nat) | Audit

  predicate InInit(kind: Kind) {
    kind.Opening? || kind.FirstLook?
  }

  /** A log the client code of this kind can end with. */
  ghost predicate Performs(b: Bank, kind: Kind, log: seq<Event>) {
    match kind
    case Opening => InitTx(b, log)
    case FirstLook => FirstLookTx(b, log)
    case Allocation(trigger) => AllocTx(b, trigger, 0, 0, b.start, log)
    case Short(send, recv) => ShortTx(Wanted(send), Wanted(recv), b.start, log)
    case Audit => LongSegment(b, 0, 0, b.start, log).Returned?
  }

  /** Transaction `t` runs the client code of its kind; the allocator gives it proper addresses. */
  ghost predicate Behaves(b: Bank, kinds: map<Tid, Kind>, t: Tid, tx: Tx) {
    && t in kinds && (tx.readOnly <==> kinds[t].Audit? || kinds[t].FirstLook?)
    && (Decided(tx) || tx.phase.Committed? ==> Performs(b, kinds[t], tx.log))
    && forall i :: 0 <= i < |tx.log| && tx.log[i].EvAlloc? ==> tx.log[i].base > 0
  }

  ghost predicate IsOpener(kinds: map<Tid, Kind>, s: State, t: Tid) {
    t in s.txs && t in kinds && kinds[t].Opening? && Decided(s.txs[t])
  }

  /** Everybody runs bank code: every worker its `init` up to version `ready`, at least one of them with success,
      and whatever else after it. */
  ghost predicate BankState(c: Config, b: Bank, kinds: map<Tid, Kind>, s: State, ready: int) {
    && b.Valid() && c.root == Block(b.start, SegmentSize(b)) && ready >= 0
    && (forall t :: t in s.txs ==> Behaves(b, kinds, t, s.txs[t]))
    && (forall t :: t in s.txs && InInit(kinds[t]) ==> s.txs[t].wv <= ready)
    && (forall t :: t in s.txs && !InInit(kinds[t]) ==> ready <= s.txs[t].rv)
    && (exists t :: IsOpener(kinds, s, t))
  }

  ghost predicate DecidedBy(s: State, t: Tid, v: int) {
    t in s.txs && Decided(s.txs[t]) && s.txs[t].wv <= v
  }

  /** The words given to transactions committed up to version `v`, and the first segment. */
  ghost function Handed(c: Config, s: State, v: int): set<Addr> {
    c.root + set y | y in s.home && DecidedBy(s, s.home[y], v)
  }

  /** The replay up to version `v` is an intact bank. */
  ghost predicate IntactAt(c: Config, b: Bank, s: State, v: int) {
    exists segs :: BankOk(b, MemAt(s.hist, v), segs, Handed(c, s, v), 0)
  }

  // ---- the opening round

  /** A commit of the opening round is an `init` on the replay before it. */
  lemma OpeningRuns(c: Config, b: Bank, kinds: map<Tid, Kind>, s: State, ready: int, v: int)
    requires Reachable(c, s) && BankState(c, b, kinds, s, ready) && v in s.hist && v <= ready
    ensures var t := s.hist[v].tid;
      && t in s.txs && InitTx(b, s.txs[t].log)
      && RunLog(MemAt(s.hist, v - 1), s.txs[t].log) == Memory(MemAt(s.hist, v))
  {
    Serializability.CommitterIsKnown(c, s, v);
    var t := s.hist[v].tid;
    assert Behaves(b, kinds, t, s.txs[t]);
    assert VersionsOk(s, s.txs[t]) by {
      ReachableGood(c, s);
    }
    Serializability.CommittedIsSerial(c, s, t);
  }

  /** All through the opening round nothing but the first segment is written, and from the first commit on it
      is full. */
  lemma {:induction false} OpeningRound(c: Config, b: Bank, kinds: map<Tid, Kind>, s: State, ready: int, v: int)
    requires Reachable(c, s) && BankState(c, b, kinds, s, ready) && v <= ready
    ensures Blank(b, MemAt(s.hist, v))
    ensures (exists u :: u in s.hist && 0 < u <= v) ==> FilledUpTo(b, MemAt(s.hist, v), b.size)
    decreases if v < 0 then 0 else v
  {
    if v > 0 {
      OpeningRound(c, b, kinds, s, ready, v - 1);
      if v in s.hist {
        OpeningRuns(c, b, kinds, s, ready, v);
        InitOpensBank(b, MemAt(s.hist, v - 1), s.txs[s.hist[v].tid].log, MemAt(s.hist, v));
      }
    }
  }

  lemma OpeningIsIntact(c: Config, b: Bank, kinds: map<Tid, Kind>, s: State, ready: int)
    requires Reachable(c, s) && BankState(c, b, kinds, s, ready)
    ensures IntactAt(c, b, s, ready)
  {
    OpeningRound(c, b, kinds, s, ready, ready);
    var t :| IsOpener(kinds, s, t);
    assert s.txs[t].wv in s.hist by {
      ReachableGood(c, s);
    }
    Serializability.CommitterIsKnown(c, s, s.txs[t].wv);
    var m := MemAt(s.hist, ready);
    FilledIsOpen(b, m);
    BankGrowsInto(b, m, [b.start], c.root, Handed(c, s, ready));
  }

  // ---- the rounds after it

  lemma HandedGrows(c: Config, s: State, v: int, v': int)
    requires v <= v'
    ensures Handed(c, s, v) <= Handed(c, s, v')
  {
    forall y | y in Handed(c, s, v) ensures y in Handed(c, s, v') {
      assert y in c.root || (y in s.home && DecidedBy(s, s.home[y], v));
    }
  }

  /** A transaction's new words were nobody's before its commit. */
  lemma AllocationsAreFresh(c: Config, b: Bank, kinds: map<Tid, Kind>, s: State, t: Tid)
    requires Reachable(c, s) && t in s.txs && Decided(s.txs[t]) && s.txs[t].wv > 0
    requires Behaves(b, kinds, t, s.txs[t])
    ensures Fresh(s.txs[t].log, Handed(c, s, s.txs[t].wv - 1), Handed(c, s, s.txs[t].wv))
  {
    var v, log := s.txs[t].wv, s.txs[t].log;
    assert HomeOk(c, s) by {
      ReachableGood(c, s);
    }
    HandedGrows(c, s, v - 1, v);
    forall i | 0 <= i < |log| && log[i].EvAlloc?
      ensures Block(log[i].base, log[i].n) !! Handed(c, s, v - 1) && Block(log[i].base, log[i].n) <= Handed(c, s, v)
    {
      forall y | y in Block(log[i].base, log[i].n) ensures y !in Handed(c, s, v - 1) && y in Handed(c, s, v) {
        assert y in s.home && s.home[y] == t;
      }
    }
  }

  /** What the transaction is for has been done to the bank. */
  ghost predicate Done(b: Bank, kind: Kind, m: map<Addr, Word>, segs: seq<Addr>, m': map<Addr, Word>, segs': seq<Addr>)
    requires |segs| > 0
  {
    match kind
    case Allocation(trigger) => AllocDone(b, trigger, m, segs, m', segs')
    case Short(send, recv) => segs' == segs && Paid(m, m', segs, send, recv)
    case _ => segs' == segs && m' == m
  }

  lemma CommitKeepsBank(b: Bank, kind: Kind, m: map<Addr, Word>, segs: seq<Addr>, w: set<Addr>, w': set<Addr>,
                        log: seq<Event>, m': map<Addr, Word>) returns (segs': seq<Addr>)
    requires BankOk(b, m, segs, w, 0) && !InInit(kind) && Performs(b, kind, log) && RunLog(m, log) == Memory(m')
    requires Fresh(log, w, w')
    ensures BankOk(b, m', segs', w', 0) && Done(b, kind, m, segs, m', segs')
  {
    match kind {
      case Allocation(trigger) =>
        segs' := AllocTxKeepsBank(b, m, segs, w, w', trigger, log, m');
      case Short(send, recv) =>
        assert Accounts(m, segs[..0]) == 0;
        ShortTxKeepsBank(b, m, segs, w, 0, send, recv, Wanted(send), Wanted(recv), log, m');
        BankGrowsInto(b, m', segs, w, w');
        segs' := segs;
      case Audit =>
        LongTxSucceeds(b, m, segs, w, log, m');
        BankGrowsInto(b, m', segs, w, w');
        segs' := segs;
    }
  }

  /** Commit `v` is a run of bank code on the replay before it, with fresh allocations. */
  lemma CommitRuns(c: Config, b: Bank, kinds: map<Tid, Kind>, s: State, ready: int, v: int)
    requires Reachable(c, s) && BankState(c, b, kinds, s, ready) && ready < v && v in s.hist
    ensures var t := s.hist[v].tid;
      && t in kinds && t in s.txs && !InInit(kinds[t]) && Performs(b, kinds[t], s.txs[t].log)
      && RunLog(MemAt(s.hist, v - 1), s.txs[t].log) == Memory(MemAt(s.hist, v))
      && Fresh(s.txs[t].log, Handed(c, s, v - 1), Handed(c, s, v))
  {
    Serializability.CommitterIsKnown(c, s, v);
    var t := s.hist[v].tid;
    assert Behaves(b, kinds, t, s.txs[t]);
    Serializability.CommittedIsSerial(c, s, t);
    AllocationsAreFresh(c, b, kinds, s, t);
  }

  lemma CommitIsIntact(c: Config, b: Bank, kinds: map<Tid, Kind>, s: State, ready: int, v: int, segs: seq<Addr>)
    returns (segs': seq<Addr>)
    requires Reachable(c, s) && BankState(c, b, kinds, s, ready) && ready < v && v in s.hist
    requires BankOk(b, MemAt(s.hist, v - 1), segs, Handed(c, s, v - 1), 0)
    ensures BankOk(b, MemAt(s.hist, v), segs', Handed(c, s, v), 0) && s.hist[v].tid in kinds
    ensures Done(b, kinds[s.hist[v].tid], MemAt(s.hist, v - 1), segs, MemAt(s.hist, v), segs')
  {
    CommitRuns(c, b, kinds, s, ready, v);
    var t := s.hist[v].tid;
    segs' := CommitKeepsBank(b, kinds[t], MemAt(s.hist, v - 1), segs, Handed(c, s, v - 1), Handed(c, s, v),
                             s.txs[t].log, MemAt(s.hist, v));
  }

  /** After every commit, in version order, the bank is intact: all money accounted for, no account overdrawn,
      segments packed. The second check and the copy of a read may be separate steps. */
  lemma {:induction false} EveryCommitIsIntact(c: Config, b: Bank, kinds: map<Tid, Kind>, s: State, ready: int, v: int)
    requires Reachable(c, s) && BankState(c, b, kinds, s, ready) && ready <= v
    ensures IntactAt(c, b, s, v)
    decreases v - ready
  {
    if v == ready {
      OpeningIsIntact(c, b, kinds, s, ready);
    } else {
      EveryCommitIsIntact(c, b, kinds, s, ready, v - 1);
      var segs :| BankOk(b, MemAt(s.hist, v - 1), segs, Handed(c, s, v - 1), 0);
      if v in s.hist {
        var segs' := CommitIsIntact(c, b, kinds, s, ready, v, segs);
      } else {
        BankGrowsInto(b, MemAt(s.hist, v), segs, Handed(c, s, v - 1), Handed(c, s, v));
      }
    }
  }

  /** And each of these commits has done its part to the bank left by the one before: a `short_tx` has moved one unit
      between its two accounts, if the first had one, and touched nothing else; an `alloc_tx` has added an account, or
      removed one if there were more than its trigger. */
  lemma EveryCommitDoesItsPart(c: Config, b: Bank, kinds: map<Tid, Kind>, s: State, ready: int, v: int)
    returns (segs: seq<Addr>, segs': seq<Addr>)
    requires Reachable(c, s) && BankState(c, b, kinds, s, ready) && ready < v && v in s.hist
    ensures BankOk(b, MemAt(s.hist, v - 1), segs, Handed(c, s, v - 1), 0)
    ensures BankOk(b, MemAt(s.hist, v), segs', Handed(c, s, v), 0) && s.hist[v].tid in kinds
    ensures Done(b, kinds[s.hist[v].tid], MemAt(s.hist, v - 1), segs, MemAt(s.hist, v), segs')
  {
    EveryCommitIsIntact(c, b, kinds, s, ready, v - 1);
    segs :| BankOk(b, MemAt(s.hist, v - 1), segs, Handed(c, s, v - 1), 0);
    segs' := CommitIsIntact(c, b, kinds, s, ready, v, segs);
  }

  /** If this is a finished `long_tx`, it returned true. */
  ghost predicate NoViolation(b: Bank, log: seq<Event>) {
    var verdict := LongSegment(b, 0, 0, b.start, log);
    verdict.Returned? ==> verdict.ok
  }

  /** No audit reports a violation unless a newer commit slipped in between the second check and the copy of one of
      its reads; which cannot happen if these are one step. */
  lemma AuditsSucceed(c: Config, b: Bank, kinds: map<Tid, Kind>, s: State, ready: int, t: Tid)
    requires Reachable(c, s) && BankState(c, b, kinds, s, ready) && t in s.txs && kinds[t].Audit?
    requires c.fusedRead || forall p :: p in s.txs[t].obs ==> !Serializability.Overtaken(s.hist, s.txs[t].rv, p.0, p.1)
    ensures NoViolation(b, s.txs[t].log)
  {
    assert Behaves(b, kinds, t, s.txs[t]);
    assert s.txs[t].readOnly && !InInit(kinds[t]);
    Serializability.ReadOnlyIsSerial(c, s, t);
    EveryCommitIsIntact(c, b, kinds, s, ready, s.txs[t].rv);
    var m := MemAt(s.hist, s.txs[t].rv);
    var segs :| BankOk(b, m, segs, Handed(c, s, s.txs[t].rv), 0);
    if LongSegment(b, 0, 0, b.start, s.txs[t].log).Returned? {
      LongTxSucceeds(b, m, segs, Handed(c, s, s.txs[t].rv), s.txs[t].log, m);
    }
  }

  // ---- whole runs

  ghost predicate OpenedBy(kinds: map<Tid, Kind>, s: State, t: Tid) {
    t in s.txs && t in kinds && kinds[t].Opening? && s.txs[t].phase.Committed?
  }

  /** Everybody runs bank code. At state `i` the opening round is over: only transactions of `init` have begun,
      all have ended, one with success; later ones do something else. */
  ghost predicate BankRun(c: Config, b: Bank, kinds: map<Tid, Kind>, steps: seq<Step>, trace: seq<State>, i: nat,
                          j: nat) {
    && Run(c, steps, trace) && i <= j <= |steps|
    && b.Valid() && c.root == Block(b.start, SegmentSize(b))
    && (forall t :: t in trace[j].txs ==> Behaves(b, kinds, t, trace[j].txs[t]))
    && (forall t :: t in trace[i].txs ==>
          t in kinds && InInit(kinds[t]) && (trace[i].txs[t].phase.Committed? || trace[i].txs[t].phase.Aborted?))
    && (forall t :: t in trace[j].txs && t !in trace[i].txs ==> !InInit(kinds[t]))
    && (exists t :: OpenedBy(kinds, trace[i], t))
  }

  /** Whoever begins after the opening round comes after it in the serial order. */
  lemma BankRunsAreBankStates(c: Config, b: Bank, kinds: map<Tid, Kind>, steps: seq<Step>, trace: seq<State>,
                              i: nat, j: nat)
    requires BankRun(c, b, kinds, steps, trace, i, j)
    ensures Reachable(c, trace[j]) && BankState(c, b, kinds, trace[j], trace[i].gv)
  {
    PrefixIsReachable(c, steps, trace, j);
    RunIsOrdered(c, steps, trace, i, j);
    VersionsAreBounded(c, steps, trace, i);
    forall t | t in trace[j].txs && InInit(kinds[t]) ensures trace[j].txs[t].wv <= trace[i].gv {
      assert Continues(trace[i].txs[t], trace[j].txs[t]);
    }
    var t :| OpenedBy(kinds, trace[i], t);
    assert Continues(trace[i].txs[t], trace[j].txs[t]) && Behaves(b, kinds, t, trace[j].txs[t]);
    assert IsOpener(kinds, trace[j], t);
  }

  lemma VersionsAreBounded(c: Config, steps: seq<Step>, trace: seq<State>, i: nat)
    requires Run(c, steps, trace) && i <= |steps|
    ensures 0 <= trace[i].gv && forall t :: t in trace[i].txs ==> trace[i].txs[t].wv <= trace[i].gv
  {
    RunIsGood(c, steps, trace, i);
    forall t | t in trace[i].txs ensures trace[i].txs[t].wv <= trace[i].gv {
      assert VersionsOk(trace[i], trace[i].txs[t]);
    }
  }

  /** The bank over the transaction manager: every worker runs `init`, concurrently; then come any number of
      concurrent transfers, creations, destructions and audits. Every state from the end of the opening round to
      the latest commit is an intact bank, and, if the second check and the copy of a read are one step, every
      finished audit succeeds. */
  lemma BankIsSafe(c: Config, b: Bank, kinds: map<Tid, Kind>, steps: seq<Step>, trace: seq<State>, i: nat, j: nat)
    requires BankRun(c, b, kinds, steps, trace, i, j)
    ensures forall v :: trace[i].gv <= v <= trace[j].gv ==> IntactAt(c, b, trace[j], v)
    ensures c.fusedRead ==>
      forall t :: t in trace[j].txs && t in kinds && kinds[t].Audit? ==> NoViolation(b, trace[j].txs[t].log)
  {
    var s, ready := trace[j], trace[i].gv;
    BankRunsAreBankStates(c, b, kinds, steps, trace, i, j);
    forall v | ready <= v <= s.gv ensures IntactAt(c, b, s, v) {
      EveryCommitIsIntact(c, b, kinds, s, ready, v);
    }
    forall t | c.fusedRead && t in s.txs && t in kinds && kinds[t].Audit? ensures NoViolation(b, s.txs[t].log) {
      AuditsSucceed(c, b, kinds, s, ready, t);
    }
  }

  // ---- the second transaction of init

  lemma OpenersWriteBalances(c: Config, b: Bank, kinds: map<Tid, Kind>, s: State, u: int)
    requires Reachable(c, s) && b.Valid() && u in s.hist
    requires forall t :: t in s.txs ==> Behaves(b, kinds, t, s.txs[t]) && InInit(kinds[t])
    ensures b.start + 3 in s.hist[u].writes && s.hist[u].writes[b.start + 3] == b.balance
  {
    Serializability.CommitterIsKnown(c, s, u);
    var tx := s.txs[s.hist[u].tid];
    assert Behaves(b, kinds, s.hist[u].tid, tx);
    InitWrites(b, tx.log, b.size, 0);
    assert tx.log[..b.size + 1] == tx.log;
    assert LogOk(tx) by {
      ReachableGood(c, s);
    }
  }

  /** During the opening round, a worker that looks at the first account after its own opening committed finds the
      initial balance: `init` never reports a violation, whether or not check and copy of a read are one step. */
  lemma FirstLooksSucceed(c: Config, b: Bank, kinds: map<Tid, Kind>, steps: seq<Step>, trace: seq<State>, i: nat,
                          j: nat, r: Tid, t: Tid)
    requires Run(c, steps, trace) && i <= j <= |steps| && b.Valid() && EndedAt(trace, i, r, t) && t in trace[j].txs
    requires forall t' :: t' in trace[j].txs ==> Behaves(b, kinds, t', trace[j].txs[t']) && InInit(kinds[t'])
    requires r in kinds && kinds[r].Opening? && t in kinds && Performs(b, FirstLook, trace[j].txs[t].log)
    ensures trace[j].txs[t].log[0].v == b.balance
  {
    var s, x := trace[j], b.start + 3;
    PrefixIsReachable(c, steps, trace, j);
    RunIsOrdered(c, steps, trace, i, j);
    assert Continues(trace[i].txs[r], s.txs[r]) && Behaves(b, kinds, r, s.txs[r]);
    CommittedIsOld(c, steps, trace, i, r);
    assert s.txs[r].wv in s.hist && LogOk(s.txs[t]) && SourceInv(s) by {
      ReachableGood(c, s);
    }
    OpenersWriteBalances(c, b, kinds, s, s.txs[r].wv);
    ReadIsObserved(s.txs[t], x);
    var p := (x, s.txs[t].log[0].v);
    assert p in s.txs[t].obs;
    var u :| FromCommit(s.hist, s.txs[t].rv, p.0, p.1, u);
    Serializability.CommitterIsKnown(c, s, s.txs[r].wv);
    OpenersWriteBalances(c, b, kinds, s, u);
  }
}
