/** `check` of `grading/workload.hpp` on the transaction manager: workers count a shared word down. Neither
    result needs the second check and the copy of a read to be one step. */
module CounterCheck {
  import opened Protocol
  import opened Replay
  import opened Reference
  import opened ProtocolInvariant
  import opened RunRecord
  import Serializability
  import opened Runs
  import opened SoloRuns

  /** The setter stores `total`; a sampler reads the counter; a decrementer reads it again after its worker's
      `sampler` has committed, and stores one less unless the counter rose. An attempt that aborts is a
      transaction of its own. */
  datatype Role = Setter | Sampler | Decrementer(sampler: Tid)

  predicate ReadsCounter(x: Addr, log: seq<Event>) {
    |log| > 0 ==> log[0].EvRead? && log[0].x == x
  }

  /** The log of a finished decrementer whose worker last saw the value `last`. */
  predicate Decremented(x: Addr, last: Word, log: seq<Event>) {
    |log| > 0 && log[0].EvRead? && log[0].x == x &&
    if log[0].v > last then |log| == 1 else |log| == 2 && log[1] == EvWrite(x, log[0].v - 1)
  }

  /** Transaction `t` of state `s` runs the code of its role. */
  ghost predicate Behaves(x: Addr, total: Word, roles: map<Tid, Role>, s: State, t: Tid)
    requires t in s.txs
  {
    t in roles &&
    var tx := s.txs[t];
    && (tx.readOnly <==> roles[t].Sampler?)
    && match roles[t]
       case Setter => Decided(tx) ==> tx.log == [EvWrite(x, total)]
       case Sampler => ReadsCounter(x, tx.log) && |tx.log| <= 1
       case Decrementer(r) =>
         && ReadsCounter(x, tx.log) && r in s.txs && r in roles && roles[r].Sampler?
         && |s.txs[r].log| == 1 && s.txs[r].log[0].EvRead?
         && (Decided(tx) ==> Decremented(x, s.txs[r].log[0].v, tx.log))
  }

  /** Everybody with a role runs `check`, after the setter; everybody else came before it. */
  ghost predicate CheckState(x: Addr, total: Word, roles: map<Tid, Role>, s: State, setter: Tid) {
    && (forall t :: t in roles ==> (roles[t].Setter? <==> t == setter))
    && setter in roles && setter in s.txs && Decided(s.txs[setter]) && s.txs[setter].wv > 0
    && (forall t :: t in s.txs && t in roles ==> Behaves(x, total, roles, s, t))
    && (forall t :: t in s.txs && t in roles && t != setter ==> s.txs[setter].wv <= s.txs[t].rv)
    && (forall t :: t in s.txs && t !in roles ==> s.txs[t].wv <= s.txs[setter].wv)
  }

  // ---- the counter over versions

  lemma SetterWrites(c: Config, x: Addr, total: Word, roles: map<Tid, Role>, s: State, setter: Tid)
    requires Reachable(c, s) && CheckState(x, total, roles, s, setter)
    ensures s.txs[setter].wv in s.hist && s.hist[s.txs[setter].wv].writes == map[x := total]
  {
    ReachableGood(c, s);
    assert Behaves(x, total, roles, s, setter) && LogOk(s.txs[setter]);
    assert WritesOf([EvWrite(x, total)][..0]) == map[];
  }

  /** The first read of a decided transaction is the replay before its commit. */
  lemma DecidedFirstRead(c: Config, s: State, t: Tid, x: Addr)
    requires Reachable(c, s) && t in s.txs && Decided(s.txs[t])
    requires |s.txs[t].log| > 0 && s.txs[t].log[0].EvRead? && s.txs[t].log[0].x == x
    ensures s.txs[t].log[0].v == Val(s.hist, s.txs[t].wv - 1, x) && s.txs[t].writes == WritesOf(s.txs[t].log)
  {
    ReachableGood(c, s);
    assert LogOk(s.txs[t]);
    ReadIsObserved(s.txs[t], x);
    Serializability.DecidedReadsAreReplayed(c, s, t);
    assert (x, s.txs[t].log[0].v).1 == Val(s.hist, s.txs[t].wv - 1, x);
  }

  /** A later commit stores one less than the value before it, unless its worker saw the counter rise. */
  lemma CommitDecrements(c: Config, x: Addr, total: Word, roles: map<Tid, Role>, s: State, setter: Tid, u: int)
    requires Reachable(c, s) && CheckState(x, total, roles, s, setter) && s.txs[setter].wv < u && u in s.hist
    ensures s.hist[u].tid in s.txs
    ensures var log := s.txs[s.hist[u].tid].log;
      && |log| > 0 && log[0].EvRead? && log[0].v == Val(s.hist, u - 1, x)
      && s.hist[u].writes == if |log| == 1 then map[] else map[x := Val(s.hist, u - 1, x) - 1]
  {
    Serializability.CommitterIsKnown(c, s, u);
    var t := s.hist[u].tid;
    assert Behaves(x, total, roles, s, t) && t != setter && !s.txs[t].readOnly;
    DecidedFirstRead(c, s, t, x);
    WritesOfDecrement(x, s.txs[t].log);
  }

  lemma WritesOfDecrement(x: Addr, log: seq<Event>)
    requires |log| > 0 && log[0].EvRead? && (|log| == 1 || (|log| == 2 && log[1] == EvWrite(x, log[0].v - 1)))
    ensures WritesOf(log) == if |log| == 1 then map[] else map[x := log[0].v - 1]
  {
    assert log[..0] == [] && WritesOf(log[..1]) == map[] by {
      assert log[..1][..0] == [];
    }
  }

  lemma {:induction false} CounterFalls(c: Config, x: Addr, total: Word, roles: map<Tid, Role>, s: State,
                                        setter: Tid, u: int, v: int)
    requires Reachable(c, s) && CheckState(x, total, roles, s, setter) && s.txs[setter].wv <= u <= v
    ensures Val(s.hist, v, x) <= Val(s.hist, u, x)
    decreases v - u
  {
    if u < v {
      CounterFalls(c, x, total, roles, s, setter, u, v - 1);
      if v in s.hist {
        CommitDecrements(c, x, total, roles, s, setter, v);
      }
    }
  }

  // ---- whole runs

  /** At state `i0` the setter has committed, whoever was there before has ended with an earlier version, and
      nobody else has begun; from then on everybody runs `check`. */
  ghost predicate CheckRun(c: Config, x: Addr, total: Word, roles: map<Tid, Role>, steps: seq<Step>, trace: seq<State>,
                           i0: nat, j: nat, setter: Tid) {
    && Run(c, steps, trace) && i0 <= j <= |steps|
    && setter in roles && setter in trace[i0].txs && trace[i0].txs[setter].phase.Committed?
    && (forall t :: t in trace[i0].txs && t != setter ==>
          && t !in roles && (trace[i0].txs[t].phase.Committed? || trace[i0].txs[t].phase.Aborted?)
          && trace[i0].txs[t].wv <= trace[i0].txs[setter].wv)
    && (forall t :: t in trace[j].txs && t !in trace[i0].txs ==> t in roles)
    && (forall t :: t in trace[j].txs && t in roles ==> Behaves(x, total, roles, trace[j], t))
    && (forall t :: t in roles ==> (roles[t].Setter? <==> t == setter))
  }

  lemma CheckRunsAreCheckStates(c: Config, x: Addr, total: Word, roles: map<Tid, Role>, steps: seq<Step>,
                                trace: seq<State>, i0: nat, j: nat, setter: Tid)
    requires CheckRun(c, x, total, roles, steps, trace, i0, j, setter)
    ensures Reachable(c, trace[j]) && CheckState(x, total, roles, trace[j], setter)
  {
    PrefixIsReachable(c, steps, trace, j);
    RunIsOrdered(c, steps, trace, i0, j);
    CommittedIsOld(c, steps, trace, i0, setter);
    assert Continues(trace[i0].txs[setter], trace[j].txs[setter]);
    assert Behaves(x, total, roles, trace[j], setter);
    forall t | t in trace[j].txs && t !in roles ensures trace[j].txs[t].wv <= trace[j].txs[setter].wv {
      assert t in trace[i0].txs && Continues(trace[i0].txs[t], trace[j].txs[t]);
    }
  }

  /** The setter's commit is in the history from state `i0` on. */
  lemma SetterStays(c: Config, x: Addr, total: Word, roles: map<Tid, Role>, steps: seq<Step>, trace: seq<State>,
                    i0: nat, i: nat, j: nat, setter: Tid)
    requires CheckRun(c, x, total, roles, steps, trace, i0, j, setter) && i0 <= i <= j
    ensures setter in trace[j].txs
    ensures var w := trace[j].txs[setter].wv; w in trace[i].hist && x in trace[i].hist[w].writes
  {
    CheckRunsAreCheckStates(c, x, total, roles, steps, trace, i0, j, setter);
    SetterWrites(c, x, total, roles, trace[j], setter);
    RunIsOrdered(c, steps, trace, i0, j);
    assert Continues(trace[i0].txs[setter], trace[j].txs[setter]);
    var w := trace[j].txs[setter].wv;
    assert w in trace[i0].hist by {
      RunIsGood(c, steps, trace, i0);
    }
    HistoryGrows(c, steps, trace, i0, i, w);
    HistoryGrows(c, steps, trace, i, j, w);
  }

  // ---- no worker sees the counter rise

  /** The value that `r` read first came from a commit of that moment. */
  lemma SampledVersion(c: Config, s: State, r: Tid, x: Addr, w: int) returns (u: int)
    requires Reachable(c, s) && r in s.txs && w in s.hist && w <= s.txs[r].rv && x in s.hist[w].writes
    requires |s.txs[r].log| > 0 && s.txs[r].log[0].EvRead? && s.txs[r].log[0].x == x
    ensures u in s.hist && w <= u <= s.gv && x in s.hist[u].writes && s.hist[u].writes[x] == s.txs[r].log[0].v
  {
    assert LogOk(s.txs[r]) && SourceInv(s) by {
      ReachableGood(c, s);
    }
    ReadIsObserved(s.txs[r], x);
    var p := (x, s.txs[r].log[0].v);
    assert p in s.txs[r].obs;
    u :| FromCommit(s.hist, s.txs[r].rv, p.0, p.1, u);
    Serializability.CommitterIsKnown(c, s, w);
    Serializability.CommitterIsKnown(c, s, u);
  }

  /** What a sampler read is the replay up to a commit no newer than the read version of whoever begins after it. */
  lemma SampleIsOld(c: Config, x: Addr, total: Word, roles: map<Tid, Role>, steps: seq<Step>, trace: seq<State>,
                    i0: nat, i: nat, j: nat, setter: Tid, r: Tid, t: Tid) returns (u: int)
    requires CheckRun(c, x, total, roles, steps, trace, i0, j, setter) && i <= j
    requires EndedAt(trace, i, r, t) && t in trace[j].txs && t != setter
    requires r != setter && r in roles
    requires r in trace[j].txs && |trace[j].txs[r].log| > 0
    requires trace[j].txs[r].log[0].EvRead? && trace[j].txs[r].log[0].x == x
    ensures setter in trace[j].txs && trace[j].txs[setter].wv <= u <= trace[j].txs[t].rv
    ensures u in trace[j].hist && x in trace[j].hist[u].writes && trace[j].hist[u].writes[x] == trace[j].txs[r].log[0].v
  {
    if i < i0 {
      RunIsOrdered(c, steps, trace, i, i0);
    }
    RunIsOrdered(c, steps, trace, i, j);
    assert Continues(trace[i].txs[r], trace[j].txs[r]);
    SetterStays(c, x, total, roles, steps, trace, i0, i, j, setter);
    CheckRunsAreCheckStates(c, x, total, roles, steps, trace, i0, j, setter);
    PrefixIsReachable(c, steps, trace, i);
    u := SampledVersion(c, trace[i], r, x, trace[j].txs[setter].wv);
    HistoryGrows(c, steps, trace, i, j, u);
  }

  /** What a transaction reads first, at any phase, is the replay up to some commit, no older than any commit
      up to its read version that stores the counter. */
  lemma FirstReadIsCommit(c: Config, x: Addr, total: Word, roles: map<Tid, Role>, s: State, setter: Tid,
                          t: Tid) returns (u: int)
    requires Reachable(c, s) && CheckState(x, total, roles, s, setter) && t in s.txs && t in roles && t != setter
    requires |s.txs[t].log| > 0 && s.txs[t].log[0].EvRead? && s.txs[t].log[0].x == x
    ensures u in s.hist && s.txs[setter].wv <= u && s.txs[t].log[0].v == Val(s.hist, u, x)
    ensures forall u' :: u' in s.hist && u' <= s.txs[t].rv && x in s.hist[u'].writes ==> u' <= u
  {
    SetterWrites(c, x, total, roles, s, setter);
    assert LogOk(s.txs[t]) && SourceInv(s) by {
      ReachableGood(c, s);
    }
    ReadIsObserved(s.txs[t], x);
    var p := (x, s.txs[t].log[0].v);
    assert p in s.txs[t].obs;
    u :| FromCommit(s.hist, s.txs[t].rv, p.0, p.1, u);
    Serializability.CommitterIsKnown(c, s, s.txs[setter].wv);
    Serializability.CommitterIsKnown(c, s, u);
  }

  /** No worker ever sees the counter rise: a decrementer reads, even before its validation, at most the value
      its worker's sampler read before. So each one that commits has stored one less than it read. */
  lemma CounterNeverRises(c: Config, x: Addr, total: Word, roles: map<Tid, Role>, steps: seq<Step>, trace: seq<State>,
                          i0: nat, i: nat, j: nat, setter: Tid, r: Tid, t: Tid)
    requires CheckRun(c, x, total, roles, steps, trace, i0, j, setter) && i <= j && EndedAt(trace, i, r, t)
    requires t in trace[j].txs && t in roles && roles[t] == Decrementer(r) && |trace[j].txs[t].log| > 0
    ensures r in trace[j].txs && |trace[j].txs[r].log| == 1
    ensures trace[j].txs[r].log[0].EvRead? && trace[j].txs[t].log[0].EvRead?
    ensures trace[j].txs[t].log[0].v <= trace[j].txs[r].log[0].v
    ensures Decided(trace[j].txs[t]) ==> |trace[j].txs[t].log| == 2
  {
    var s := trace[j];
    CheckRunsAreCheckStates(c, x, total, roles, steps, trace, i0, j, setter);
    assert Behaves(x, total, roles, s, t) && Behaves(x, total, roles, s, r);
    var w := SampleIsOld(c, x, total, roles, steps, trace, i0, i, j, setter, r, t);
    var u := FirstReadIsCommit(c, x, total, roles, s, setter, t);
    Serializability.CommitterIsKnown(c, s, w);
    CounterFalls(c, x, total, roles, s, setter, w, u);
  }

  // ---- the counter ends at zero

  /** How many commits have a version in `(a, v]`. */
  function Commits(h: map<int, Commit>, a: int, v: int): nat
    decreases v - a
  {
    if v <= a then 0 else Commits(h, a, v - 1) + if v in h then 1 else 0
  }

  /** The transactions with a commit in `(a, v]`. */
  ghost function Committers(s: State, a: int, v: int): set<Tid> {
    set t | t in s.txs && Decided(s.txs[t]) && a < s.txs[t].wv <= v
  }

  lemma {:induction false} CommittersAreCounted(c: Config, s: State, a: int, v: int)
    requires Reachable(c, s) && HistInv(s) && a <= v
    ensures |Committers(s, a, v)| == Commits(s.hist, a, v)
    decreases v - a
  {
    if a < v {
      CommittersAreCounted(c, s, a, v - 1);
      if v in s.hist {
        assert Committers(s, a, v) == Committers(s, a, v - 1) + {s.hist[v].tid};
      } else {
        assert Committers(s, a, v) == Committers(s, a, v - 1);
      }
    } else {
      assert Committers(s, a, v) == {};
    }
  }

  /** If every commit decrements, the counter is the total minus the number of commits. */
  lemma {:induction false} CounterIsExact(c: Config, x: Addr, total: Word, roles: map<Tid, Role>, s: State,
                                          setter: Tid, v: int)
    requires Reachable(c, s) && CheckState(x, total, roles, s, setter) && s.txs[setter].wv <= v
    requires forall t :: t in s.txs && t in roles && t != setter && Decided(s.txs[t]) ==> |s.txs[t].log| == 2
    ensures Val(s.hist, v, x) == total - Commits(s.hist, s.txs[setter].wv, v)
    decreases v - s.txs[setter].wv
  {
    if v == s.txs[setter].wv {
      SetterWrites(c, x, total, roles, s, setter);
    } else {
      CounterIsExact(c, x, total, roles, s, setter, v - 1);
      if v in s.hist {
        CommitDecrements(c, x, total, roles, s, setter, v);
        Serializability.CommitterIsKnown(c, s, v);
      }
    }
  }

  /** All decrementers of state `j` had ended at state `i`, each having begun after its sampler. */
  ghost predicate AllEnded(roles: map<Tid, Role>, trace: seq<State>, i: nat, j: nat)
    requires i <= j < |trace|
  {
    forall t :: t in trace[j].txs && t in roles && roles[t].Decrementer? ==>
      && t in trace[i].txs && (trace[i].txs[t].phase.Committed? || trace[i].txs[t].phase.Aborted?)
      && exists k :: 0 <= k <= j && EndedAt(trace, k, roles[t].sampler, t)
  }

  /** The decrements that committed. */
  ghost function Decrementers(roles: map<Tid, Role>, s: State): set<Tid> {
    set t | t in s.txs && t in roles && roles[t].Decrementer? && s.txs[t].phase.Committed?
  }

  lemma DeciderIsDecrementer(c: Config, x: Addr, total: Word, roles: map<Tid, Role>, s: State, setter: Tid, t: Tid)
    requires Reachable(c, s) && CheckState(x, total, roles, s, setter) && t in s.txs && t in roles
    requires t != setter && Decided(s.txs[t])
    ensures roles[t].Decrementer? && s.txs[t].wv in s.hist && s.hist[s.txs[t].wv].tid == t
    ensures s.txs[setter].wv < s.txs[t].wv <= s.gv
  {
    assert HistInv(s) by {
      ReachableGood(c, s);
    }
    assert Behaves(x, total, roles, s, t);
    Serializability.CommitterIsKnown(c, s, s.txs[t].wv);
    assert VersionsOk(s, s.txs[t]) by {
      ReachableGood(c, s);
    }
  }

  /** Every decrementer that committed stored one less than it read, and did so before `f` began. */
  lemma AllDecrementsAreOld(c: Config, x: Addr, total: Word, roles: map<Tid, Role>, steps: seq<Step>, trace: seq<State>,
                            i0: nat, i: nat, j: nat, setter: Tid, f: Tid, t: Tid)
    requires CheckRun(c, x, total, roles, steps, trace, i0, j, setter) && i <= j && AllEnded(roles, trace, i, j)
    requires f in trace[j].txs && f !in trace[i].txs && t in trace[j].txs && t in roles && roles[t].Decrementer?
    requires Decided(trace[j].txs[t])
    ensures trace[j].txs[t].phase.Committed? && |trace[j].txs[t].log| == 2 && trace[j].txs[t].wv <= trace[j].txs[f].rv
  {
    RunIsOrdered(c, steps, trace, i, j);
    assert Continues(trace[i].txs[t], trace[j].txs[t]);
    CommittedIsOld(c, steps, trace, i, t);
    assert Behaves(x, total, roles, trace[j], t);
    var k :| 0 <= k <= j && EndedAt(trace, k, roles[t].sampler, t);
    CounterNeverRises(c, x, total, roles, steps, trace, i0, k, j, setter, roles[t].sampler, t);
  }

  lemma CommittersAreDecrementers(c: Config, x: Addr, total: Word, roles: map<Tid, Role>, s: State, setter: Tid)
    requires Reachable(c, s) && CheckState(x, total, roles, s, setter)
    requires forall t :: t in s.txs && t in roles && roles[t].Decrementer? && Decided(s.txs[t]) ==>
      s.txs[t].phase.Committed?
    ensures Committers(s, s.txs[setter].wv, s.gv) == Decrementers(roles, s)
  {
    forall t | t in s.txs && t in roles && t != setter && Decided(s.txs[t])
      ensures t in Decrementers(roles, s) && t in Committers(s, s.txs[setter].wv, s.gv)
    {
      DeciderIsDecrementer(c, x, total, roles, s, setter, t);
    }
    forall t | t in Decrementers(roles, s) ensures Decided(s.txs[t]) {
      assert Behaves(x, total, roles, s, t);
    }
  }

  /** The last check: whoever reads the counter after all decrementers have ended reads the total minus the
      number of decrements that committed; when `total` committed, that is zero. */
  lemma CounterEndsExact(c: Config, x: Addr, total: Word, roles: map<Tid, Role>, steps: seq<Step>, trace: seq<State>,
                         i0: nat, i: nat, j: nat, setter: Tid, f: Tid)
    requires CheckRun(c, x, total, roles, steps, trace, i0, j, setter) && i <= j && AllEnded(roles, trace, i, j)
    requires f in trace[j].txs && f !in trace[i].txs && f in roles && roles[f].Sampler? && |trace[j].txs[f].log| == 1
    ensures trace[j].txs[f].log[0].EvRead?
    ensures trace[j].txs[f].log[0].v == total - |Decrementers(roles, trace[j])|
  {
    var s := trace[j];
    CheckRunsAreCheckStates(c, x, total, roles, steps, trace, i0, j, setter);
    forall t | t in s.txs && t in roles && roles[t].Decrementer? && Decided(s.txs[t])
      ensures s.txs[t].phase.Committed? && |s.txs[t].log| == 2 && s.txs[t].wv <= s.txs[f].rv
    {
      AllDecrementsAreOld(c, x, total, roles, steps, trace, i0, i, j, setter, f, t);
    }
    assert Behaves(x, total, roles, s, f);
    var u := FirstReadIsCommit(c, x, total, roles, s, setter, f);
    Serializability.CommitterIsKnown(c, s, u);
    forall t | t in s.txs && t in roles && t != setter && Decided(s.txs[t]) ensures |s.txs[t].log| == 2 {
      DeciderIsDecrementer(c, x, total, roles, s, setter, t);
    }
    assert NotWritten(s.hist, u, s.gv, x) by {
      forall u' | u < u' <= s.gv && u' in s.hist ensures x !in s.hist[u'].writes {
        Serializability.CommitterIsKnown(c, s, u');
        DeciderIsDecrementer(c, x, total, roles, s, setter, s.hist[u'].tid);
      }
    }
    ValSkips(s.hist, u, s.gv, x);
    CounterIsExact(c, x, total, roles, s, setter, s.gv);
    assert HistInv(s) by {
      ReachableGood(c, s);
    }
    CommittersAreCounted(c, s, s.txs[setter].wv, s.gv);
    CommittersAreDecrementers(c, x, total, roles, s, setter);
  }

  lemma LaterCommitIsDecrement(c: Config, x: Addr, total: Word, roles: map<Tid, Role>, s: State, setter: Tid, u: int)
    requires Reachable(c, s) && CheckState(x, total, roles, s, setter) && u in s.hist && s.txs[setter].wv < u
    ensures s.hist[u].tid in s.txs && s.hist[u].tid in roles
    ensures roles[s.hist[u].tid].Decrementer? && Decided(s.txs[s.hist[u].tid])
  {
    Serializability.CommitterIsKnown(c, s, u);
    DeciderIsDecrementer(c, x, total, roles, s, setter, s.hist[u].tid);
  }

  /** The first check: before any decrement has committed, whoever reads the counter reads the total. */
  lemma CounterStartsExact(c: Config, x: Addr, total: Word, roles: map<Tid, Role>, s: State, setter: Tid, f: Tid)
    requires Reachable(c, s) && CheckState(x, total, roles, s, setter)
    requires f in s.txs && f in roles && roles[f].Sampler? && |s.txs[f].log| == 1
    requires forall t :: t in s.txs && t in roles && roles[t].Decrementer? ==> !Decided(s.txs[t])
    ensures s.txs[f].log[0].EvRead? && s.txs[f].log[0].v == total
  {
    assert Behaves(x, total, roles, s, f);
    var u := FirstReadIsCommit(c, x, total, roles, s, setter, f);
    SetterWrites(c, x, total, roles, s, setter);
    assert NotWritten(s.hist, s.txs[setter].wv, u, x) by {
      forall u' | s.txs[setter].wv < u' <= u ensures u' !in s.hist {
        if u' in s.hist {
          LaterCommitIsDecrement(c, x, total, roles, s, setter, u');
          assert false;
        }
      }
    }
    ValSkips(s.hist, s.txs[setter].wv, u, x);
  }

  // ---- one round

  /** One worker: the setter, its sampler, its decrementer, and the sampler that looks at the end. */
  function OneRound(): map<Tid, Role> {
    map[0 := Setter, 1 := Sampler, 2 := Decrementer(1), 3 := Sampler]
  }

  lemma OneCall(m: map<Addr, Word>, e: Event)
    ensures RunLog(m, [e]) == RunCall(m, e)
  {
    assert [e][..0] == [] && RunLog(m, []) == Memory(m);
  }

  lemma TwoCalls(m: map<Addr, Word>, x: Addr, v: Word)
    requires Get(m, x) == v
    ensures RunLog(m, [EvRead(x, v), EvWrite(x, v - 1)]) == Memory(m[x := v - 1])
  {
    OneCall(m, EvRead(x, v));
    assert [EvRead(x, v), EvWrite(x, v - 1)][..1] == [EvRead(x, v)];
  }

  /** The setter, and a sampler that reads the total. */
  lemma RoundBegins(c: Config, x: Addr, total: Word) returns (s0: State, s1: State)
    ensures Reachable(c, s0) && Leads(c, s0, s1) && Settled(s1) && Get(s1.mem, x) == total
    ensures 0 in s0.txs && OthersRest(Init(), s0, 0) && s0.txs[0].phase.Committed? && !s0.txs[0].readOnly
    ensures s0.txs[0].log == [EvWrite(x, total)]
    ensures 1 in s1.txs && OthersRest(s0, s1, 1) && s1.txs[1].phase.Committed? && s1.txs[1].readOnly
    ensures s1.txs[1].log == [EvRead(x, total)]
  {
    InitIsReachable(c);
    LeadsNowhere(c, Init());
    OneCall(map[], EvWrite(x, total));
    s0 := SoloTransaction(c, Init(), Init(), 0, false, [EvWrite(x, total)]);
    LeadsIsReachable(c, Init(), s0);
    LeadsNowhere(c, s0);
    OneCall(s0.mem, EvRead(x, total));
    s1 := SoloTransaction(c, s0, s0, 1, true, [EvRead(x, total)]);
  }

  /** The decrementer, and a sampler that reads one less. */
  lemma RoundEnds(c: Config, x: Addr, total: Word, s1: State) returns (s2: State, s3: State)
    requires Settled(s1) && Get(s1.mem, x) == total && 2 !in s1.txs && 3 !in s1.txs
    ensures Leads(c, s1, s2) && Leads(c, s2, s3)
    ensures 2 in s2.txs && OthersRest(s1, s2, 2) && s2.txs[2].phase.Committed? && !s2.txs[2].readOnly
    ensures s2.txs[2].log == [EvRead(x, total), EvWrite(x, total - 1)]
    ensures 3 in s3.txs && OthersRest(s2, s3, 3) && s3.txs[3].phase.Committed? && s3.txs[3].readOnly
    ensures s3.txs[3].log == [EvRead(x, total - 1)]
  {
    LeadsNowhere(c, s1);
    TwoCalls(s1.mem, x, total);
    s2 := SoloTransaction(c, s1, s1, 2, false, [EvRead(x, total), EvWrite(x, total - 1)]);
    LeadsNowhere(c, s2);
    OneCall(s2.mem, EvRead(x, total - 1));
    s3 := SoloTransaction(c, s2, s2, 3, true, [EvRead(x, total - 1)]);
  }

  lemma RoundBehaves(x: Addr, total: Word, s0: State, s1: State, s2: State, s: State)
    requires OthersRest(Init(), s0, 0) && OthersRest(s0, s1, 1) && OthersRest(s1, s2, 2) && OthersRest(s2, s, 3)
    requires 0 in s0.txs && s0.txs[0].log == [EvWrite(x, total)] && !s0.txs[0].readOnly
    requires 1 in s1.txs && s1.txs[1].log == [EvRead(x, total)] && s1.txs[1].readOnly
    requires 2 in s2.txs && s2.txs[2].log == [EvRead(x, total), EvWrite(x, total - 1)] && !s2.txs[2].readOnly
    requires 3 in s.txs && s.txs[3].log == [EvRead(x, total - 1)] && s.txs[3].readOnly
    ensures forall t :: t in s.txs ==> t in OneRound() && Behaves(x, total, OneRound(), s, t)
    ensures forall t :: t in s0.txs ==> t == 0
  {
    assert s.txs[1] == s1.txs[1] && s.txs[2] == s2.txs[2];
    forall t | t in s.txs ensures t in OneRound() && Behaves(x, total, OneRound(), s, t) {
      assert t == 0 || t == 1 || t == 2 || t == 3;
    }
  }

  lemma RunThrough(c: Config, s0: State, s1: State, s2: State, s: State)
    returns (steps: seq<Step>, trace: seq<State>, i0: nat, i1: nat, i2: nat)
    requires Reachable(c, s0) && Leads(c, s0, s1) && Leads(c, s1, s2) && Leads(c, s2, s)
    ensures Run(c, steps, trace) && i0 <= i1 <= i2 <= |steps|
    ensures trace[i0] == s0 && trace[i1] == s1 && trace[i2] == s2 && trace[|steps|] == s
  {
    var steps1, trace1;
    steps1, trace1, i0 := RunVia(c, s0, s1);
    var steps2, trace2 := RunGoesOn(c, steps1, trace1, s2);
    steps, trace := RunGoesOn(c, steps2, trace2, s);
    i1, i2 := |steps1|, |steps2|;
  }

  lemma RoundHasEnded(trace: seq<State>, i1: nat, i: nat, j: nat)
    requires i1 <= j && i <= j < |trace| && EndedAt(trace, i1, 1, 2)
    requires 2 in trace[i].txs && trace[i].txs[2].phase.Committed?
    ensures AllEnded(OneRound(), trace, i, j)
  {}

  /** Such runs exist: here is the one in which these four run one after the other. */
  lemma RoundHappens(c: Config, x: Addr, total: Word)
    returns (steps: seq<Step>, trace: seq<State>, i0: nat, i: nat)
    ensures i <= |steps| && CheckRun(c, x, total, OneRound(), steps, trace, i0, |steps|, 0)
    ensures AllEnded(OneRound(), trace, i, |steps|) && 3 in trace[|steps|].txs && 3 !in trace[i].txs
    ensures trace[|steps|].txs[3].log == [EvRead(x, total - 1)]
  {
    var s0, s1 := RoundBegins(c, x, total);
    var s2, s3 := RoundEnds(c, x, total, s1);
    RoundBehaves(x, total, s0, s1, s2, s3);
    var i1;
    steps, trace, i0, i1, i := RunThrough(c, s0, s1, s2, s3);
    RoundHasEnded(trace, i1, i, |steps|);
  }
}
