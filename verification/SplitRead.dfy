/** The read of `tm_read` checks the lock a second time before it copies the word. This module shows which
    read-only transactions are serializable although a writer may commit between the two. */
module SplitRead {
  import VersionLock
  import opened Protocol
  import opened Replay
  import opened Reference
  import opened RunRecord
  import Serializability
  import opened SoloRuns

  // ---- the run

  function ZeroReads(xs: seq<Addr>): (log: seq<Event>)
    ensures ReadsWords(log, xs) && forall i :: 0 <= i < |log| ==> log[i].v == 0
  {
    seq(|xs|, i requires 0 <= i < |xs| => EvRead(xs[i], 0))
  }

  function TornLog(xs: seq<Addr>): (log: seq<Event>)
    requires |xs| > 0
    ensures ReadsWords(log, xs)
  {
    ZeroReads(xs[..|xs| - 1]) + [EvRead(xs[|xs| - 1], 1)]
  }

  /** What a writer of the first and the last word leaves behind. */
  function TornHistory(xs: seq<Addr>): map<int, Commit>
    requires |xs| > 0
  {
    map[2 := Commit(1, map[xs[0] := 1][xs[|xs| - 1] := 1])]
  }

  /** Transaction 0 reads all words but the last, and gets as far as copying that one. */
  lemma ReaderStops(c: Config, xs: seq<Addr>) returns (s: State)
    requires !c.fusedRead && |xs| > 0
    ensures Reachable(c, s) && Alone(Init(), s, 0) && s.txs[0].phase == Rechecked(xs[|xs| - 1])
    ensures s.txs[0].readOnly && s.txs[0].log == ZeroReads(xs[..|xs| - 1]) && s.txs[0].writes == map[]
  {
    var log := ZeroReads(xs[..|xs| - 1]);
    ReadsAgree(map[], log, xs[..|xs| - 1]);
    InitIsReachable(c);
    LeadsNowhere(c, Init());
    s := ReaderPauses(c, Init(), Init(), 0, log, xs[|xs| - 1]);
    LeadsIsReachable(c, Init(), s);
  }

  lemma TwoWrites(m: map<Addr, Word>, x: Addr, y: Addr)
    ensures RunLog(m, [EvWrite(x, 1), EvWrite(y, 1)]) == Memory(m[x := 1][y := 1])
    ensures WritesOf([EvWrite(x, 1), EvWrite(y, 1)]) == map[x := 1][y := 1]
  {
    var log, first := [EvWrite(x, 1), EvWrite(y, 1)], [EvWrite(x, 1)];
    assert log[..1] == first && first[..0] == [];
    assert RunLog(m, first) == Memory(m[x := 1]);
    assert WritesOf(first[..0]) == map[] && WritesOf(first) == map[x := 1];
  }

  /** Then transaction 1 writes the first and the last word and commits. */
  lemma WriterCommits(c: Config, s: State, xs: seq<Addr>) returns (s': State)
    requires Reachable(c, s) && Alone(Init(), s, 0) && |xs| > 0
    ensures Reachable(c, s') && |s'.locks| == VersionLock.LOCK_ARRAY_SIZE && 1 in s'.txs && OthersRest(s, s', 1)
    ensures s'.hist == TornHistory(xs) && Get(s'.mem, xs[|xs| - 1]) == 1
  {
    var x, y := xs[0], xs[|xs| - 1];
    var log := [EvWrite(x, 1), EvWrite(y, 1)];
    TwoWrites(s.mem, x, y);
    LeadsNowhere(c, s);
    s' := SoloTransaction(c, s, s, 1, false, log);
    LeadsIsReachable(c, s, s');
    assert LogOk(s'.txs[1]) by {
      ReachableGood(c, s');
    }
  }

  /** The reader copies the new last word, next to the old first one, and commits. */
  lemma TornRead(c: Config, xs: seq<Addr>) returns (s: State)
    requires !c.fusedRead && |xs| > 0
    ensures Reachable(c, s) && 0 in s.txs && s.txs[0].phase.Committed? && s.txs[0].readOnly
    ensures s.txs[0].log == TornLog(xs) && s.hist == TornHistory(xs)
  {
    var s1 := ReaderStops(c, xs);
    var s2 := WriterCommits(c, s1, xs);
    LeadsNowhere(c, s2);
    s := ReaderResumes(c, s2, s2, 0, xs[|xs| - 1]);
    LeadsIsReachable(c, s2, s);
  }

  lemma {:induction false} TornMemory(xs: seq<Addr>, v: int)
    requires |xs| > 0
    ensures MemAt(TornHistory(xs), v) == if v < 2 then map[] else map[xs[0] := 1][xs[|xs| - 1] := 1]
    decreases if v < 0 then 0 else v
  {
    if v > 0 {
      TornMemory(xs, v - 1);
    }
  }

  /** No place in the serial order explains what the reader saw, if it read two words or one word twice. */
  lemma TornNowhere(xs: seq<Addr>, v: int)
    requires |xs| >= 2
    ensures RunLog(MemAt(TornHistory(xs), v), TornLog(xs)) == Mismatch
  {
    var m, log := MemAt(TornHistory(xs), v), TornLog(xs);
    TornMemory(xs, v);
    ReadsAgree(m, log, xs);
    assert log[0] == EvRead(xs[0], 0) && log[|xs| - 1] == EvRead(xs[|xs| - 1], 1);
  }

  // ---- which transactions are served

  /** Some version explains everything transaction `t` did. */
  ghost predicate Explained(s: State, t: Tid)
    requires t in s.txs
  {
    exists v :: RunLog(MemAt(s.hist, v), s.txs[t].log).Memory?
  }

  /** In every run, all committed read-only transactions that read exactly the words `xs` are explained. */
  ghost predicate AlwaysExplained(c: Config, xs: seq<Addr>) {
    forall s, t :: (Reachable(c, s) && t in s.txs && s.txs[t].readOnly && s.txs[t].phase.Committed?
                    && ReadsWords(s.txs[t].log, xs)) ==> Explained(s, t)
  }

  /** A single read needs no second check: it returns what some commit wrote. */
  lemma OneReadIsExplained(c: Config, s: State, t: Tid, xs: seq<Addr>)
    requires Reachable(c, s) && t in s.txs && ReadsWords(s.txs[t].log, xs) && |xs| <= 1
    ensures Explained(s, t)
  {
    var log := s.txs[t].log;
    if |xs| == 0 {
      assert RunLog(MemAt(s.hist, 0), log).Memory?;
    } else {
      var u := OneReadHasSource(c, s, t, xs[0]);
      ReadsAgree(MemAt(s.hist, u), log, xs);
      assert RunLog(MemAt(s.hist, u), log).Memory?;
    }
  }

  lemma OneReadHasSource(c: Config, s: State, t: Tid, x: Addr) returns (u: int)
    requires Reachable(c, s) && t in s.txs && |s.txs[t].log| == 1 && s.txs[t].log[0].EvRead? && s.txs[t].log[0].x == x
    ensures Get(MemAt(s.hist, u), x) == s.txs[t].log[0].v
  {
    ReachableGood(c, s);
    var p := (x, s.txs[t].log[0].v);
    assert LogOk(s.txs[t]);
    ReadIsObserved(s.txs[t], x);
    assert p in s.txs[t].obs;
    u :| FromCommit(s.hist, s.txs[t].rv, p.0, p.1, u);
    CommitsArePositive(c, s);
    ValIsMemAt(s.hist, u, x);
  }

  /** Read-only transactions that read `xs` are serializable in all runs exactly if they make at most one word
      read, or the second lock check and the copy are one step; whatever the words and the hash. The source
      performs them one after the other. */
  lemma ReadOnlySerializableIff(c: Config, xs: seq<Addr>)
    ensures AlwaysExplained(c, xs) <==> c.fusedRead || |xs| <= 1
  {
    if c.fusedRead || |xs| <= 1 {
      forall s, t | Reachable(c, s) && t in s.txs && s.txs[t].readOnly && ReadsWords(s.txs[t].log, xs)
        ensures Explained(s, t)
      {
        if c.fusedRead {
          Serializability.ReadOnlyIsSerial(c, s, t);
        } else {
          OneReadIsExplained(c, s, t, xs);
        }
      }
    } else {
      var s := TornRead(c, xs);
      forall v ensures RunLog(MemAt(s.hist, v), s.txs[0].log) == Mismatch {
        TornNowhere(xs, v);
      }
      assert !Explained(s, 0);
    }
  }
}
