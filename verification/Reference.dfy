/** The serial specification: `reference/tm.c`, where one lock serialises read-write transactions and
    every call acts on memory directly. */
module Reference {
  import opened Protocol

  datatype Outcome = Mismatch | Memory(m: map<Addr, Word>)

  /** One logged call on memory `m`: a read must find the logged value. */
  function RunCall(m: map<Addr, Word>, e: Event): Outcome {
    match e
    case EvRead(x, v) => if Get(m, x) == v then Memory(m) else Mismatch
    case EvWrite(x, v) => Memory(m[x := v])
    case EvAlloc(_, _) => Memory(m)
  }

  /** A whole transaction, alone on memory `m`. */
  function RunLog(m: map<Addr, Word>, log: seq<Event>): Outcome {
    if |log| == 0 then Memory(m)
    else
      match RunLog(m, log[..|log| - 1])
      case Mismatch => Mismatch
      case Memory(m') => RunCall(m', log[|log| - 1])
  }

  /** Whole transactions one after the other. */
  function RunLogs(m: map<Addr, Word>, logs: seq<seq<Event>>): Outcome {
    if |logs| == 0 then Memory(m)
    else
      match RunLogs(m, logs[..|logs| - 1])
      case Mismatch => Mismatch
      case Memory(m') => RunLog(m', logs[|logs| - 1])
  }

  /** The last value written to each word by a log. */
  function WritesOf(log: seq<Event>): map<Addr, Word> {
    if |log| == 0 then map[]
    else
      var before := WritesOf(log[..|log| - 1]);
      match log[|log| - 1]
      case EvWrite(x, v) => before[x := v]
      case _ => before
  }

  /** Each read returned the log's own latest write of the word if there is one, and otherwise a value
      copied from shared memory. */
  predicate OverlayAt(log: seq<Event>, obs: set<(Addr, Word)>, i: nat)
    requires i < |log|
  {
    match log[i]
    case EvRead(x, v) =>
      var own := WritesOf(log[..i]);
      if x in own then v == own[x] else (x, v) in obs
    case _ => true
  }

  predicate Overlay(log: seq<Event>, obs: set<(Addr, Word)>) {
    forall i :: 0 <= i < |log| ==> OverlayAt(log, obs, i)
  }

  /** If the copied values are those of memory `m`, the log is a run of the reference on `m`. */
  lemma {:induction false} OverlayRuns(m: map<Addr, Word>, log: seq<Event>, obs: set<(Addr, Word)>)
    requires Overlay(log, obs) && forall p :: p in obs ==> p.1 == Get(m, p.0)
    ensures RunLog(m, log) == Memory(m + WritesOf(log))
  {
    if |log| > 0 {
      var n := |log| - 1;
      OverlayPrefix(log, obs, n);
      OverlayRuns(m, log[..n], obs);
      assert OverlayAt(log, obs, n);
      if log[n].EvRead? && log[n].x !in WritesOf(log[..n]) {
        assert (log[n].x, log[n].v) in obs;
      }
    }
  }

  lemma OverlayPrefix(log: seq<Event>, obs: set<(Addr, Word)>, n: nat)
    requires Overlay(log, obs) && n <= |log|
    ensures Overlay(log[..n], obs)
  {
    forall i | 0 <= i < n ensures OverlayAt(log[..n], obs, i) {
      assert OverlayAt(log, obs, i);
      assert log[..n][..i] == log[..i];
    }
  }

  lemma OverlayExtends(log: seq<Event>, obs: set<(Addr, Word)>, e: Event, obs': set<(Addr, Word)>)
    requires Overlay(log, obs) && obs <= obs'
    requires e.EvRead? ==> if e.x in WritesOf(log) then e.v == WritesOf(log)[e.x] else (e.x, e.v) in obs'
    ensures Overlay(log + [e], obs')
    ensures WritesOf(log + [e]) == if e.EvWrite? then WritesOf(log)[e.x := e.v] else WritesOf(log)
  {
    var log' := log + [e];
    assert log'[..|log|] == log;
    forall i | 0 <= i < |log'| ensures OverlayAt(log', obs', i) {
      if i < |log| {
        assert OverlayAt(log, obs, i);
        assert log'[..i] == log[..i];
      }
    }
  }

  // ---- reads

  /** The log reads exactly the words `xs`, in this order. */
  predicate ReadsWords(log: seq<Event>, xs: seq<Addr>) {
    |log| == |xs| && forall i :: 0 <= i < |xs| ==> log[i].EvRead? && log[i].x == xs[i]
  }

  ghost predicate Agrees(m: map<Addr, Word>, log: seq<Event>) {
    forall i :: 0 <= i < |log| && log[i].EvRead? ==> Get(m, log[i].x) == log[i].v
  }

  /** A log of reads runs on exactly the memories that have all the values read. */
  lemma {:induction false} ReadsAgree(m: map<Addr, Word>, log: seq<Event>, xs: seq<Addr>)
    requires ReadsWords(log, xs)
    ensures RunLog(m, log) == if Agrees(m, log) then Memory(m) else Mismatch
  {
    if |log| > 0 {
      var n := |log| - 1;
      ReadsAgree(m, log[..n], xs[..n]);
      AgreesSplits(m, log, n);
    }
  }

  lemma AgreesSplits(m: map<Addr, Word>, log: seq<Event>, n: nat)
    requires |log| == n + 1
    ensures Agrees(m, log) <==> Agrees(m, log[..n]) && (log[n].EvRead? ==> Get(m, log[n].x) == log[n].v)
  {
    var most := log[..n];
    assert forall i :: 0 <= i < n ==> most[i] == log[i];
  }
}
