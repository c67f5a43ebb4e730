/** The producer and consumer of `sync-examples/procon4.c`, which sleep on a condition variable, for any buffer
    size and run length. `lock_wait` releases the lock and sleeps in one step, and a woken thread takes the lock
    again before it goes on; a broadcast wakes every sleeper; a sleeper may also wake up for no reason. */
module RingCondVar {
  import opened RingSlots

  type Item = int

  datatype Thread = Producer | Consumer

  datatype Holder = Free | Held(thread: Thread)

  /** Where a thread stands in its round. */
  datatype Pc =
    | Acquiring    // lock_acquire
    | Testing      // holds the lock, about to test its condition
    | Asleep       // inside lock_wait
    | Woken        // woken up, needs the lock
    | Working      // holds the lock and its condition held: about to copy and count
    | Releasing    // about to release the lock
    | Notifying    // about to broadcast
    | Finished     // all rounds done

  /** `produced` and `consumed` are the arrays kept to check correctness: an entry for each round worked. */
  datatype State = State(lock: Holder, producedUntil: int, consumedUntil: int, buffer: seq<Item>,
                         producer: Pc, consumer: Pc, produced: seq<Item>, consumed: seq<Item>)

  datatype Step = Move(t: Thread, item: Item) | WakeForNoReason(t: Thread)

  function Other(t: Thread): Thread {
    if t == Producer then Consumer else Producer
  }

  function PcOf(s: State, t: Thread): Pc {
    if t == Producer then s.producer else s.consumer
  }

  function At(s: State, t: Thread, p: Pc): State {
    if t == Producer then s.(producer := p) else s.(consumer := p)
  }

  /** The rounds a thread has worked. */
  function Rounds(s: State, t: Thread): nat {
    if t == Producer then |s.produced| else |s.consumed|
  }

  /** What a thread waits for: space in the buffer, or an item. */
  predicate Condition(b: nat, s: State, t: Thread) {
    if t == Producer then s.consumedUntil + b > Rounds(s, t) else s.producedUntil > Rounds(s, t)
  }

  function Init(b: nat, runs: nat): State {
    var p := if runs == 0 then Finished else Acquiring;
    State(Free, 0, 0, seq(b, _ => 0), p, p, [], [])
  }

  /** The critical section: copies an item and counts it. */
  function Work(b: nat, s: State, t: Thread, item: Item): State
    requires |s.buffer| == b > 0
  {
    if t == Producer then
      s.(buffer := s.buffer[Slot(b, |s.produced|) := item], produced := s.produced + [item],
         producedUntil := s.producedUntil + 1)
    else
      s.(consumed := s.consumed + [s.buffer[Slot(b, |s.consumed|)]], consumedUntil := s.consumedUntil + 1)
  }

  /** What a broadcast does to a thread. */
  function Roused(p: Pc): Pc {
    if p.Asleep? then Woken else p
  }

  /** The next operation of thread `t`; a blocked one leaves the state as it is. */
  function Next(b: nat, runs: nat, s: State, t: Thread, item: Item): (s': State)
    requires |s.buffer| == b > 0
    ensures |s'.buffer| == b
  {
    match PcOf(s, t)
    case Acquiring => if s.lock.Free? then At(s, t, Testing).(lock := Held(t)) else s
    case Testing => if Condition(b, s, t) then At(s, t, Working) else At(s, t, Asleep).(lock := Free)
    case Asleep => s
    case Woken => if s.lock.Free? then At(s, t, Testing).(lock := Held(t)) else s
    case Working => At(Work(b, s, t, item), t, Releasing)
    case Releasing => At(s, t, Notifying).(lock := Free)
    case Notifying =>
      At(At(s, Other(t), Roused(PcOf(s, Other(t)))), t, if Rounds(s, t) < runs then Acquiring else Finished)
    case Finished => s
  }

  function Run(b: nat, runs: nat, steps: seq<Step>): (s: State)
    requires b > 0
    ensures |s.buffer| == b
  {
    if |steps| == 0 then Init(b, runs)
    else
      var s := Run(b, runs, steps[..|steps| - 1]);
      match steps[|steps| - 1]
      case Move(t, item) => Next(b, runs, s, t, item)
      case WakeForNoReason(t) => At(s, t, Roused(PcOf(s, t)))
  }

  // ---- the invariant

  predicate Holds(p: Pc) {
    p.Testing? || p.Working? || p.Releasing?
  }

  /** The thread has changed the other one's condition and will still broadcast. */
  predicate WillNotify(p: Pc) {
    p.Releasing? || p.Notifying?
  }

  /** The lock, the rounds, and what sleeping means for one thread. */
  ghost predicate ThreadOk(b: nat, runs: nat, s: State, t: Thread) {
    var p := PcOf(s, t);
    && (s.lock == Held(t) <==> Holds(p))
    && (if WillNotify(p) then Rounds(s, t) <= runs
        else if p.Finished? then Rounds(s, t) == runs
        else Rounds(s, t) < runs)
    && (p.Working? ==> Condition(b, s, t))
    && (p.Asleep? && Condition(b, s, t) ==> WillNotify(PcOf(s, Other(t))))
  }

  ghost predicate DataOk(b: nat, s: State) {
    && |s.buffer| == b > 0 && s.producedUntil == |s.produced| && s.consumedUntil == |s.consumed|
    && |s.consumed| <= |s.produced| <= |s.consumed| + b
    && (forall i :: |s.consumed| <= i < |s.produced| ==> s.buffer[Slot(b, i)] == s.produced[i])
    && (forall i :: 0 <= i < |s.consumed| ==> s.consumed[i] == s.produced[i])
  }

  ghost predicate Inv(b: nat, runs: nat, s: State) {
    DataOk(b, s) && ThreadOk(b, runs, s, Producer) && ThreadOk(b, runs, s, Consumer)
  }

  lemma WorkKeeps(b: nat, s: State, t: Thread, item: Item)
    requires DataOk(b, s) && Condition(b, s, t)
    ensures DataOk(b, Work(b, s, t, item))
  {
    if t == Producer {
      var s' := Work(b, s, t, item);
      forall i | |s.consumed| <= i < |s'.produced| ensures s'.buffer[Slot(b, i)] == s'.produced[i] {
        if i < |s.produced| {
          SlotsDiffer(b, i, |s.produced|);
        }
      }
    }
  }

  lemma MoveKeeps(b: nat, runs: nat, s: State, t: Thread, item: Item)
    requires Inv(b, runs, s)
    ensures Inv(b, runs, Next(b, runs, s, t, item))
  {
    if PcOf(s, t).Working? {
      WorkKeeps(b, s, t, item);
    }
  }

  lemma {:induction false} RunKeepsInv(b: nat, runs: nat, steps: seq<Step>)
    requires b > 0
    ensures Inv(b, runs, Run(b, runs, steps))
  {
    if |steps| > 0 {
      RunKeepsInv(b, runs, steps[..|steps| - 1]);
      var s := Run(b, runs, steps[..|steps| - 1]);
      match steps[|steps| - 1] {
        case Move(t, item) => MoveKeeps(b, runs, s, t, item);
        case WakeForNoReason(t) =>
      }
    }
  }

  // ---- what it promises

  /** In any run the counters stay within the buffer size of each other, and the consumed items are the produced
      ones, in order. */
  lemma RingIsFifo(b: nat, runs: nat, steps: seq<Step>, i: nat)
    requires b > 0
    ensures var s := Run(b, runs, steps);
      && 0 <= s.producedUntil - s.consumedUntil <= b
      && (i < |s.consumed| ==> i < |s.produced| && s.consumed[i] == s.produced[i])
  {
    RunKeepsInv(b, runs, steps);
  }

  /** A sleeper whose condition has become true has a wake-up pending. */
  lemma WakeUpIsPending(b: nat, runs: nat, steps: seq<Step>, t: Thread)
    requires b > 0 && PcOf(Run(b, runs, steps), t).Asleep? && Condition(b, Run(b, runs, steps), t)
    ensures WillNotify(PcOf(Run(b, runs, steps), Other(t)))
  {
    RunKeepsInv(b, runs, steps);
  }

  /** Only one thread at a time is in its critical section. */
  lemma MutualExclusion(b: nat, runs: nat, steps: seq<Step>)
    requires b > 0
    ensures !(Holds(Run(b, runs, steps).producer) && Holds(Run(b, runs, steps).consumer))
  {
    RunKeepsInv(b, runs, steps);
  }

  /** A thread that works does its round: the producer adds its item, the consumer takes the oldest one left. */
  lemma WorkIsDone(b: nat, runs: nat, steps: seq<Step>, t: Thread, item: Item)
    requires b > 0 && PcOf(Run(b, runs, steps), t).Working?
    ensures var s := Run(b, runs, steps); var s' := Next(b, runs, s, t, item);
      && PcOf(s', t).Releasing? && Rounds(s', t) == Rounds(s, t) + 1 && Rounds(s', Other(t)) == Rounds(s, Other(t))
      && (t == Producer ==> s'.produced == s.produced + [item])
      && (t == Consumer ==> |s.consumed| < |s.produced| && s'.consumed == s.consumed + [s.produced[|s.consumed|]])
  {
    RunKeepsInv(b, runs, steps);
    assert ThreadOk(b, runs, Run(b, runs, steps), t);
  }

  /** Nobody waits in vain: a thread is kept out only while the other one holds the lock, goes to work exactly if
      there is space in the buffer, or an item, and sleeps on then only while the other is about to wake it. */
  lemma WaitsAreNeeded(b: nat, runs: nat, steps: seq<Step>, t: Thread, item: Item)
    requires b > 0
    ensures var s := Run(b, runs, steps); var p := PcOf(s, t);
      var mayWork := if t == Producer then |s.produced| < |s.consumed| + b else |s.consumed| < |s.produced|;
      && (Next(b, runs, s, t, item) == s ==>
            p.Asleep? || p.Finished? || ((p.Acquiring? || p.Woken?) && Holds(PcOf(s, Other(t)))))
      && (p.Testing? ==> PcOf(Next(b, runs, s, t, item), t) == if mayWork then Working else Asleep)
      && (p.Asleep? && mayWork ==> WillNotify(PcOf(s, Other(t))))
  {
    RunKeepsInv(b, runs, steps);
    var s := Run(b, runs, steps);
    assert ThreadOk(b, runs, s, t) && ThreadOk(b, runs, s, Other(t));
    if s.lock.Held? {
      assert Holds(PcOf(s, s.lock.thread));
    }
    assert PcOf(Next(b, runs, s, t, item), t) == PcOf(s, t) || Next(b, runs, s, t, item) != s;
  }

  // ---- progress

  /** Until both are finished some thread can move, even if nobody ever wakes up for no reason: they never both
      sleep for ever. */
  lemma SomebodyMoves(b: nat, runs: nat, steps: seq<Step>, item: Item)
    requires b > 0
    ensures var s := Run(b, runs, steps);
      || (s.producer.Finished? && s.consumer.Finished?)
      || Next(b, runs, s, Producer, item) != s || Next(b, runs, s, Consumer, item) != s
  {
    RunKeepsInv(b, runs, steps);
    var s := Run(b, runs, steps);
    match s.lock {
      case Held(t) =>
        assert Holds(PcOf(s, t));
        assert PcOf(Next(b, runs, s, t, item), t) != PcOf(s, t);
      case Free =>
        assert ThreadOk(b, runs, s, Producer) && ThreadOk(b, runs, s, Consumer);
    }
  }

  /** A bound on the moves a thread still has to make, with those that its broadcasts will cause. */
  function Left(runs: nat, s: State, t: Thread): int {
    7 * (runs - Rounds(s, t)) +
    match PcOf(s, t)
    case Acquiring => 2
    case Testing => 1
    case Asleep => 0
    case Woken => 2
    case Working => 0
    case Releasing => 6
    case Notifying => 5
    case Finished => 0
  }

  function AllLeft(runs: nat, s: State): int {
    Left(runs, s, Producer) + Left(runs, s, Consumer)
  }

  /** How many moves of a run have an effect. */
  function Effective(b: nat, runs: nat, steps: seq<Step>): nat
    requires b > 0
  {
    if |steps| == 0 then 0
    else
      var before := steps[..|steps| - 1];
      Effective(b, runs, before) +
      if steps[|steps| - 1].Move? && Run(b, runs, steps) != Run(b, runs, before) then 1 else 0
  }

  function WakeUpsForNoReason(steps: seq<Step>): nat {
    if |steps| == 0 then 0
    else WakeUpsForNoReason(steps[..|steps| - 1]) + if steps[|steps| - 1].WakeForNoReason? then 1 else 0
  }

  lemma MoveIsProgress(b: nat, runs: nat, s: State, t: Thread, item: Item)
    requires Inv(b, runs, s) && Next(b, runs, s, t, item) != s
    ensures AllLeft(runs, Next(b, runs, s, t, item)) < AllLeft(runs, s)
  {
    assert ThreadOk(b, runs, s, t);
  }

  /** Whatever the scheduler does, the moves that have an effect run out: there are at most `14 * runs + 4` of them,
      and two more for each wake-up without a reason. */
  lemma {:induction false} MovesRunOut(b: nat, runs: nat, steps: seq<Step>)
    requires b > 0
    ensures 0 <= AllLeft(runs, Run(b, runs, steps))
    ensures Effective(b, runs, steps) + AllLeft(runs, Run(b, runs, steps))
         <= 14 * runs + 4 + 2 * WakeUpsForNoReason(steps)
  {
    SomethingIsLeft(b, runs, steps);
    if |steps| > 0 {
      var before := steps[..|steps| - 1];
      var s := Run(b, runs, before);
      MovesRunOut(b, runs, before);
      match steps[|steps| - 1] {
        case Move(t, item) =>
          RunKeepsInv(b, runs, before);
          if Next(b, runs, s, t, item) != s {
            MoveIsProgress(b, runs, s, t, item);
          }
        case WakeForNoReason(t) => WakingCostsTwo(runs, s, t);
      }
    }
  }

  lemma SomethingIsLeft(b: nat, runs: nat, steps: seq<Step>)
    requires b > 0
    ensures 0 <= AllLeft(runs, Run(b, runs, steps))
  {
    RunKeepsInv(b, runs, steps);
    assert ThreadOk(b, runs, Run(b, runs, steps), Producer) && ThreadOk(b, runs, Run(b, runs, steps), Consumer);
  }

  lemma WakingCostsTwo(runs: nat, s: State, t: Thread)
    ensures AllLeft(runs, At(s, t, Roused(PcOf(s, t)))) <= AllLeft(runs, s) + 2
  {}

  /** When both are finished, everything produced has been consumed. */
  lemma EverythingArrives(b: nat, runs: nat, steps: seq<Step>)
    requires b > 0 && Run(b, runs, steps).consumer.Finished?
    ensures |Run(b, runs, steps).produced| == runs && Run(b, runs, steps).consumed == Run(b, runs, steps).produced
  {
    RunKeepsInv(b, runs, steps);
  }

  predicate BothFinished(s: State) {
    s.producer.Finished? && s.consumer.Finished?
  }

  lemma NextMove(b: nat, runs: nat, steps: seq<Step>, item: Item) returns (t: Thread)
    requires b > 0 && !BothFinished(Run(b, runs, steps))
    ensures 0 <= AllLeft(runs, Run(b, runs, steps + [Move(t, item)])) < AllLeft(runs, Run(b, runs, steps))
  {
    var s := Run(b, runs, steps);
    SomebodyMoves(b, runs, steps, item);
    t := if Next(b, runs, s, Producer, item) != s then Producer else Consumer;
    RunKeepsInv(b, runs, steps);
    MoveIsProgress(b, runs, s, t, item);
    assert (steps + [Move(t, item)])[..|steps|] == steps;
    MovesRunOut(b, runs, steps + [Move(t, item)]);
  }

  /** From every state of every run both can be brought to the end of their rounds, with nobody waking up for no
      reason; and then everything has arrived. */
  lemma {:induction false} RunsEnd(b: nat, runs: nat, steps: seq<Step>, item: Item) returns (more: seq<Step>)
    requires b > 0
    ensures forall k :: 0 <= k < |more| ==> more[k].Move?
    ensures BothFinished(Run(b, runs, steps + more))
    ensures |Run(b, runs, steps + more).produced| == runs
    ensures Run(b, runs, steps + more).consumed == Run(b, runs, steps + more).produced
    decreases AllLeft(runs, Run(b, runs, steps))
  {
    if BothFinished(Run(b, runs, steps)) {
      more := [];
      assert steps + more == steps;
      EverythingArrives(b, runs, steps);
    } else {
      var t := NextMove(b, runs, steps, item);
      more := RunsEnd(b, runs, steps + [Move(t, item)], item);
      assert steps + [Move(t, item)] + more == steps + ([Move(t, item)] + more);
      more := [Move(t, item)] + more;
    }
  }
}
