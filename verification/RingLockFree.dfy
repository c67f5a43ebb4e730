/** The lock-free single-producer single-consumer ring of `sync-examples/procon3.c`, for any buffer size, run
    length and item size. Items are copied one element at a time, so that a torn item would show. */
module RingLockFree {
  import opened RingSlots

  type Elem = int
  type Item = seq<Elem>

  /** `BUFFER_SIZE`, `RUNS` and `DATA_TEXT_SIZE`. */
  datatype Sizes = Sizes(buffer: nat, runs: nat, item: nat)

  datatype ProducerPc =
    | AwaitSpace            // about to load `consumed_until`
    | Filling(k: nat)       // copying the new item into its slot, `k` elements done
    | Produced              // about to increment `produced_until`

  datatype ConsumerPc =
    | AwaitItem             // about to load `produced_until`
    | Emptying(k: nat)      // copying the item out of its slot, `k` elements done
    | Consumed              // about to increment `consumed_until`

  /** `r` is the producer's round and `q` the consumer's; `produced` and `consumed` are the arrays kept to check
      correctness, `consumed` with the item being copied at its end. */
  datatype State = State(producedUntil: int, consumedUntil: int, buffer: seq<Item>, producer: ProducerPc,
                         consumer: ConsumerPc, r: nat, q: nat, produced: seq<Item>, consumed: seq<Item>)

  /** A producer step that passes the guard brings the next item along. */
  datatype Step = Produce(item: Item) | Consume

  function Init(z: Sizes): State {
    State(0, 0, seq(z.buffer, _ => seq(z.item, _ => 0)), AwaitSpace, AwaitItem, 0, 0, [], [])
  }

  predicate Shaped(z: Sizes, s: State) {
    && |s.buffer| == z.buffer > 0 && (forall i :: 0 <= i < z.buffer ==> |s.buffer[i]| == z.item)
    && |s.produced| == s.r + (if s.producer.AwaitSpace? then 0 else 1)
    && |s.consumed| == s.q + (if s.consumer.AwaitItem? then 0 else 1)
    && (forall i :: 0 <= i < |s.produced| ==> |s.produced[i]| == z.item)
    && (s.producer.Filling? ==> s.producer.k < z.item)
    && (s.consumer.Emptying? ==> s.consumer.k < z.item && |s.consumed[s.q]| == s.consumer.k)
  }

  function NextProducer(z: Sizes, s: State, item: Item): (s': State)
    requires Shaped(z, s) && |item| == z.item
    ensures Shaped(z, s')
  {
    if s.r >= z.runs then s
    else
      match s.producer
      case AwaitSpace =>
        if s.consumedUntil + z.buffer > s.r then
          s.(producer := if z.item == 0 then Produced else Filling(0), produced := s.produced + [item])
        else s
      case Filling(k) =>
        var slot := Slot(z.buffer, s.r);
        s.(buffer := s.buffer[slot := s.buffer[slot][k := s.produced[s.r][k]]],
           producer := if k + 1 == z.item then Produced else Filling(k + 1))
      case Produced => s.(producedUntil := s.producedUntil + 1, producer := AwaitSpace, r := s.r + 1)
  }

  function NextConsumer(z: Sizes, s: State): (s': State)
    requires Shaped(z, s)
    ensures Shaped(z, s')
  {
    if s.q >= z.runs then s
    else
      match s.consumer
      case AwaitItem =>
        if s.producedUntil > s.q then
          s.(consumer := if z.item == 0 then Consumed else Emptying(0), consumed := s.consumed + [[]])
        else s
      case Emptying(k) =>
        s.(consumed := s.consumed[s.q := s.consumed[s.q] + [s.buffer[Slot(z.buffer, s.q)][k]]],
           consumer := if k + 1 == z.item then Consumed else Emptying(k + 1))
      case Consumed => s.(consumedUntil := s.consumedUntil + 1, consumer := AwaitItem, q := s.q + 1)
  }

  /** The state after the given steps; items of the wrong size are not produced. */
  function Run(z: Sizes, steps: seq<Step>): (s: State)
    requires z.buffer > 0
    ensures Shaped(z, s)
  {
    if |steps| == 0 then Init(z)
    else
      var s := Run(z, steps[..|steps| - 1]);
      match steps[|steps| - 1]
      case Produce(item) => if |item| == z.item then NextProducer(z, s, item) else s
      case Consume => NextConsumer(z, s)
  }

  // ---- the invariant

  /** Counters and rounds agree, and the guards have been passed. */
  ghost predicate CountersOk(z: Sizes, s: State) {
    && s.producedUntil == s.r && s.consumedUntil == s.q && s.r <= z.runs && s.q <= z.runs
    && s.q <= s.r <= s.q + z.buffer
    && (!s.producer.AwaitSpace? ==> s.r < s.q + z.buffer && s.r < z.runs)
    && (!s.consumer.AwaitItem? ==> s.q < s.r)
  }

  /** The slots of items produced and not yet consumed hold these items; the slot being filled holds the first
      elements of its item. */
  ghost predicate BufferOk(z: Sizes, s: State)
    requires Shaped(z, s) && CountersOk(z, s)
  {
    && (forall i :: s.q <= i < s.r ==> s.buffer[Slot(z.buffer, i)] == s.produced[i])
    && (s.producer.Filling? ==>
          forall k :: 0 <= k < s.producer.k ==> s.buffer[Slot(z.buffer, s.r)][k] == s.produced[s.r][k])
    && (s.producer.Produced? ==> s.buffer[Slot(z.buffer, s.r)] == s.produced[s.r])
  }

  ghost predicate ConsumedOk(z: Sizes, s: State)
    requires Shaped(z, s) && CountersOk(z, s)
  {
    && (forall i :: 0 <= i < s.q ==> s.consumed[i] == s.produced[i])
    && (s.consumer.Emptying? ==> s.consumed[s.q] == s.produced[s.q][..s.consumer.k])
    && (s.consumer.Consumed? ==> s.consumed[s.q] == s.produced[s.q])
  }

  ghost predicate Inv(z: Sizes, s: State) {
    Shaped(z, s) && CountersOk(z, s) && BufferOk(z, s) && ConsumedOk(z, s)
  }

  lemma FillKeeps(z: Sizes, s: State, item: Item)
    requires Inv(z, s) && |item| == z.item && s.producer.Filling?
    ensures Inv(z, NextProducer(z, s, item))
  {
    var s' := NextProducer(z, s, item);
    forall i | s.q <= i < s.r ensures s'.buffer[Slot(z.buffer, i)] == s'.produced[i] {
      SlotsDiffer(z.buffer, i, s.r);
    }
    if s'.producer.Produced? {
      assert s'.buffer[Slot(z.buffer, s.r)] == s'.produced[s.r];
    }
  }

  lemma ProducerKeeps(z: Sizes, s: State, item: Item)
    requires Inv(z, s) && |item| == z.item
    ensures Inv(z, NextProducer(z, s, item))
  {
    if s.producer.Filling? {
      FillKeeps(z, s, item);
    } else {
      var s' := NextProducer(z, s, item);
      if s.producer.AwaitSpace? && s' != s && z.item == 0 {
        assert s'.buffer[Slot(z.buffer, s.r)] == s'.produced[s.r];
      }
    }
  }

  lemma ConsumerKeeps(z: Sizes, s: State)
    requires Inv(z, s)
    ensures Inv(z, NextConsumer(z, s))
  {
    if s.consumer.Emptying? {
      var k := s.consumer.k;
      assert s.buffer[Slot(z.buffer, s.q)] == s.produced[s.q];
      assert s.produced[s.q][..k + 1] == s.produced[s.q][..k] + [s.produced[s.q][k]];
      assert k + 1 == z.item ==> s.produced[s.q][..k + 1] == s.produced[s.q];
    }
  }

  lemma {:induction false} RunKeepsInv(z: Sizes, steps: seq<Step>)
    requires z.buffer > 0
    ensures Inv(z, Run(z, steps))
  {
    if |steps| > 0 {
      RunKeepsInv(z, steps[..|steps| - 1]);
      var s := Run(z, steps[..|steps| - 1]);
      match steps[|steps| - 1] {
        case Produce(item) => if |item| == z.item { ProducerKeeps(z, s, item); }
        case Consume => ConsumerKeeps(z, s);
      }
    }
  }

  // ---- what the ring promises

  /** In any run the difference of the counters is at most the buffer size, and the consumed items are the
      produced ones, in order. */
  lemma RingIsFifo(z: Sizes, steps: seq<Step>, i: nat)
    requires z.buffer > 0
    ensures var s := Run(z, steps);
      && 0 <= s.producedUntil - s.consumedUntil <= z.buffer
      && (i < s.q ==> i < |s.produced| && i < |s.consumed| && s.consumed[i] == s.produced[i])
  {
    RunKeepsInv(z, steps);
  }

  /** Producer and consumer never touch the same slot at once. */
  lemma SlotsAreExclusive(z: Sizes, steps: seq<Step>)
    requires z.buffer > 0 && Run(z, steps).producer.Filling? && Run(z, steps).consumer.Emptying?
    ensures Slot(z.buffer, Run(z, steps).r) != Slot(z.buffer, Run(z, steps).q)
  {
    RunKeepsInv(z, steps);
    var s := Run(z, steps);
    SlotsDiffer(z.buffer, s.q, s.r);
  }

  /** What a round does: the producer brings its item along, the consumer ends with the oldest one left. */
  lemma RoundsAreDone(z: Sizes, steps: seq<Step>, item: Item)
    requires z.buffer > 0 && |item| == z.item
    ensures var s := Run(z, steps); var p := NextProducer(z, s, item); var c := NextConsumer(z, s);
      && (|p.produced| > |s.produced| ==> p.produced == s.produced + [item])
      && (p.r > s.r ==> p.r == s.r + 1 == |p.produced| == p.producedUntil)
      && (c.q > s.q ==> c.q == s.q + 1 == |c.consumed| == c.consumedUntil)
      && (c.q > s.q ==> s.q < s.r && c.consumed[s.q] == s.produced[s.q])
  {
    RunKeepsInv(z, steps);
  }

  /** Nobody spins in vain: with rounds left the producer waits exactly while the buffer is full, the consumer exactly
      while it is empty. */
  lemma WaitsAreNeeded(z: Sizes, steps: seq<Step>, item: Item)
    requires z.buffer > 0 && |item| == z.item
    ensures var s := Run(z, steps);
      && (s.r < z.runs ==> (NextProducer(z, s, item) == s <==> s.producer.AwaitSpace? && s.r - s.q == z.buffer))
      && (s.q < z.runs ==> (NextConsumer(z, s) == s <==> s.consumer.AwaitItem? && s.r == s.q))
  {
    RunKeepsInv(z, steps);
    var s := Run(z, steps);
    assert s.r < z.runs && !s.producer.AwaitSpace? ==> NextProducer(z, s, item).producer != s.producer;
    assert s.q < z.runs && !s.consumer.AwaitItem? ==> NextConsumer(z, s).consumer != s.consumer;
  }

  // ---- progress

  /** Until both are through, one of the two can make progress: they never both spin for ever. */
  lemma SomebodyMoves(z: Sizes, steps: seq<Step>, item: Item)
    requires z.buffer > 0 && |item| == z.item
    ensures var s := Run(z, steps);
      (s.r == z.runs && s.q == z.runs) || NextProducer(z, s, item) != s || NextConsumer(z, s) != s
  {
    RunKeepsInv(z, steps);
    var s := Run(z, steps);
    assert s.r < z.runs && !s.producer.AwaitSpace? ==> NextProducer(z, s, item).producer != s.producer;
    assert s.q < z.runs && !s.consumer.AwaitItem? ==> NextConsumer(z, s).consumer != s.consumer;
  }

  /** The steps of one round that have an effect: passing the guard, copying each element, counting. */
  function RoundLength(z: Sizes): nat {
    z.item + 2
  }

  function ProducersProgress(z: Sizes, s: State): nat {
    s.r * RoundLength(z) +
    match s.producer
    case AwaitSpace => 0
    case Filling(k) => k + 1
    case Produced => z.item + 1
  }

  function ConsumersProgress(z: Sizes, s: State): nat {
    s.q * RoundLength(z) +
    match s.consumer
    case AwaitItem => 0
    case Emptying(k) => k + 1
    case Consumed => z.item + 1
  }

  /** How many steps of a run have an effect. */
  function Effective(z: Sizes, steps: seq<Step>): nat
    requires z.buffer > 0
  {
    if |steps| == 0 then 0
    else
      var before := steps[..|steps| - 1];
      Effective(z, before) + if Run(z, steps) == Run(z, before) then 0 else 1
  }

  lemma ProducerAdvances(z: Sizes, s: State, item: Item)
    requires Shaped(z, s) && |item| == z.item && NextProducer(z, s, item) != s
    ensures ProducersProgress(z, NextProducer(z, s, item)) == ProducersProgress(z, s) + 1
    ensures ConsumersProgress(z, NextProducer(z, s, item)) == ConsumersProgress(z, s)
  {
    assert (s.r + 1) * RoundLength(z) == s.r * RoundLength(z) + RoundLength(z);
  }

  lemma ConsumerAdvances(z: Sizes, s: State)
    requires Shaped(z, s) && NextConsumer(z, s) != s
    ensures ConsumersProgress(z, NextConsumer(z, s)) == ConsumersProgress(z, s) + 1
    ensures ProducersProgress(z, NextConsumer(z, s)) == ProducersProgress(z, s)
  {
    assert (s.q + 1) * RoundLength(z) == s.q * RoundLength(z) + RoundLength(z);
  }

  lemma {:induction false} EffectiveIsProgress(z: Sizes, steps: seq<Step>)
    requires z.buffer > 0
    ensures Effective(z, steps) == ProducersProgress(z, Run(z, steps)) + ConsumersProgress(z, Run(z, steps))
  {
    if |steps| > 0 {
      EffectiveIsProgress(z, steps[..|steps| - 1]);
      var s := Run(z, steps[..|steps| - 1]);
      if Run(z, steps) != s {
        match steps[|steps| - 1] {
          case Produce(item) => ProducerAdvances(z, s, item);
          case Consume => ConsumerAdvances(z, s);
        }
      }
    }
  }

  lemma ProgressIsBounded(z: Sizes, s: State)
    requires Inv(z, s)
    ensures ProducersProgress(z, s) <= z.runs * RoundLength(z) && ConsumersProgress(z, s) <= z.runs * RoundLength(z)
    ensures ProducersProgress(z, s) == z.runs * RoundLength(z) <==> s.r == z.runs
    ensures ConsumersProgress(z, s) == z.runs * RoundLength(z) <==> s.q == z.runs
  {
    RoundsFit(s.r, z.runs, RoundLength(z));
    RoundsFit(s.q, z.runs, RoundLength(z));
  }

  lemma {:induction false} RoundsFit(r: nat, runs: nat, length: nat)
    requires r <= runs
    ensures r < runs ==> r * length + length <= runs * length
  {
    if r < runs {
      RoundsFit(r, runs - 1, length);
      assert runs * length == (runs - 1) * length + length;
    }
  }

  /** Whatever the scheduler does, at most `2 * runs * RoundLength` steps have an effect; both are through exactly
      when that many had one. */
  lemma StepsRunOut(z: Sizes, steps: seq<Step>)
    requires z.buffer > 0
    ensures Effective(z, steps) <= 2 * (z.runs * RoundLength(z))
    ensures Run(z, steps).r == Run(z, steps).q == z.runs <==> Effective(z, steps) == 2 * (z.runs * RoundLength(z))
  {
    var s := Run(z, steps);
    RunKeepsInv(z, steps);
    EffectiveIsProgress(z, steps);
    var p, c := ProducersProgress(z, s), ConsumersProgress(z, s);
    var most := z.runs * RoundLength(z);
    assert p <= most && c <= most && (p == most <==> s.r == z.runs) && (c == most <==> s.q == z.runs) by {
      ProgressIsBounded(z, s);
    }
  }

  /** When both are through, everything produced has been consumed. */
  lemma EverythingArrives(z: Sizes, steps: seq<Step>)
    requires z.buffer > 0 && Run(z, steps).q == z.runs
    ensures |Run(z, steps).produced| == z.runs && Run(z, steps).consumed == Run(z, steps).produced
  {
    RunKeepsInv(z, steps);
  }

  predicate BothThrough(z: Sizes, s: State) {
    s.r == z.runs && s.q == z.runs
  }

  lemma NextStep(z: Sizes, steps: seq<Step>, item: Item) returns (step: Step)
    requires z.buffer > 0 && |item| == z.item && !BothThrough(z, Run(z, steps))
    ensures Effective(z, steps) < Effective(z, steps + [step]) <= 2 * (z.runs * RoundLength(z))
  {
    SomebodyMoves(z, steps, item);
    step := if NextProducer(z, Run(z, steps), item) != Run(z, steps) then Produce(item) else Consume;
    assert (steps + [step])[..|steps|] == steps;
    StepsRunOut(z, steps + [step]);
  }

  /** From every state of every run both can be brought through all their rounds; and then everything has arrived. */
  lemma {:induction false} RunsEnd(z: Sizes, steps: seq<Step>, item: Item) returns (more: seq<Step>)
    requires z.buffer > 0 && |item| == z.item
    ensures BothThrough(z, Run(z, steps + more)) && |Run(z, steps + more).produced| == z.runs
    ensures Run(z, steps + more).consumed == Run(z, steps + more).produced
    decreases 2 * (z.runs * RoundLength(z)) - Effective(z, steps)
  {
    if BothThrough(z, Run(z, steps)) {
      more := [];
      assert steps + more == steps;
      EverythingArrives(z, steps);
    } else {
      var step := NextStep(z, steps, item);
      more := RunsEnd(z, steps + [step], item);
      assert steps + [step] + more == steps + ([step] + more);
      more := [step] + more;
    }
  }
}
