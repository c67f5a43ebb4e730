/** The slots of a ring buffer of `b` items. */
module RingSlots {

  function Slot(b: nat, round: nat): (i: nat)
    requires b > 0
    ensures i < b
  {
    round % b
  }

  /** Rounds closer than the buffer size use different slots. */
  lemma SlotsDiffer(b: nat, i: nat, j: nat)
    requires b > 0 && i < j < i + b
    ensures Slot(b, i) != Slot(b, j)
  {
    var d := j / b - i / b;
    assert j - i == d * b + j % b - i % b;
    assert d >= 1 ==> d * b >= b;
    assert d <= 0 ==> d * b <= 0;
  }
}
