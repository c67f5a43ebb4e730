/** The reusable spin barrier of `grading/common.hpp`, for any number of threads and any interleaving of their
    atomic operations. */
module Barrier {
  import Counting

  datatype Mode = Enter | Leave

  /** Where a thread stands in `sync`. A failed spin leaves it where it is. */
  datatype Pc =
    | Outside       // before its next fetch_add
    | Opening       // last to arrive, about to store `leave`
    | AwaitLeave    // spinning
    | Leaving       // about to fetch_sub
    | Closing       // last to leave, about to store `enter`
    | AwaitEnter    // spinning

  /** `entered` and `returned` count each thread's calls of `sync`. */
  datatype State = State(step: int, mode: Mode, pc: seq<Pc>, entered: seq<nat>, returned: seq<nat>)

  function Init(n: nat): State {
    State(0, Enter, seq(n, _ => Outside), seq(n, _ => 0), seq(n, _ => 0))
  }

  predicate Shaped(n: nat, s: State) {
    |s.pc| == |s.entered| == |s.returned| == n
  }

  /** Thread `t` performs its next atomic operation. */
  function Next(n: nat, s: State, t: nat): (s': State)
    requires Shaped(n, s) && t < n
    ensures Shaped(n, s')
  {
    match s.pc[t]
    case Outside =>
      s.(step := s.step + 1, pc := s.pc[t := if s.step + 1 == n then Opening else AwaitLeave],
         entered := s.entered[t := s.entered[t] + 1])
    case Opening => s.(mode := Leave, pc := s.pc[t := Leaving])
    case AwaitLeave => if s.mode == Leave then s.(pc := s.pc[t := Leaving]) else s
    case Leaving => s.(step := s.step - 1, pc := s.pc[t := if s.step - 1 == 0 then Closing else AwaitEnter])
    case Closing => s.(mode := Enter, pc := s.pc[t := Outside], returned := s.returned[t := s.returned[t] + 1])
    case AwaitEnter =>
      if s.mode == Enter then s.(pc := s.pc[t := Outside], returned := s.returned[t := s.returned[t] + 1]) else s
  }

  /** The state after the threads of `schedule` have moved one after the other. */
  function Run(n: nat, schedule: seq<nat>): (s: State)
    requires forall k :: 0 <= k < |schedule| ==> schedule[k] < n
    ensures Shaped(n, s)
  {
    if |schedule| == 0 then Init(n) else Next(n, Run(n, schedule[..|schedule| - 1]), schedule[|schedule| - 1])
  }

  // ---- the invariant

  predicate Counted(p: Pc) {
    p.Opening? || p.AwaitLeave? || p.Leaving?
  }

  /** The threads that the step counter counts. */
  ghost function Inside(s: State): set<nat> {
    set i: nat | 0 <= i < |s.pc| && Counted(s.pc[i])
  }

  /** While threads gather for round `r + 1`: those who have arrived wait, unless all have and one opens. */
  ghost predicate Gathering(n: nat, s: State, r: nat)
    requires Shaped(n, s)
  {
    && s.mode == Enter
    && (forall i :: 0 <= i < n ==> !s.pc[i].Leaving? && !s.pc[i].Closing?)
    && (forall i :: 0 <= i < n ==> s.entered[i] == if Counted(s.pc[i]) then r + 1 else r)
    && (forall i :: 0 <= i < n && s.pc[i].Opening? ==> forall j :: 0 <= j < n && j != i ==> s.pc[j].AwaitLeave?)
    && (s.step == n ==> exists i :: 0 <= i < n && s.pc[i].Opening?)
  }

  /** While they leave round `r + 1`: those who have left wait, unless all have and one closes. */
  ghost predicate Draining(n: nat, s: State, r: nat)
    requires Shaped(n, s)
  {
    && s.mode == Leave
    && (forall i :: 0 <= i < n ==> !s.pc[i].Outside? && !s.pc[i].Opening? && s.entered[i] == r + 1)
    && (forall i :: 0 <= i < n && s.pc[i].Closing? ==> forall j :: 0 <= j < n && j != i ==> s.pc[j].AwaitEnter?)
    && (s.step == 0 ==> exists i :: 0 <= i < n && s.pc[i].Closing?)
  }

  ghost predicate InRound(n: nat, s: State, r: nat)
    requires Shaped(n, s)
  {
    && s.step == |Inside(s)|
    && (forall i :: 0 <= i < n ==> s.entered[i] == if s.pc[i].Outside? then s.returned[i] else s.returned[i] + 1)
    && (Gathering(n, s, r) || Draining(n, s, r))
  }

  lemma EnterKeeps(n: nat, s: State, t: nat, r: nat)
    requires Shaped(n, s) && t < n && InRound(n, s, r) && s.pc[t].Outside?
    ensures InRound(n, Next(n, s, t), r)
  {
    var s' := Next(n, s, t);
    assert t !in Inside(s) && Inside(s') == Inside(s) + {t};
    EnterKeepsGathering(n, s, t, r);
  }

  lemma EnterKeepsGathering(n: nat, s: State, t: nat, r: nat)
    requires Shaped(n, s) && t < n && InRound(n, s, r) && s.pc[t].Outside?
    ensures Gathering(n, Next(n, s, t), r)
  {
    assert Gathering(n, s, r);
    if s.step + 1 == n {
      EveryoneIsInside(n, s, t, r);
    }
  }

  lemma EveryoneIsInside(n: nat, s: State, t: nat, r: nat)
    requires Shaped(n, s) && t < n && InRound(n, s, r) && s.pc[t].Outside? && s.step + 1 == n
    ensures Next(n, s, t).pc[t].Opening?
    ensures forall j :: 0 <= j < n && j != t ==> Next(n, s, t).pc[j].AwaitLeave?
  {
    var s' := Next(n, s, t);
    assert t !in Inside(s) && Inside(s') == Inside(s) + {t};
    Counting.AllOf(Inside(s'), n);
    forall j | 0 <= j < n && j != t ensures s'.pc[j].AwaitLeave? {
      assert j in Inside(s');
    }
  }

  lemma LeaveKeeps(n: nat, s: State, t: nat, r: nat)
    requires Shaped(n, s) && t < n && InRound(n, s, r) && s.pc[t].Leaving?
    ensures InRound(n, Next(n, s, t), r)
  {
    var s' := Next(n, s, t);
    LeaverIsOut(n, s, t, r);
    if s'.step == 0 {
      assert s'.pc[t].Closing?;
      forall j | 0 <= j < n && j != t ensures s'.pc[j].AwaitEnter? {
        assert j !in Inside(s');
      }
    }
  }

  lemma LeaverIsOut(n: nat, s: State, t: nat, r: nat)
    requires Shaped(n, s) && t < n && InRound(n, s, r) && s.pc[t].Leaving?
    ensures var s' := Next(n, s, t); s'.step == |Inside(s')| && (s'.step == 0 ==> Inside(s') == {})
  {
    var s' := Next(n, s, t);
    assert t in Inside(s) && Inside(s') == Inside(s) - {t};
    assert |Inside(s) - {t}| == |Inside(s)| - 1;
  }

  lemma OpenKeeps(n: nat, s: State, t: nat, r: nat)
    requires Shaped(n, s) && t < n && InRound(n, s, r) && s.pc[t].Opening?
    ensures InRound(n, Next(n, s, t), r)
  {
    assert Inside(Next(n, s, t)) == Inside(s) && t in Inside(s);
  }

  lemma CloseKeeps(n: nat, s: State, t: nat, r: nat)
    requires Shaped(n, s) && t < n && InRound(n, s, r) && s.pc[t].Closing?
    ensures InRound(n, Next(n, s, t), r + 1)
  {
    assert Inside(s) == {};
    assert Inside(Next(n, s, t)) == {};
  }

  lemma SpinKeeps(n: nat, s: State, t: nat, r: nat)
    requires Shaped(n, s) && t < n && InRound(n, s, r) && (s.pc[t].AwaitLeave? || s.pc[t].AwaitEnter?)
    ensures InRound(n, Next(n, s, t), r)
  {
    var s' := Next(n, s, t);
    assert Inside(s') == Inside(s);
    if s' != s && s.pc[t].AwaitLeave? {
      assert t in Inside(s);
    }
    if s' != s && s.pc[t].AwaitEnter? {
      assert t !in Inside(s) && s'.pc[t].Outside?;
    }
  }

  lemma {:induction false} RunIsInRound(n: nat, schedule: seq<nat>) returns (r: nat)
    requires n > 0 && forall k :: 0 <= k < |schedule| ==> schedule[k] < n
    ensures InRound(n, Run(n, schedule), r)
  {
    if |schedule| == 0 {
      r := 0;
      assert Inside(Init(n)) == {};
    } else {
      r := RunIsInRound(n, schedule[..|schedule| - 1]);
      var s, t := Run(n, schedule[..|schedule| - 1]), schedule[|schedule| - 1];
      match s.pc[t] {
        case Outside => EnterKeeps(n, s, t, r);
        case Opening => OpenKeeps(n, s, t, r);
        case Leaving => LeaveKeeps(n, s, t, r);
        case Closing => CloseKeeps(n, s, t, r); r := r + 1;
        case _ => SpinKeeps(n, s, t, r);
      }
    }
  }

  // ---- what the barrier promises

  /** Nobody returns from its k-th `sync` before everybody has entered their k-th, in any run; and no two
      threads are more than one round apart. */
  lemma NobodyReturnsEarly(n: nat, schedule: seq<nat>, i: nat, j: nat)
    requires i < n && j < n && forall k :: 0 <= k < |schedule| ==> schedule[k] < n
    ensures Run(n, schedule).returned[i] <= Run(n, schedule).entered[j] <= Run(n, schedule).entered[i] + 1
  {
    var r := RunIsInRound(n, schedule);
  }

  /** A move that has an effect is the next of the four that make up a call of `sync`; a spin has none. */
  function Moves(s: State, t: nat): nat
    requires t < |s.pc| == |s.returned|
  {
    4 * s.returned[t] +
    match s.pc[t]
    case Outside => 0
    case Opening => 1
    case AwaitLeave => 1
    case Leaving => 2
    case Closing => 3
    case AwaitEnter => 3
  }

  /** The moves of the first `m` threads. */
  function Total(s: State, m: nat): nat
    requires m <= |s.pc| == |s.returned|
  {
    if m == 0 then 0 else Total(s, m - 1) + Moves(s, m - 1)
  }

  lemma {:induction false} TotalRises(s: State, s': State, t: nat, m: nat)
    requires t < |s.pc| == |s.returned| == |s'.pc| == |s'.returned| && m <= |s.pc|
    requires Moves(s', t) == Moves(s, t) + 1
    requires forall i :: 0 <= i < |s.pc| && i != t ==> Moves(s', i) == Moves(s, i)
    ensures Total(s', m) == Total(s, m) + if t < m then 1 else 0
  {
    if m > 0 {
      TotalRises(s, s', t, m - 1);
    }
  }

  lemma {:induction false} TotalIsBounded(s: State, most: nat, m: nat)
    requires m <= |s.pc| == |s.returned| && forall i :: 0 <= i < m ==> Moves(s, i) <= most
    ensures Total(s, m) <= m * most
  {
    if m > 0 {
      TotalIsBounded(s, most, m - 1);
      assert (m - 1) * most + most == m * most;
    }
  }

  lemma {:induction false} TotalIsZero(n: nat, m: nat)
    requires m <= n
    ensures Total(Init(n), m) == 0
  {
    if m > 0 {
      TotalIsZero(n, m - 1);
    }
  }

  /** How many moves of a schedule have an effect. */
  function Effective(n: nat, schedule: seq<nat>): nat
    requires forall k :: 0 <= k < |schedule| ==> schedule[k] < n
  {
    if |schedule| == 0 then 0
    else
      var before := schedule[..|schedule| - 1];
      Effective(n, before) + if Run(n, schedule) == Run(n, before) then 0 else 1
  }

  lemma {:induction false} EffectiveIsTotal(n: nat, schedule: seq<nat>)
    requires forall k :: 0 <= k < |schedule| ==> schedule[k] < n
    ensures Effective(n, schedule) == Total(Run(n, schedule), n)
  {
    if |schedule| == 0 {
      TotalIsZero(n, n);
    } else {
      var before, t := schedule[..|schedule| - 1], schedule[|schedule| - 1];
      EffectiveIsTotal(n, before);
      if Run(n, schedule) != Run(n, before) {
        TotalRises(Run(n, before), Run(n, schedule), t, n);
      }
    }
  }

  lemma GatherersMove(n: nat, s: State, r: nat)
    requires n > 0 && Shaped(n, s) && InRound(n, s, r) && Gathering(n, s, r)
    ensures exists t :: 0 <= t < n && Next(n, s, t) != s
  {
    if t: nat :| t < n && t !in Inside(s) {
      assert Next(n, s, t).pc[t] != s.pc[t];
    } else {
      Counting.SizeOfAll(Inside(s), n);
      var t :| 0 <= t < n && s.pc[t].Opening?;
      assert Next(n, s, t).pc[t] != s.pc[t];
    }
  }

  lemma LeaversMove(n: nat, s: State, r: nat)
    requires n > 0 && Shaped(n, s) && InRound(n, s, r) && Draining(n, s, r)
    ensures exists t :: 0 <= t < n && Next(n, s, t) != s
  {
    if t :| t in Inside(s) {
      assert Next(n, s, t).pc[t] != s.pc[t];
    } else {
      assert Inside(s) == {};
      var t :| 0 <= t < n && s.pc[t].Closing?;
      assert Next(n, s, t).pc[t] != s.pc[t];
    }
  }

  /** No run ends in a deadlock: some thread's next operation has an effect. */
  lemma SomebodyMoves(n: nat, schedule: seq<nat>)
    requires n > 0 && forall k :: 0 <= k < |schedule| ==> schedule[k] < n
    ensures exists t :: 0 <= t < n && Next(n, Run(n, schedule), t) != Run(n, schedule)
  {
    var r := RunIsInRound(n, schedule);
    if Gathering(n, Run(n, schedule), r) {
      GatherersMove(n, Run(n, schedule), r);
    } else {
      LeaversMove(n, Run(n, schedule), r);
    }
  }

  /** Nobody spins in vain: a thread waits only for one that has not come as far, or is about to change the mode. */
  lemma WaitsAreNeeded(n: nat, schedule: seq<nat>, t: nat)
    requires t < n && forall i :: 0 <= i < |schedule| ==> schedule[i] < n
    requires Next(n, Run(n, schedule), t) == Run(n, schedule)
    ensures var s := Run(n, schedule);
      exists j :: 0 <= j < n && (Moves(s, j) < Moves(s, t) || s.pc[j].Opening? || s.pc[j].Closing?)
  {
    var r := RunIsInRound(n, schedule);
    var s := Run(n, schedule);
    assert s.pc[t] != Next(n, s, t).pc[t] || s.pc[t].AwaitLeave? || s.pc[t].AwaitEnter?;
    if Gathering(n, s, r) {
      if j: nat :| j < n && j !in Inside(s) {
        assert Moves(s, j) < Moves(s, t);
      } else {
        Counting.SizeOfAll(Inside(s), n);
      }
    } else if j :| j in Inside(s) {
      assert Moves(s, j) < Moves(s, t);
    }
  }

  lemma LaggardHoldsAll(n: nat, schedule: seq<nat>, k: nat, t: nat)
    requires t < n && forall i :: 0 <= i < |schedule| ==> schedule[i] < n
    requires Run(n, schedule).returned[t] < k
    ensures forall i :: 0 <= i < n ==> Moves(Run(n, schedule), i) <= 4 * k + 3
  {
    var r := RunIsInRound(n, schedule);
    forall i | 0 <= i < n ensures Moves(Run(n, schedule), i) <= 4 * k + 3 {
      NobodyReturnsEarly(n, schedule, i, t);
    }
  }

  /** Whatever the scheduler does: once more than `n * (4 * k + 3)` moves have had an effect, every thread has
      returned from its k-th `sync`. */
  lemma EverybodyReturns(n: nat, schedule: seq<nat>, k: nat, t: nat)
    requires t < n && forall i :: 0 <= i < |schedule| ==> schedule[i] < n
    requires Effective(n, schedule) > n * (4 * k + 3)
    ensures Run(n, schedule).returned[t] >= k
  {
    var s, most := Run(n, schedule), 4 * k + 3;
    EffectiveIsTotal(n, schedule);
    if s.returned[t] < k {
      LaggardHoldsAll(n, schedule, k, t);
      TotalIsBounded(s, most, n);
    }
  }

  /** From every state of every run the barrier can be driven through any number of further rounds. */
  lemma {:induction false} RoundsGoOn(n: nat, schedule: seq<nat>, k: nat) returns (more: seq<nat>)
    requires n > 0 && forall i :: 0 <= i < |schedule| ==> schedule[i] < n
    ensures forall i :: 0 <= i < |more| ==> more[i] < n
    ensures forall t :: 0 <= t < n ==> Run(n, schedule + more).returned[t] >= k
    decreases n * (4 * k + 3) + 1 - Effective(n, schedule)
  {
    if Effective(n, schedule) > n * (4 * k + 3) {
      more := [];
      assert schedule + more == schedule;
      forall t | 0 <= t < n ensures Run(n, schedule).returned[t] >= k {
        EverybodyReturns(n, schedule, k, t);
      }
    } else {
      SomebodyMoves(n, schedule);
      var t: nat :| t < n && Next(n, Run(n, schedule), t) != Run(n, schedule);
      assert (schedule + [t])[..|schedule|] == schedule;
      more := RoundsGoOn(n, schedule + [t], k);
      assert schedule + [t] + more == schedule + ([t] + more);
      more := [t] + more;
    }
  }
}
