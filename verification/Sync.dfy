/** Class `Sync` of `grading/grading.cpp` with the `Latch` of `grading/common.hpp`: one master starts rounds and
    waits for them, any number of workers run them. Each step is one atomic operation; a failed spin leaves a
    thread where it is. */
module Sync {
  import Counting

  type Msg = int

  datatype Option<T> = None | Some(value: T)

  datatype Status = Wait | Run | Abort | Done | Fail | Quit

  datatype WorkerPc =
    | Polling                   // worker_wait: until there is a round
    | Arriving                  // saw `Wait`, about to fetch_add
    | Resetting                 // last to arrive: about to reset the counter
    | Opening                   // and to store `Run`
    | AwaitRun                  // not last: spinning
    | Working                   // between worker_wait and worker_notify
    | Reporting(error: Msg)     // worker_notify: about to store the message
    | Aborting                  // and `Abort`
    | Notifying                 // about to fetch_add
    | Clearing                  // last to notify: about to reset the counter
    | Closing                   // to load the status
    | Storing(aborted: bool)    // to store `Fail` or `Done`
    | Raising                   // and to raise the latch
    | Gone                      // told to quit

  datatype MasterPc =
    | Ready     // may start a round, or join
    | Waiting   // for the latch
    | Loading   // woke up, about to load the status
    | Reading   // about to load the message
    | Joined

  datatype Result = Success | Failure(errmsg: Option<Msg>) | Unreachable

  /** From `rounds` on the fields only record what happened: rounds started; messages reported in the current
      one; its result; and how often each worker has arrived for a round, started it and notified its end. */
  datatype State = State(nbready: int, status: Status, errmsg: Option<Msg>, raised: bool, master: MasterPc,
                         pc: seq<WorkerPc>, rounds: nat, reported: set<Msg>, result: Option<Result>,
                         arrivals: seq<nat>, starts: seq<nat>, notifies: seq<nat>)

  datatype Step =
    | Notify | Join                             // the master's choice when it is ready
    | Wake | LoadStatus | LoadMessage           // master_wait
    | Worker(i: nat, error: Option<Msg>)        // `error` matters when worker `i` ends its work

  function Init(n: nat): State {
    State(0, Done, None, false, Ready, seq(n, _ => Polling), 0, {}, None, seq(n, _ => 0), seq(n, _ => 0),
          seq(n, _ => 0))
  }

  predicate Shaped(n: nat, s: State) {
    |s.pc| == |s.arrivals| == |s.starts| == |s.notifies| == n
  }

  predicate Enabled(n: nat, s: State, step: Step) {
    && Shaped(n, s)
    && match step
       case Notify => s.master.Ready?
       case Join => s.master.Ready?
       case Wake => s.master.Waiting? && s.raised
       case LoadStatus => s.master.Loading?
       case LoadMessage => s.master.Reading?
       case Worker(i, _) => i < n
  }

  function Increment(counts: seq<nat>, i: nat): seq<nat>
    requires i < |counts|
  {
    counts[i := counts[i] + 1]
  }

  /** The next atomic operation of worker `i`. */
  function NextWorker(n: nat, s: State, i: nat, error: Option<Msg>): State
    requires Shaped(n, s) && i < n
  {
    match s.pc[i]
    case Polling =>
      if s.status == Wait then s.(pc := s.pc[i := Arriving])
      else if s.status == Quit then s.(pc := s.pc[i := Gone])
      else s
    case Arriving =>
      s.(nbready := s.nbready + 1, arrivals := Increment(s.arrivals, i),
         pc := s.pc[i := if s.nbready + 1 == n then Resetting else AwaitRun])
    case Resetting => s.(nbready := 0, pc := s.pc[i := Opening])
    case Opening => s.(status := Run, starts := Increment(s.starts, i), pc := s.pc[i := Working])
    case AwaitRun =>
      if s.status == Run || s.status == Abort then s.(starts := Increment(s.starts, i), pc := s.pc[i := Working]) else s
    case Working => s.(pc := s.pc[i := if error.Some? then Reporting(error.value) else Notifying])
    case Reporting(e) => s.(errmsg := Some(e), reported := s.reported + {e}, pc := s.pc[i := Aborting])
    case Aborting => s.(status := Abort, pc := s.pc[i := Notifying])
    case Notifying =>
      s.(nbready := s.nbready + 1, notifies := Increment(s.notifies, i),
         pc := s.pc[i := if s.nbready + 1 == n then Clearing else Polling])
    case Clearing => s.(nbready := 0, pc := s.pc[i := Closing])
    case Closing => s.(pc := s.pc[i := Storing(s.status == Abort)])
    case Storing(aborted) => s.(status := if aborted then Fail else Done, pc := s.pc[i := Raising])
    case Raising => s.(raised := true, pc := s.pc[i := Polling])
    case Gone => s
  }

  function Next(n: nat, s: State, step: Step): State
    requires Enabled(n, s, step)
  {
    match step
    case Notify => s.(status := Wait, master := Waiting, rounds := s.rounds + 1, reported := {})
    case Join => s.(status := Quit, master := Joined)
    case Wake => s.(raised := false, master := Loading)
    case LoadStatus =>
      if s.status == Done then s.(master := Ready, result := Some(Success))
      else if s.status == Fail then s.(master := Reading)
      else s.(master := Ready, result := Some(Result.Unreachable))
    case LoadMessage => s.(master := Ready, result := Some(Failure(s.errmsg)))
    case Worker(i, error) => NextWorker(n, s, i, error)
  }

  /** The state after the given steps, from the start; a step that is not enabled does nothing. */
  function After(n: nat, steps: seq<Step>): State {
    if |steps| == 0 then Init(n)
    else
      var s := After(n, steps[..|steps| - 1]);
      if Enabled(n, s, steps[|steps| - 1]) then Next(n, s, steps[|steps| - 1]) else s
  }

  // ---- the invariant

  ghost function Arrived(s: State): set<nat> {
    set i: nat | 0 <= i < |s.pc| && (s.pc[i].AwaitRun? || s.pc[i].Resetting?)
  }

  ghost function Finished(s: State): set<nat> {
    set i: nat | 0 <= i < |s.pc| && (s.pc[i].Polling? || s.pc[i].Clearing?)
  }

  ghost predicate HasOpener(s: State) {
    exists i :: 0 <= i < |s.pc| && s.pc[i].Opening?
  }

  predicate LastToNotify(p: WorkerPc) {
    p.Closing? || p.Storing?
  }

  ghost predicate HasCloser(s: State) {
    exists i :: 0 <= i < |s.pc| && LastToNotify(s.pc[i])
  }

  ghost predicate HasAborter(s: State) {
    exists i :: 0 <= i < |s.pc| && s.pc[i].Aborting?
  }

  /** Between rounds: all workers are through with round `rounds`; one may still have to raise the latch. */
  ghost predicate Resting(n: nat, s: State)
    requires Shaped(n, s)
  {
    && (s.status == Done || s.status == Fail || s.status == Quit) && s.nbready == 0
    && (forall i :: 0 <= i < n ==> s.pc[i].Polling? || s.pc[i].Raising? || (s.pc[i].Gone? && s.status == Quit))
    && (forall i :: 0 <= i < n ==> s.arrivals[i] == s.starts[i] == s.notifies[i] == s.rounds)
    && (forall i, j :: 0 <= i < n && 0 <= j < n && s.pc[i].Raising? && s.pc[j].Raising? ==> i == j)
    && (forall i :: 0 <= i < n && s.pc[i].Raising? ==> s.master.Waiting? && !s.raised)
    && (s.raised ==> s.master.Waiting?)
    && (s.master.Waiting? && !s.raised ==> exists i :: 0 <= i < n && s.pc[i].Raising?)
    && (s.status == Quit <==> s.master.Joined?)
    && (s.status == Done ==> s.reported == {})
    && (s.status == Fail ==> s.errmsg.Some? && s.errmsg.value in s.reported)
    && (s.master.Reading? ==> s.status == Fail)
  }

  /** A round has been started, and not everybody has arrived and noticed. */
  ghost predicate Gathering(n: nat, s: State)
    requires Shaped(n, s)
  {
    && s.status == Wait && s.master.Waiting? && !s.raised && s.rounds > 0 && s.reported == {}
    && (forall i :: 0 <= i < n ==>
          s.pc[i].Polling? || s.pc[i].Arriving? || s.pc[i].AwaitRun? || s.pc[i].Resetting? || s.pc[i].Opening?)
    && (forall i :: 0 <= i < n ==> s.notifies[i] == s.starts[i] == s.rounds - 1)
    && (forall i :: 0 <= i < n ==>
          s.arrivals[i] == if s.pc[i].Polling? || s.pc[i].Arriving? then s.rounds - 1 else s.rounds)
    && (forall i, j :: 0 <= i < n && 0 <= j < n && i != j && (s.pc[i].Resetting? || s.pc[i].Opening?) ==>
          s.pc[j].AwaitRun?)
    && (if HasOpener(s) then s.nbready == 0
        else s.nbready == |Arrived(s)| && (s.nbready == n ==> exists i :: 0 <= i < n && s.pc[i].Resetting?))
  }

  predicate HasNotified(p: WorkerPc) {
    p.Polling? || p.Clearing? || LastToNotify(p)
  }

  /** Everybody has arrived; workers start, work and notify. */
  ghost predicate Running(n: nat, s: State)
    requires Shaped(n, s)
  {
    && (s.status == Run || s.status == Abort) && s.master.Waiting? && !s.raised && s.rounds > 0
    && (forall i :: 0 <= i < n ==>
          !s.pc[i].Arriving? && !s.pc[i].Resetting? && !s.pc[i].Opening? && !s.pc[i].Raising? && !s.pc[i].Gone?)
    && (forall i :: 0 <= i < n ==> s.arrivals[i] == s.rounds)
    && (forall i :: 0 <= i < n ==> s.starts[i] == if s.pc[i].AwaitRun? then s.rounds - 1 else s.rounds)
    && (forall i :: 0 <= i < n ==> s.notifies[i] == if HasNotified(s.pc[i]) then s.rounds else s.rounds - 1)
    && (forall i, j :: 0 <= i < n && 0 <= j < n && i != j && (s.pc[i].Clearing? || LastToNotify(s.pc[i])) ==>
          s.pc[j].Polling?)
    && (if HasCloser(s) then s.nbready == 0
        else s.nbready == |Finished(s)| && (s.nbready == n ==> exists i :: 0 <= i < n && s.pc[i].Clearing?))
    && (s.reported != {} <==> s.status == Abort || HasAborter(s))
    && (s.reported != {} ==> s.errmsg.Some? && s.errmsg.value in s.reported)
    && (forall i :: 0 <= i < n && s.pc[i].Storing? ==> s.pc[i].aborted == (s.status == Abort))
  }

  /** The result the master returned last is that of the round that ended last. */
  ghost predicate ResultOk(s: State) {
    (s.master.Ready? || s.master.Joined?) && s.rounds > 0 ==>
      s.result.Some? &&
      match s.result.value
      case Success => s.reported == {}
      case Failure(m) => m.Some? && m.value in s.reported
      case Unreachable => false
  }

  ghost predicate Inv(n: nat, s: State) {
    Shaped(n, s) && (Resting(n, s) || Gathering(n, s) || Running(n, s)) && ResultOk(s)
  }

  // ---- every step keeps it

  lemma MasterKeeps(n: nat, s: State, step: Step)
    requires n > 0 && Inv(n, s) && Enabled(n, s, step) && !step.Worker?
    ensures Inv(n, Next(n, s, step))
  {
    assert Resting(n, s);
    if step.Notify? {
      assert Arrived(Next(n, s, step)) == {};
      assert Gathering(n, Next(n, s, step));
    }
  }

  lemma PollKeeps(n: nat, s: State, i: nat, error: Option<Msg>)
    requires Inv(n, s) && i < n && s.pc[i].Polling?
    ensures Inv(n, NextWorker(n, s, i, error))
  {
    var s' := NextWorker(n, s, i, error);
    if s.status == Wait {
      assert Arrived(s') == Arrived(s);
      assert Gathering(n, s');
    } else if s.status == Quit {
      assert Resting(n, s');
    }
  }

  lemma ArriveKeeps(n: nat, s: State, i: nat, error: Option<Msg>)
    requires Shaped(n, s) && Gathering(n, s) && i < n && s.pc[i].Arriving?
    ensures Gathering(n, NextWorker(n, s, i, error))
  {
    var s' := NextWorker(n, s, i, error);
    assert i !in Arrived(s) && Arrived(s') == Arrived(s) + {i};
    if s'.nbready == n {
      Counting.AllOf(Arrived(s'), n);
      forall j | 0 <= j < n && j != i ensures s'.pc[j].AwaitRun? {
        assert j in Arrived(s');
      }
    }
  }

  lemma ResetKeeps(n: nat, s: State, i: nat, error: Option<Msg>)
    requires Shaped(n, s) && Gathering(n, s) && i < n && s.pc[i].Resetting?
    ensures Gathering(n, NextWorker(n, s, i, error))
  {
    assert NextWorker(n, s, i, error).pc[i].Opening?;
  }

  lemma OpenKeeps(n: nat, s: State, i: nat, error: Option<Msg>)
    requires Shaped(n, s) && Gathering(n, s) && i < n && s.pc[i].Opening?
    ensures Running(n, NextWorker(n, s, i, error))
  {
    var s' := NextWorker(n, s, i, error);
    assert Finished(s') == {};
  }

  lemma StartKeeps(n: nat, s: State, i: nat, error: Option<Msg>)
    requires Shaped(n, s) && Running(n, s) && i < n && s.pc[i].AwaitRun?
    ensures Running(n, NextWorker(n, s, i, error))
  {
    var s' := NextWorker(n, s, i, error);
    assert Finished(s') == Finished(s) && (HasCloser(s') <==> HasCloser(s)) by {
      SameClosers(n, s, s', i);
    }
    SameAborters(n, s, s', i);
  }

  lemma SameClosers(n: nat, s: State, s': State, i: nat)
    requires |s.pc| == |s'.pc| == n && i < n && s'.pc == s.pc[i := s'.pc[i]]
    requires !LastToNotify(s.pc[i]) && !LastToNotify(s'.pc[i])
    requires !s.pc[i].Polling? && !s.pc[i].Clearing? && !s'.pc[i].Polling? && !s'.pc[i].Clearing?
    ensures HasCloser(s') <==> HasCloser(s)
    ensures Finished(s') == Finished(s)
  {
    if HasCloser(s) {
      var j :| 0 <= j < n && LastToNotify(s.pc[j]);
      assert LastToNotify(s'.pc[j]);
    }
  }

  lemma SameAborters(n: nat, s: State, s': State, i: nat)
    requires |s.pc| == |s'.pc| == n && i < n && s'.pc == s.pc[i := s'.pc[i]]
    requires !s.pc[i].Aborting? && !s'.pc[i].Aborting?
    ensures HasAborter(s') <==> HasAborter(s)
  {
    if HasAborter(s) {
      var j :| 0 <= j < n && s.pc[j].Aborting?;
      assert s'.pc[j].Aborting?;
    }
  }

  lemma WorkKeeps(n: nat, s: State, i: nat, error: Option<Msg>)
    requires Shaped(n, s) && Running(n, s) && i < n && s.pc[i].Working?
    ensures Running(n, NextWorker(n, s, i, error))
  {
    var s' := NextWorker(n, s, i, error);
    SameClosers(n, s, s', i);
    SameAborters(n, s, s', i);
  }

  lemma ReportKeeps(n: nat, s: State, i: nat, error: Option<Msg>)
    requires Shaped(n, s) && Running(n, s) && i < n && (s.pc[i].Reporting? || s.pc[i].Aborting?)
    ensures Running(n, NextWorker(n, s, i, error))
  {
    var s' := NextWorker(n, s, i, error);
    SameClosers(n, s, s', i);
    assert s.pc[i].Reporting? ==> s'.pc[i].Aborting?;
  }

  lemma NotifyKeeps(n: nat, s: State, i: nat, error: Option<Msg>)
    requires Shaped(n, s) && Running(n, s) && i < n && s.pc[i].Notifying?
    ensures Running(n, NextWorker(n, s, i, error))
  {
    var s' := NextWorker(n, s, i, error);
    NobodyCloses(n, s, i);
    NobodyClosesNext(s, s', i);
    NotifierIsCounted(n, s, i, error);
    SameAborters(n, s, s', i);
  }

  lemma NobodyCloses(n: nat, s: State, i: nat)
    requires Shaped(n, s) && Running(n, s) && i < n && s.pc[i].Notifying?
    ensures !HasCloser(s) && forall j :: 0 <= j < n ==> !s.pc[j].Clearing?
  {}

  lemma NobodyClosesNext(s: State, s': State, i: nat)
    requires !HasCloser(s) && |s'.pc| == |s.pc| && i < |s.pc| && s'.pc == s.pc[i := s'.pc[i]] && !LastToNotify(s'.pc[i])
    ensures !HasCloser(s')
  {
    forall j | 0 <= j < |s'.pc| ensures !LastToNotify(s'.pc[j]) {
      assert j != i ==> s'.pc[j] == s.pc[j];
    }
  }

  lemma NotifierIsCounted(n: nat, s: State, i: nat, error: Option<Msg>)
    requires Shaped(n, s) && Running(n, s) && i < n && s.pc[i].Notifying? && !HasCloser(s)
    ensures var s' := NextWorker(n, s, i, error);
      s'.nbready == |Finished(s')| && (s'.nbready == n ==> forall j :: 0 <= j < n && j != i ==> s'.pc[j].Polling?)
  {
    var s' := NextWorker(n, s, i, error);
    assert i !in Finished(s) && Finished(s') == Finished(s) + {i};
    if s'.nbready == n {
      Counting.AllOf(Finished(s'), n);
      forall j | 0 <= j < n && j != i ensures s'.pc[j].Polling? {
        assert j in Finished(s');
      }
    }
  }

  lemma CloseKeeps(n: nat, s: State, i: nat, error: Option<Msg>)
    requires Shaped(n, s) && Running(n, s) && i < n && (s.pc[i].Clearing? || s.pc[i].Closing?)
    ensures Running(n, NextWorker(n, s, i, error))
  {
    var s' := NextWorker(n, s, i, error);
    assert LastToNotify(s'.pc[i]);
    assert s.pc[i].Closing? ==> LastToNotify(s.pc[i]);
    SameAborters(n, s, s', i);
  }

  lemma StoreKeeps(n: nat, s: State, i: nat, error: Option<Msg>)
    requires Shaped(n, s) && Running(n, s) && i < n && s.pc[i].Storing?
    ensures Resting(n, NextWorker(n, s, i, error))
  {
    assert LastToNotify(s.pc[i]);
    assert NextWorker(n, s, i, error).pc[i].Raising?;
  }

  lemma RaiseKeeps(n: nat, s: State, i: nat, error: Option<Msg>)
    requires Shaped(n, s) && Resting(n, s) && i < n && (s.pc[i].Raising? || s.pc[i].Gone?)
    ensures Resting(n, NextWorker(n, s, i, error))
  {}

  lemma WorkerKeeps(n: nat, s: State, i: nat, error: Option<Msg>)
    requires Inv(n, s) && i < n
    ensures Inv(n, NextWorker(n, s, i, error))
  {
    match s.pc[i] {
      case Polling => PollKeeps(n, s, i, error);
      case Arriving => ArriveKeeps(n, s, i, error);
      case Resetting => ResetKeeps(n, s, i, error);
      case Opening => OpenKeeps(n, s, i, error);
      case AwaitRun => if Running(n, s) { StartKeeps(n, s, i, error); }
      case Working => WorkKeeps(n, s, i, error);
      case Reporting(_) => ReportKeeps(n, s, i, error);
      case Aborting => ReportKeeps(n, s, i, error);
      case Notifying => NotifyKeeps(n, s, i, error);
      case Clearing => CloseKeeps(n, s, i, error);
      case Closing => CloseKeeps(n, s, i, error);
      case Storing(_) => StoreKeeps(n, s, i, error);
      case _ => RaiseKeeps(n, s, i, error);
    }
  }

  lemma {:induction false} RunKeepsInv(n: nat, steps: seq<Step>)
    requires n > 0
    ensures Inv(n, After(n, steps))
  {
    if |steps| > 0 {
      RunKeepsInv(n, steps[..|steps| - 1]);
      var s, step := After(n, steps[..|steps| - 1]), steps[|steps| - 1];
      if Enabled(n, s, step) {
        if step.Worker? {
          WorkerKeeps(n, s, step.i, step.error);
        } else {
          MasterKeeps(n, s, step);
        }
      }
    }
  }

  // ---- what it promises

  /** In any run, no worker starts a round before every worker has arrived for it. */
  lemma NobodyStartsEarly(n: nat, steps: seq<Step>, i: nat, j: nat)
    requires i < n && j < n
    ensures Shaped(n, After(n, steps)) && After(n, steps).starts[i] <= After(n, steps).arrivals[j]
  {
    RunKeepsInv(n, steps);
  }

  /** The master wakes up only when every worker has notified the end of this round. */
  lemma MasterWakesLast(n: nat, steps: seq<Step>, i: nat)
    requires i < n && Enabled(n, After(n, steps), Wake)
    ensures After(n, steps).notifies[i] == After(n, steps).rounds
  {
    RunKeepsInv(n, steps);
  }

  /** The errors with which workers have ended their work in the current round. */
  function Errors(n: nat, steps: seq<Step>): set<Msg> {
    if |steps| == 0 then {}
    else
      var before, step := steps[..|steps| - 1], steps[|steps| - 1];
      var s := After(n, before);
      if !Enabled(n, s, step) then Errors(n, before)
      else if step.Notify? then {}
      else if step.Worker? && s.pc[step.i].Working? && step.error.Some? then Errors(n, before) + {step.error.value}
      else Errors(n, before)
  }

  ghost predicate AboutToReport(s: State, e: Msg) {
    exists i :: 0 <= i < |s.pc| && s.pc[i] == Reporting(e)
  }

  lemma WorkerReports(n: nat, s: State, i: nat, error: Option<Msg>, e: Msg)
    requires Shaped(n, s) && i < n
    ensures var s' := NextWorker(n, s, i, error);
      (e in s'.reported || AboutToReport(s', e) <==>
       e in s.reported || AboutToReport(s, e) || (s.pc[i].Working? && error == Some(e)))
  {
    var s' := NextWorker(n, s, i, error);
    assert s'.pc[i] == Reporting(e) ==> AboutToReport(s', e);
    if j :| 0 <= j < n && j != i && s.pc[j] == Reporting(e) {
      assert s'.pc[j] == Reporting(e);
    }
    if j :| 0 <= j < n && j != i && s'.pc[j] == Reporting(e) {
      assert s.pc[j] == Reporting(e);
    }
  }

  /** No error is lost, and none is made up. */
  lemma {:induction false} ErrorsAreReported(n: nat, steps: seq<Step>, e: Msg)
    requires n > 0
    ensures e in Errors(n, steps) <==> e in After(n, steps).reported || AboutToReport(After(n, steps), e)
  {
    if |steps| > 0 {
      var before, step := steps[..|steps| - 1], steps[|steps| - 1];
      var s := After(n, before);
      ErrorsAreReported(n, before, e);
      RunKeepsInv(n, before);
      if Enabled(n, s, step) && step.Worker? {
        WorkerReports(n, s, step.i, step.error, e);
      } else if Enabled(n, s, step) {
        assert Resting(n, s) && !AboutToReport(s, e);
        assert Next(n, s, step).pc == s.pc;
      }
    }
  }

  /** The result of a round is a failure exactly when some worker has ended its work in it with an error, and then
      it carries one of these errors; the unexpected status never occurs. */
  lemma ResultIsRight(n: nat, steps: seq<Step>)
    requires n > 0 && After(n, steps).master.Ready? && After(n, steps).rounds > 0
    ensures var s := After(n, steps);
      && s.result.Some? && !s.result.value.Unreachable?
      && (s.result.value.Failure? <==> Errors(n, steps) != {})
      && (s.result.value.Failure? ==> s.result.value.errmsg.Some? && s.result.value.errmsg.value in Errors(n, steps))
  {
    var s := After(n, steps);
    RunKeepsInv(n, steps);
    forall e ensures e in Errors(n, steps) <==> e in s.reported {
      ErrorsAreReported(n, steps, e);
      assert Resting(n, s) && !AboutToReport(s, e);
    }
    assert Errors(n, steps) == s.reported;
  }

  // ---- progress

  /** The only steps the master is free not to take: to start a round, or to join. */
  predicate MastersChoice(step: Step) {
    step.Notify? || step.Join?
  }

  /** The step has an effect: it is no spin in vain. */
  predicate Moves(n: nat, s: State, step: Step) {
    Enabled(n, s, step) && Next(n, s, step) != s
  }

  lemma GatherersMove(n: nat, s: State) returns (i: nat)
    requires n > 0 && Shaped(n, s) && Gathering(n, s)
    ensures i < n && Moves(n, s, Worker(i, None))
  {
    if j: nat :| j < n && j !in Arrived(s) {
      i := j;
    } else {
      Counting.SizeOfAll(Arrived(s), n);
      assert 0 in Arrived(s);
      i :| 0 <= i < n && (s.pc[i].Resetting? || s.pc[i].Opening?);
    }
    assert NextWorker(n, s, i, None).pc[i] != s.pc[i];
  }

  lemma RunnersMove(n: nat, s: State) returns (i: nat)
    requires n > 0 && Shaped(n, s) && Running(n, s)
    ensures i < n && Moves(n, s, Worker(i, None))
  {
    if j: nat :| j < n && j !in Finished(s) {
      i := j;
    } else {
      Counting.SizeOfAll(Finished(s), n);
      i :| 0 <= i < n && (s.pc[i].Clearing? || LastToNotify(s.pc[i]));
    }
    assert NextWorker(n, s, i, None).pc[i] != s.pc[i];
  }

  /** Everybody has been told to quit and has gone. */
  ghost predicate AllGone(s: State) {
    s.master.Joined? && forall i :: 0 <= i < |s.pc| ==> s.pc[i].Gone?
  }

  lemma RestersMove(n: nat, s: State) returns (step: Step)
    requires n > 0 && Shaped(n, s) && Resting(n, s) && !s.master.Ready? && !AllGone(s)
    ensures Moves(n, s, step) && !MastersChoice(step)
  {
    if s.master.Waiting? && s.raised {
      step := Wake;
    } else if s.master.Waiting? {
      var i :| 0 <= i < n && s.pc[i].Raising?;
      step := Worker(i, None);
    } else if s.master.Loading? {
      step := LoadStatus;
    } else if s.master.Reading? {
      step := LoadMessage;
    } else {
      var i :| 0 <= i < n && !s.pc[i].Gone?;
      step := Worker(i, None);
      assert NextWorker(n, s, i, None).pc[i].Gone?;
    }
  }

  /** Unless the master is free to choose or everybody has gone, somebody can move: no run ends in a deadlock. */
  lemma SomebodyMoves(n: nat, steps: seq<Step>) returns (step: Step)
    requires n > 0 && !After(n, steps).master.Ready? && !AllGone(After(n, steps))
    ensures Moves(n, After(n, steps), step) && !MastersChoice(step)
  {
    RunKeepsInv(n, steps);
    var s := After(n, steps);
    if Resting(n, s) {
      step := RestersMove(n, s);
    } else {
      var i;
      if Gathering(n, s) {
        i := GatherersMove(n, s);
      } else {
        i := RunnersMove(n, s);
      }
      step := Worker(i, None);
    }
  }

  /** No worker spins in vain: it has gone, or has notified the end of the current round, or waits for one that has not
      arrived for it yet or is about to start it. */
  lemma WaitsAreNeeded(n: nat, steps: seq<Step>, i: nat, error: Option<Msg>)
    requires n > 0 && i < n && Shaped(n, After(n, steps))
    requires NextWorker(n, After(n, steps), i, error) == After(n, steps)
    ensures var s := After(n, steps);
      || s.pc[i].Gone?
      || (s.pc[i].Polling? && s.notifies[i] == s.rounds)
      || (s.pc[i].AwaitRun? &&
          exists j :: 0 <= j < n && (s.arrivals[j] < s.arrivals[i] || s.pc[j].Resetting? || s.pc[j].Opening?))
  {
    RunKeepsInv(n, steps);
    var s := After(n, steps);
    assert NextWorker(n, s, i, error).pc[i] != s.pc[i] || s.pc[i].Gone? || s.pc[i].Polling? || s.pc[i].AwaitRun?;
    if Gathering(n, s) && s.pc[i].AwaitRun? {
      if j: nat :| j < n && j !in Arrived(s) {
        assert s.arrivals[j] < s.arrivals[i] || s.pc[j].Opening?;
      } else {
        Counting.SizeOfAll(Arrived(s), n);
        var j :| 0 <= j < n && (s.pc[j].Resetting? || s.pc[j].Opening?);
      }
    }
  }

  /** How far a worker has come, at most twelve operations for each round. */
  function Progress(s: State, i: nat): int
    requires i < |s.pc| == |s.notifies|
  {
    12 * s.notifies[i] +
    match s.pc[i]
    case Polling => 0
    case Arriving => 1
    case Resetting => 2
    case Opening => 3
    case AwaitRun => 3
    case Working => 4
    case Reporting(_) => 5
    case Aborting => 6
    case Notifying => 7
    case Clearing => -4
    case Closing => -3
    case Storing(_) => -2
    case Raising => -1
    case Gone => 1
  }

  /** And the master, at most four. */
  function MastersProgress(s: State): int {
    4 * s.rounds +
    match s.master
    case Waiting => -3
    case Loading => -2
    case Reading => -1
    case Ready => 0
    case Joined => 1
  }

  function Total(s: State, m: nat): int
    requires m <= |s.pc| == |s.notifies|
  {
    if m == 0 then MastersProgress(s) else Total(s, m - 1) + Progress(s, m - 1)
  }

  lemma {:induction false} TotalRises(s: State, s': State, i: nat, m: nat)
    requires i < |s.pc| == |s.notifies| == |s'.pc| == |s'.notifies| && m <= |s.pc|
    requires MastersProgress(s') == MastersProgress(s) && Progress(s', i) > Progress(s, i)
    requires forall j :: 0 <= j < |s.pc| && j != i ==> Progress(s', j) == Progress(s, j)
    ensures Total(s', m) >= Total(s, m) + if i < m then 1 else 0
  {
    if m > 0 {
      TotalRises(s, s', i, m - 1);
    }
  }

  lemma {:induction false} MastersTotalRises(s: State, s': State, m: nat)
    requires m <= |s.pc| == |s.notifies| && s'.pc == s.pc && s'.notifies == s.notifies
    requires MastersProgress(s') > MastersProgress(s)
    ensures Total(s', m) > Total(s, m)
  {
    if m > 0 {
      MastersTotalRises(s, s', m - 1);
    }
  }

  lemma {:induction false} TotalIsBounded(s: State, most: int, m: nat)
    requires m <= |s.pc| == |s.notifies| && forall i :: 0 <= i < m ==> Progress(s, i) <= most
    ensures Total(s, m) <= MastersProgress(s) + m * most
  {
    if m > 0 {
      TotalIsBounded(s, most, m - 1);
      assert (m - 1) * most + most == m * most;
    }
  }

  lemma {:induction false} TotalIsZero(n: nat, m: nat)
    requires m <= n
    ensures Total(Init(n), m) == 0
  {
    if m > 0 {
      TotalIsZero(n, m - 1);
    }
  }

  /** How many steps of a run have an effect. */
  function Effective(n: nat, steps: seq<Step>): nat {
    if |steps| == 0 then 0
    else
      var before := steps[..|steps| - 1];
      Effective(n, before) + if After(n, steps) == After(n, before) then 0 else 1
  }

  lemma WorkerAdvances(n: nat, s: State, i: nat, error: Option<Msg>)
    requires Shaped(n, s) && i < n && NextWorker(n, s, i, error) != s
    ensures Shaped(n, NextWorker(n, s, i, error)) && Progress(NextWorker(n, s, i, error), i) > Progress(s, i)
  {}

  lemma OthersStay(n: nat, s: State, i: nat, error: Option<Msg>, j: nat)
    requires Shaped(n, s) && i < n && j < n && i != j
    ensures Shaped(n, NextWorker(n, s, i, error)) && Progress(NextWorker(n, s, i, error), j) == Progress(s, j)
  {}

  lemma StepIsProgress(n: nat, s: State, step: Step)
    requires Moves(n, s, step)
    ensures |s.pc| == |s.notifies| == |Next(n, s, step).pc| == |Next(n, s, step).notifies| == n
    ensures Total(Next(n, s, step), n) > Total(s, n)
  {
    var s' := Next(n, s, step);
    if step.Worker? {
      WorkerAdvances(n, s, step.i, step.error);
      forall j | 0 <= j < n && j != step.i ensures Progress(s', j) == Progress(s, j) {
        OthersStay(n, s, step.i, step.error, j);
      }
      TotalRises(s, s', step.i, n);
    } else {
      MastersTotalRises(s, s', n);
    }
  }

  lemma {:induction false} EffectiveIsProgress(n: nat, steps: seq<Step>)
    ensures Shaped(n, After(n, steps)) && Effective(n, steps) <= Total(After(n, steps), n)
  {
    if |steps| == 0 {
      TotalIsZero(n, n);
    } else {
      var before, step := steps[..|steps| - 1], steps[|steps| - 1];
      EffectiveIsProgress(n, before);
      if After(n, steps) != After(n, before) {
        StepIsProgress(n, After(n, before), step);
      }
    }
  }

  lemma ProgressIsBounded(n: nat, s: State, i: nat)
    requires Inv(n, s) && i < n
    ensures Progress(s, i) <= 12 * s.rounds + 1
  {}

  /** The most steps that can have an effect while so many rounds have been started. */
  function MostSteps(n: nat, rounds: nat): nat {
    n * (12 * rounds + 1) + 4 * rounds + 1
  }

  lemma ProgressFits(n: nat, s: State)
    requires Inv(n, s)
    ensures Total(s, n) <= MostSteps(n, s.rounds)
  {
    var most := 12 * s.rounds + 1;
    forall i | 0 <= i < n ensures Progress(s, i) <= most {
      ProgressIsBounded(n, s, i);
    }
    TotalIsBounded(s, most, n);
  }

  /** No round goes on for ever, whatever the scheduler does: in any run the steps that have an effect are bounded
      by the number of rounds started. */
  lemma RoundsAreFinite(n: nat, steps: seq<Step>)
    requires n > 0
    ensures Effective(n, steps) <= MostSteps(n, After(n, steps).rounds)
  {
    RunKeepsInv(n, steps);
    EffectiveIsProgress(n, steps);
    ProgressFits(n, After(n, steps));
  }

  /** The master is free to choose, or has chosen to join and everybody has gone. */
  ghost predicate Settled(s: State) {
    s.master.Ready? || AllGone(s)
  }

  lemma NextStep(n: nat, steps: seq<Step>) returns (step: Step)
    requires n > 0 && !Settled(After(n, steps))
    ensures !MastersChoice(step) && Effective(n, steps) < Effective(n, steps + [step])
    ensures After(n, steps + [step]).rounds == After(n, steps).rounds
    ensures After(n, steps + [step]).master.Joined? <==> After(n, steps).master.Joined?
    ensures Effective(n, steps + [step]) <= MostSteps(n, After(n, steps).rounds)
  {
    step := SomebodyMoves(n, steps);
    assert (steps + [step])[..|steps|] == steps;
    RoundsAreFinite(n, steps + [step]);
  }

  /** From every state of every run the round that has been started, if any, can be brought to its end; and after
      `Join` every worker can be brought to quit. */
  lemma {:induction false} EverythingSettles(n: nat, steps: seq<Step>) returns (more: seq<Step>)
    requires n > 0
    ensures forall k :: 0 <= k < |more| ==> !MastersChoice(more[k])
    ensures After(n, steps + more).rounds == After(n, steps).rounds
    ensures After(n, steps + more).master.Joined? <==> After(n, steps).master.Joined?
    ensures Settled(After(n, steps + more))
    decreases MostSteps(n, After(n, steps).rounds) - Effective(n, steps)
  {
    if Settled(After(n, steps)) {
      more := [];
      assert steps + more == steps;
    } else {
      var step := NextStep(n, steps);
      more := EverythingSettles(n, steps + [step]);
      assert steps + [step] + more == steps + ([step] + more);
      more := [step] + more;
    }
  }
}
