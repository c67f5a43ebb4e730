/** The loops of `grading/workload.hpp` as code, each transaction alone on the memory. Every method is proved
    to produce a log that the descriptions in `Bank` accept, to keep the bank, and to terminate. */
module BankCode {
  import opened Protocol
  import opened Reference
  import opened Bank
  import opened BankAllocation
  import opened BankAudit

  /** Call `i` of a log leads from memory `i` to memory `i + 1`. */
  ghost predicate CallAt(states: seq<map<Addr, Word>>, log: seq<Event>, i: nat)
    requires |states| == |log| + 1 && i < |log|
  {
    RunCall(states[i], log[i]) == Memory(states[i + 1])
  }

  lemma {:induction false} CallsRun(states: seq<map<Addr, Word>>, log: seq<Event>, n: nat)
    requires |states| == |log| + 1 && n <= |log|
    requires forall i {:trigger CallAt(states, log, i)} :: 0 <= i < |log| ==> CallAt(states, log, i)
    ensures RunLog(states[0], log[..n]) == Memory(states[n])
  {
    if n > 0 {
      CallsRun(states, log, n - 1);
      assert CallAt(states, log, n - 1) && log[..n][..n - 1] == log[..n - 1];
    }
  }

  /** A transaction of the reference: calls act on `memory` at once. `states` lists the memories in between. */
  class Transaction {
    var memory: map<Addr, Word>
    ghost var before: map<Addr, Word>
    ghost var log: seq<Event>
    ghost var states: seq<map<Addr, Word>>

    ghost predicate Valid()
      reads this
    {
      && |states| == |log| + 1 && states[0] == before && states[|log|] == memory
      && forall i {:trigger CallAt(states, log, i)} :: 0 <= i < |log| ==> CallAt(states, log, i)
    }

    constructor (memory: map<Addr, Word>)
      ensures Valid() && this.memory == memory && before == memory && log == []
    {
      this.memory, before, log, states := memory, memory, [], [memory];
    }

    /** The log is a run of the reference on the memory before. */
    lemma LogRuns()
      requires Valid()
      ensures RunLog(before, log) == Memory(memory)
    {
      CallsRun(states, log, |log|);
      assert log[..|log|] == log;
    }

    method Read(x: Addr) returns (v: Word)
      requires Valid()
      modifies this`log, this`states
      ensures Valid() && v == Get(memory, x) && log == old(log) + [EvRead(x, v)]
    {
      v := Get(memory, x);
      Record(EvRead(x, v));
    }

    method Write(x: Addr, v: Word)
      requires Valid()
      modifies this`log, this`states, this`memory
      ensures Valid() && memory == old(memory)[x := v] && log == old(log) + [EvWrite(x, v)]
    {
      memory := memory[x := v];
      Record(EvWrite(x, v));
    }

    /** `base` is what the allocator returns. */
    method Alloc(n: nat, base: Addr)
      requires Valid()
      modifies this`log, this`states
      ensures Valid() && log == old(log) + [EvAlloc(base, n)]
    {
      Record(EvAlloc(base, n));
    }

    ghost method Record(e: Event)
      requires |states| == |log| + 1 && states[0] == before && RunCall(states[|log|], e) == Memory(memory)
      requires forall i {:trigger CallAt(states, log, i)} :: 0 <= i < |log| ==> CallAt(states, log, i)
      modifies this`log, this`states
      ensures Valid() && log == old(log) + [e]
    {
      ghost var states0, log0 := states, log;
      log, states := log + [e], states + [memory];
      forall i {:trigger CallAt(states, log, i)} | 0 <= i < |log| ensures CallAt(states, log, i) {
        assert i < |log0| ==> CallAt(states0, log0, i);
      }
    }
  }

  // ---- init

  /** The first transaction of `init`, on zeroed memory or after another one. */
  method RunInit(b: Bank, tx: Transaction)
    requires b.Valid() && tx.Valid() && tx.log == [] && Blank(b, tx.before)
    modifies tx`log, tx`states, tx`memory
    ensures tx.Valid() && InitTx(b, tx.log)
    ensures BankOk(b, tx.memory, [b.start], Block(b.start, SegmentSize(b)), 0)
  {
    tx.Write(b.start, b.size);
    for i := 0 to b.size
      invariant tx.Valid() && |tx.log| == i + 1 && tx.log[0] == EvWrite(b.start, b.size)
      invariant forall j :: 1 <= j <= i ==> tx.log[j] == EvWrite(b.start + 2 + j, b.balance)
    {
      tx.Write(b.start + 3 + i, b.balance);
    }
    tx.LogRuns();
    InitOpensBank(b, tx.before, tx.log, tx.memory);
  }

  // ---- alloc_tx

  /** The parity of the last segment without its last account. */
  method NewParity(b: Bank, tx: Transaction, start: Addr, left: int) returns (newParity: Word, ghost events: seq<Event>)
    requires tx.Valid()
    modifies tx`log, tx`states
    ensures tx.Valid() && tx.log == old(tx.log) + events && |events| == 2
    ensures Reads(events[0], start + 2) && Reads(events[1], start + 3 + left)
    ensures newParity == events[0].v + events[1].v - b.balance
  {
    var parity := tx.Read(start + 2);
    var balance := tx.Read(start + 3 + left);
    newParity := parity + balance - b.balance;
    events := [EvRead(start + 2, parity), EvRead(start + 3 + left, balance)];
  }

  method ShrinkLast(tx: Transaction, start: Addr, left: int, newParity: Word) returns (ghost events: seq<Event>)
    requires tx.Valid()
    modifies tx`log, tx`states, tx`memory
    ensures tx.Valid() && tx.log == old(tx.log) + events
    ensures events == [EvWrite(start, left), EvWrite(start + 2, newParity)]
  {
    tx.Write(start, left);
    tx.Write(start + 2, newParity);
    events := [EvWrite(start, left), EvWrite(start + 2, newParity)];
  }

  /** Frees the segment behind `prev` and moves its parity there. */
  method UnlinkLast(tx: Transaction, prev: Addr, newParity: Word) returns (ghost events: seq<Event>)
    requires tx.Valid()
    modifies tx`log, tx`states, tx`memory
    ensures tx.Valid() && tx.log == old(tx.log) + events && |events| == 4
    ensures Reads(events[0], prev + 1) && events[1] == EvWrite(prev + 1, 0) && Reads(events[2], prev + 2)
    ensures events[3] == EvWrite(prev + 2, events[2].v + newParity)
  {
    var next := tx.Read(prev + 1);
    tx.Write(prev + 1, 0);
    var parity := tx.Read(prev + 2);
    tx.Write(prev + 2, parity + newParity);
    events := [EvRead(prev + 1, next), EvWrite(prev + 1, 0), EvRead(prev + 2, parity),
               EvWrite(prev + 2, parity + newParity)];
  }

  /** Destroys the last account of the last segment. */
  method DestroyAccount(b: Bank, tx: Transaction, prev: Addr, start: Addr, left: int) returns (ghost events: seq<Event>)
    requires tx.Valid()
    modifies tx`log, tx`states, tx`memory
    ensures tx.Valid() && tx.log == old(tx.log) + events && Shrink(b, prev, start, left, events)
    ensures forall i :: 0 <= i < |events| ==> !events[i].EvAlloc?
  {
    var newParity;
    ghost var head, more;
    newParity, head := NewParity(b, tx, start, left);
    if left > 0 {
      more := ShrinkLast(tx, start, left, newParity);
    } else {
      more := UnlinkLast(tx, prev, newParity);
    }
    events := head + more;
    assert events[2..] == more && tx.log == old(tx.log) + events;
  }

  /** Creates an account in the last segment, or in a new one behind it. */
  method CreateAccount(b: Bank, tx: Transaction, start: Addr, segmentCount: int,
                       base: Addr) returns (ghost events: seq<Event>)
    requires tx.Valid()
    modifies tx`log, tx`states, tx`memory
    ensures tx.Valid() && tx.log == old(tx.log) + events
    ensures if segmentCount < b.size then
              events == [EvWrite(start + 3 + segmentCount, b.balance), EvWrite(start, segmentCount + 1)]
            else Extend(b, start, events)
    ensures forall i :: 0 <= i < |events| && events[i].EvAlloc? ==> events[i] == EvAlloc(base, SegmentSize(b))
  {
    if segmentCount < b.size {
      tx.Write(start + 3 + segmentCount, b.balance);
      tx.Write(start, segmentCount + 1);
      events := [EvWrite(start + 3 + segmentCount, b.balance), EvWrite(start, segmentCount + 1)];
    } else {
      tx.Alloc(SegmentSize(b), base);
      tx.Write(start + 1, base);
      tx.Write(base, 1);
      tx.Write(base + 3, b.balance);
      events := [EvAlloc(base, SegmentSize(b)), EvWrite(start + 1, base), EvWrite(base, 1),
                 EvWrite(base + 3, b.balance)];
    }
  }

  /** `log` takes `alloc_tx` from its start to the loop head with the given locals. */
  ghost predicate AllocSoFar(b: Bank, trigger: nat, log: seq<Event>, count: int, prev: Addr, start: Addr) {
    forall rest {:trigger AllocTx(b, trigger, count, prev, start, rest)} ::
      AllocTx(b, trigger, count, prev, start, rest) ==> AllocTx(b, trigger, 0, 0, b.start, log + rest)
  }

  lemma AllocStarts(b: Bank, trigger: nat)
    ensures AllocSoFar(b, trigger, [], 0, 0, b.start)
  {
    assert forall rest: seq<Event> :: [] + rest == rest;
  }

  lemma AllocGoesOn(b: Bank, trigger: nat, log: seq<Event>, count: int, prev: Addr, start: Addr, n: Word, next: Addr)
    requires AllocSoFar(b, trigger, log, count, prev, start) && next != 0
    ensures AllocSoFar(b, trigger, log + [EvRead(start, n)] + [EvRead(start + 1, next)], count + n, start, next)
  {
    var head := [EvRead(start, n), EvRead(start + 1, next)];
    forall rest {:trigger AllocTx(b, trigger, count + n, start, next, rest)} |
      AllocTx(b, trigger, count + n, start, next, rest)
      ensures AllocTx(b, trigger, 0, 0, b.start, log + [EvRead(start, n)] + [EvRead(start + 1, next)] + rest)
    {
      assert (head + rest)[2..] == rest;
      assert log + [EvRead(start, n)] + [EvRead(start + 1, next)] + rest == log + (head + rest);
      assert AllocTx(b, trigger, count, prev, start, head + rest);
    }
  }

  lemma AllocEnds(b: Bank, trigger: nat, log: seq<Event>, count: int, prev: Addr, start: Addr, n: Word,
                  events: seq<Event>)
    requires AllocSoFar(b, trigger, log, count, prev, start)
    requires if count + n > trigger && count + n > 2 then Shrink(b, prev, start, n - 1, events)
             else if n < b.size then events == [EvWrite(start + 3 + n, b.balance), EvWrite(start, n + 1)]
             else Extend(b, start, events)
    ensures AllocTx(b, trigger, 0, 0, b.start, log + [EvRead(start, n)] + [EvRead(start + 1, 0)] + events)
  {
    var head := [EvRead(start, n), EvRead(start + 1, 0)];
    assert (head + events)[2..] == events;
    assert log + [EvRead(start, n)] + [EvRead(start + 1, 0)] + events == log + (head + events);
    assert AllocTx(b, trigger, count, prev, start, head + events);
  }

  /** `alloc_tx`, alone on an intact bank: it terminates, keeps the bank, and removes or adds one account, as the
      trigger demands. Its log is one that `AllocTx` describes. `base` is what the allocator would return. */
  method RunAllocTx(b: Bank, trigger: nat, tx: Transaction, base: Addr, ghost segs: seq<Addr>, ghost w: set<Addr>,
                    ghost w': set<Addr>)
    returns (ghost segs': seq<Addr>)
    requires tx.Valid() && tx.log == [] && tx.memory == tx.before && BankOk(b, tx.memory, segs, w, 0)
    requires base > 0 && w <= w' && Block(base, SegmentSize(b)) !! w && Block(base, SegmentSize(b)) <= w'
    modifies tx`log, tx`states, tx`memory
    ensures tx.Valid() && AllocTx(b, trigger, 0, 0, b.start, tx.log) && BankOk(b, tx.memory, segs', w', 0)
    ensures AllocDone(b, trigger, old(tx.memory), segs, tx.memory, segs')
    ensures Accounts(tx.memory, segs') == Accounts(old(tx.memory), segs) +
      if Accounts(old(tx.memory), segs) > trigger && Accounts(old(tx.memory), segs) > 2 then -1 else 1
    ensures segs' == segs || segs' == segs[..|segs| - 1] || segs' == segs + [base]
  {
    ChainedIsListed(b, tx.memory, segs, w);
    AllocLoop(b, trigger, tx, base, segs);
    tx.LogRuns();
    segs' := AllocTxKeepsBank(b, tx.before, segs, w, w', trigger, tx.log, tx.memory);
  }

  /** At the last segment, which has `segmentCount` accounts: destroys or creates one. */
  method ChangeLast(b: Bank, trigger: nat, tx: Transaction, base: Addr, ghost log: seq<Event>, count: int,
                       prev: Addr,
                       start: Addr, segmentCount: int)
    requires tx.Valid() && AllocSoFar(b, trigger, log, count, prev, start)
    requires tx.log == log + [EvRead(start, segmentCount)] + [EvRead(start + 1, 0)]
    requires forall i :: 0 <= i < |tx.log| ==> tx.log[i].EvRead?
    modifies tx`log, tx`states, tx`memory
    ensures tx.Valid() && AllocTx(b, trigger, 0, 0, b.start, tx.log)
    ensures forall i :: 0 <= i < |tx.log| && tx.log[i].EvAlloc? ==> tx.log[i] == EvAlloc(base, SegmentSize(b))
  {
    ghost var events;
    if count + segmentCount > trigger && count + segmentCount > 2 {
      events := DestroyAccount(b, tx, prev, start, segmentCount - 1);
    } else {
      events := CreateAccount(b, tx, start, segmentCount, base);
    }
    AllocEnds(b, trigger, log, count, prev, start, segmentCount, events);
  }

  method AllocLoop(b: Bank, trigger: nat, tx: Transaction, base: Addr, ghost segs: seq<Addr>)
    requires tx.Valid() && tx.log == [] && Listed(b, tx.memory, segs)
    modifies tx`log, tx`states, tx`memory
    ensures tx.Valid() && AllocTx(b, trigger, 0, 0, b.start, tx.log)
    ensures forall i :: 0 <= i < |tx.log| && tx.log[i].EvAlloc? ==> tx.log[i] == EvAlloc(base, SegmentSize(b))
  {
    var count, prev, start := 0, 0, b.start;
    ghost var k := 0;
    AllocStarts(b, trigger);
    while true
      invariant tx.Valid() && tx.memory == old(tx.memory) && k < |segs| && start == segs[k]
      invariant forall i :: 0 <= i < |tx.log| ==> tx.log[i].EvRead?
      invariant AllocSoFar(b, trigger, tx.log, count, prev, start)
      decreases |segs| - k
    {
      ghost var log := tx.log;
      var segmentCount := tx.Read(start);
      var next := tx.Read(start + 1);
      assert next == NextOf(tx.memory, segs[k]);
      if next == 0 {
        ChangeLast(b, trigger, tx, base, log, count, prev, start, segmentCount);
        return;
      }
      AllocGoesOn(b, trigger, log, count, prev, start, segmentCount, next);
      count, prev, start := count + segmentCount, start, next;
      k := k + 1;
    }
  }

  // ---- short_tx

  method RunTransfer(tx: Transaction, sender: Addr, recver: Addr) returns (ghost events: seq<Event>)
    requires tx.Valid()
    modifies tx`log, tx`states, tx`memory
    ensures tx.Valid() && tx.log == old(tx.log) + events && Transfer(sender, recver, events)
  {
    var sendVal := tx.Read(sender);
    events := [EvRead(sender, sendVal)];
    if sendVal > 0 {
      tx.Write(sender, sendVal - 1);
      var recvVal := tx.Read(recver);
      tx.Write(recver, recvVal + 1);
      events := events + [EvWrite(sender, sendVal - 1), EvRead(recver, recvVal), EvWrite(recver, recvVal + 1)];
    }
  }

  ghost predicate ShortSoFar(send0: Search, recv0: Search, start0: Addr, log: seq<Event>, send: Search, recv: Search,
                             start: Addr) {
    forall rest {:trigger ShortTx(send, recv, start, rest)} ::
      ShortTx(send, recv, start, rest) ==> ShortTx(send0, recv0, start0, log + rest)
  }

  lemma ShortStarts(send: Search, recv: Search, start: Addr)
    ensures ShortSoFar(send, recv, start, [], send, recv, start)
  {
    assert forall rest: seq<Event> :: [] + rest == rest;
  }

  lemma ShortGoesOn(send0: Search, recv0: Search, start0: Addr, log: seq<Event>, send: Search, recv: Search,
                    start: Addr,
                    n: Word, next: Addr)
    requires ShortSoFar(send0, recv0, start0, log, send, recv, start)
    requires !(Seek(send, start, n).Found? && Seek(recv, start, n).Found?)
    ensures next != 0 ==> ShortSoFar(send0, recv0, start0, log + [EvRead(start, n)] + [EvRead(start + 1, next)],
                                     Seek(send, start, n), Seek(recv, start, n), next)
    ensures next == 0 ==> ShortTx(send0, recv0, start0, log + [EvRead(start, n)] + [EvRead(start + 1, next)])
  {
    var head := [EvRead(start, n), EvRead(start + 1, next)];
    assert log + [EvRead(start, n)] + [EvRead(start + 1, next)] == log + head;
    if next == 0 {
      assert ShortTx(send, recv, start, head);
    } else {
      forall rest | ShortTx(Seek(send, start, n), Seek(recv, start, n), next, rest)
        ensures ShortTx(send0, recv0, start0, log + head + rest)
      {
        assert (head + rest)[2..] == rest && log + head + rest == log + (head + rest);
        assert ShortTx(send, recv, start, head + rest);
      }
    }
  }

  lemma ShortEnds(send0: Search, recv0: Search, start0: Addr, log: seq<Event>, send: Search, recv: Search, start: Addr,
                  n: Word, events: seq<Event>)
    requires ShortSoFar(send0, recv0, start0, log, send, recv, start)
    requires Seek(send, start, n).Found? && Seek(recv, start, n).Found?
    requires Transfer(Seek(send, start, n).ptr, Seek(recv, start, n).ptr, events)
    ensures ShortTx(send0, recv0, start0, log + [EvRead(start, n)] + events)
  {
    var all := [EvRead(start, n)] + events;
    assert all[1..] == events && log + [EvRead(start, n)] + events == log + all;
    assert ShortTx(send, recv, start, all);
  }

  /** `short_tx`: one unit moves between the accounts with these numbers, if the sender has one and they are two;
      no other word changes. False exactly when one of the accounts does not exist, and then nothing changes. */
  method RunShortTx(b: Bank, sendId: nat, recvId: nat, tx: Transaction, ghost segs: seq<Addr>, ghost w: set<Addr>)
    returns (useful: bool)
    requires tx.Valid() && tx.log == [] && tx.memory == tx.before && BankOk(b, tx.memory, segs, w, 0)
    modifies tx`log, tx`states, tx`memory
    ensures tx.Valid() && ShortTx(Wanted(sendId), Wanted(recvId), b.start, tx.log)
    ensures BankOk(b, tx.memory, segs, w, 0) && (!useful ==> tx.memory == old(tx.memory))
    ensures useful <==> sendId < Accounts(old(tx.memory), segs) && recvId < Accounts(old(tx.memory), segs)
    ensures Paid(old(tx.memory), tx.memory, segs, sendId, recvId)
  {
    ChainedIsListed(b, tx.memory, segs, w);
    useful := ShortLoop(b, sendId, recvId, tx, segs);
    tx.LogRuns();
    assert Accounts(tx.before, segs[..0]) == 0;
    ShortTxKeepsBank(b, tx.before, segs, w, 0, sendId, recvId, Wanted(sendId), Wanted(recvId), tx.log, tx.memory);
  }

  /** The body of the loop: looks for both accounts in one segment, and transfers once both are found. */
  method SearchSegment(b: Bank, ghost send0: Search, ghost recv0: Search, tx: Transaction, send: Search,
                       recv: Search, start: Addr)
    returns (found: bool, send': Search, recv': Search, next: Addr)
    requires tx.Valid() && ShortSoFar(send0, recv0, b.start, tx.log, send, recv, start)
    modifies tx`log, tx`states, tx`memory
    ensures tx.Valid() && (found || next == 0 ==> ShortTx(send0, recv0, b.start, tx.log))
    ensures !found ==> tx.memory == old(tx.memory) && next == NextOf(tx.memory, start)
    ensures !found && next != 0 ==> ShortSoFar(send0, recv0, b.start, tx.log, send', recv', next)
    ensures send' == Seek(send, start, CountOf(old(tx.memory), start))
    ensures recv' == Seek(recv, start, CountOf(old(tx.memory), start)) && (found <==> send'.Found? && recv'.Found?)
  {
    ghost var log := tx.log;
    var segmentCount := tx.Read(start);
    send', recv', next := Seek(send, start, segmentCount), Seek(recv, start, segmentCount), 0;
    found := send'.Found? && recv'.Found?;
    if found {
      ghost var events := RunTransfer(tx, send'.ptr, recv'.ptr);
      ShortEnds(send0, recv0, b.start, log, send, recv, start, segmentCount, events);
    } else {
      next := tx.Read(start + 1);
      ShortGoesOn(send0, recv0, b.start, log, send, recv, start, segmentCount, next);
    }
  }

  method ShortLoop(b: Bank, sendId: nat, recvId: nat, tx: Transaction, ghost segs: seq<Addr>) returns (useful: bool)
    requires tx.Valid() && tx.log == [] && Listed(b, tx.memory, segs)
    requires forall j :: 0 <= j < |segs| ==> CountOf(tx.memory, segs[j]) >= 0
    modifies tx`log, tx`states, tx`memory
    ensures tx.Valid() && ShortTx(Wanted(sendId), Wanted(recvId), b.start, tx.log)
    ensures !useful ==> tx.memory == old(tx.memory)
    ensures useful <==> sendId < Accounts(old(tx.memory), segs) && recvId < Accounts(old(tx.memory), segs)
  {
    var send, recv, start := Wanted(sendId), Wanted(recvId), b.start;
    ghost var k, m := 0, tx.memory;
    ShortStarts(send, recv, start);
    assert segs[..0] == [];
    while true
      invariant tx.Valid() && tx.memory == m && k < |segs| && start == segs[k]
      invariant ShortSoFar(Wanted(sendId), Wanted(recvId), b.start, tx.log, send, recv, start)
      invariant Sought(m, segs, k, sendId, send) && Sought(m, segs, k, recvId, recv)
      decreases |segs| - k
    {
      SeekFinds(m, segs, k, sendId, send);
      SeekFinds(m, segs, k, recvId, recv);
      var next;
      useful, send, recv, next := SearchSegment(b, Wanted(sendId), Wanted(recvId), tx, send, recv, start);
      if useful {
        NumbersAreAccounts(m, segs, sendId);
        NumbersAreAccounts(m, segs, recvId);
        return;
      }
      assert NextOf(m, segs[k]) == After(segs, k);
      if next == 0 {
        assert segs[..k + 1] == segs;
        return;
      }
      start, k := next, k + 1;
    }
  }

  // ---- long_tx

  /** `long_tx`, on any list of segments: it terminates, its log is one that `LongSegment` describes, and it returns
      whether no account is overdrawn and all the money is that many initial balances. On an intact bank it succeeds
      and reports the number of accounts. */
  method RunLongTx(b: Bank, tx: Transaction, ghost segs: seq<Addr>, ghost w: set<Addr>) returns (ok: bool,
                   nbAccounts: int)
    requires tx.Valid() && tx.log == [] && tx.memory == tx.before && Chained(b, tx.memory, segs, w)
    modifies tx`log, tx`states
    ensures tx.Valid() && LongSegment(b, 0, 0, b.start, tx.log) == Returned(ok, nbAccounts)
    ensures (forall j :: 0 <= j < |segs| ==> CountOf(tx.memory, segs[j]) >= 0) ==>
      && (ok <==> SolventFrom(tx.memory, segs, 0) && Money(tx.memory, segs) == b.balance * Accounts(tx.memory, segs))
      && (ok ==> nbAccounts == Accounts(tx.memory, segs))
    ensures BankOk(b, tx.memory, segs, w, 0) ==> ok && nbAccounts == Accounts(tx.memory, segs)
  {
    ChainedIsListed(b, tx.memory, segs, w);
    ok, nbAccounts := LongLoop(b, tx, segs);
    tx.LogRuns();
    if forall j :: 0 <= j < |segs| ==> CountOf(tx.memory, segs[j]) >= 0 {
      assert Accounts(tx.memory, segs[..0]) == 0 && Money(tx.memory, segs[..0]) == 0;
      LongTxCompares(b, tx.before, segs, 0, b.start, tx.log, tx.memory);
    }
    if BankOk(b, tx.memory, segs, w, 0) {
      LongTxSucceeds(b, tx.before, segs, w, tx.log, tx.memory);
    }
  }

  ghost predicate LongSoFar(b: Bank, log: seq<Event>, count: int, sum: int, start: Addr) {
    forall rest {:trigger LongSegment(b, count, sum, start, rest)} ::
      LongSegment(b, 0, 0, b.start, log + rest) == LongSegment(b, count, sum, start, rest)
  }

  ghost predicate InnerSoFar(b: Bank, log: seq<Event>, count: int, sum: int, start: Addr, segmentCount: int, i: int) {
    forall rest {:trigger LongAccounts(b, count, sum, start, segmentCount, i, rest)} ::
      LongSegment(b, 0, 0, b.start, log + rest) == LongAccounts(b, count, sum, start, segmentCount, i, rest)
  }

  lemma LongStarts(b: Bank)
    ensures LongSoFar(b, [], 0, 0, b.start)
  {
    assert forall rest: seq<Event> :: [] + rest == rest;
  }

  lemma LongEnters(b: Bank, log: seq<Event>, count: int, sum: int, start: Addr, n: Word, parity: Word)
    requires LongSoFar(b, log, count, sum, start) && start != 0
    ensures InnerSoFar(b, log + [EvRead(start, n)] + [EvRead(start + 2, parity)], count + n, sum + parity, start, n, 0)
  {
    var head := [EvRead(start, n), EvRead(start + 2, parity)];
    assert log + [EvRead(start, n)] + [EvRead(start + 2, parity)] == log + head;
    forall rest
      ensures LongSegment(b, 0, 0, b.start, log + head + rest) ==
        LongAccounts(b, count + n, sum + parity, start, n, 0, rest)
    {
      assert (head + rest)[2..] == rest && log + head + rest == log + (head + rest);
      assert LongSegment(b, count, sum, start, head + rest) ==
        LongAccounts(b, count + n, sum + parity, start, n, 0, rest);
    }
  }

  lemma InnerGoesOn(b: Bank, log: seq<Event>, count: int, sum: int, start: Addr, n: int, i: int, local: Word)
    requires InnerSoFar(b, log, count, sum, start, n, i) && i < n
    ensures local >= 0 ==> InnerSoFar(b, log + [EvRead(start + 3 + i, local)], count, sum + local, start, n, i + 1)
    ensures local < 0 ==> LongSegment(b, 0, 0, b.start, log + [EvRead(start + 3 + i, local)]) == Returned(false, count)
  {
    var head := [EvRead(start + 3 + i, local)];
    assert local < 0 ==> LongAccounts(b, count, sum, start, n, i, head) == Returned(false, count);
    forall rest | local >= 0
      ensures LongSegment(b, 0, 0, b.start, log + head + rest) ==
        LongAccounts(b, count, sum + local, start, n, i + 1, rest)
    {
      assert (head + rest)[1..] == rest && log + head + rest == log + (head + rest);
      assert LongAccounts(b, count, sum, start, n, i, head + rest) ==
        LongAccounts(b, count, sum + local, start, n, i + 1, rest);
    }
  }

  lemma InnerEnds(b: Bank, log: seq<Event>, count: int, sum: int, start: Addr, n: int, i: int, next: Addr)
    requires InnerSoFar(b, log, count, sum, start, n, i) && i >= n
    ensures LongSoFar(b, log + [EvRead(start + 1, next)], count, sum, next)
  {
    var head := [EvRead(start + 1, next)];
    forall rest ensures LongSegment(b, 0, 0, b.start, log + head + rest) == LongSegment(b, count, sum, next, rest) {
      assert (head + rest)[1..] == rest && log + head + rest == log + (head + rest);
      assert LongAccounts(b, count, sum, start, n, i, head + rest) == LongSegment(b, count, sum, next, rest);
    }
  }

  lemma LongEnds(b: Bank, log: seq<Event>, count: int, sum: int)
    requires LongSoFar(b, log, count, sum, 0)
    ensures LongSegment(b, 0, 0, b.start, log) == Returned(sum == b.balance * count, count)
  {
    assert log + [] == log && LongSegment(b, count, sum, 0, []) == Returned(sum == b.balance * count, count);
  }

  /** The inner loop: adds the accounts of one segment, and stops at one that is overdrawn. */
  method SumAccounts(b: Bank, tx: Transaction, ghost count: int, sum0: int, start: Addr, segmentCount: int)
    returns (ok: bool, sum: int)
    requires tx.Valid() && InnerSoFar(b, tx.log, count, sum0, start, segmentCount, 0)
    modifies tx`log, tx`states
    ensures tx.Valid()
    ensures ok ==> InnerSoFar(b, tx.log, count, sum, start, segmentCount, if segmentCount < 0 then 0 else segmentCount)
    ensures !ok ==> LongSegment(b, 0, 0, b.start, tx.log) == Returned(false, count)
  {
    ok, sum := true, sum0;
    var i := 0;
    while i < segmentCount
      invariant tx.Valid() && (i == 0 || i <= segmentCount) && InnerSoFar(b, tx.log, count, sum, start, segmentCount, i)
    {
      ok, sum := SumAccount(b, tx, count, sum, start, segmentCount, i);
      if !ok {
        return;
      }
      i := i + 1;
    }
  }

  method SumAccount(b: Bank, tx: Transaction, ghost count: int, sum0: int, start: Addr, segmentCount: int, i: int)
    returns (ok: bool, sum: int)
    requires tx.Valid() && InnerSoFar(b, tx.log, count, sum0, start, segmentCount, i) && i < segmentCount
    modifies tx`log, tx`states
    ensures tx.Valid()
    ensures ok ==> InnerSoFar(b, tx.log, count, sum, start, segmentCount, i + 1)
    ensures !ok ==> LongSegment(b, 0, 0, b.start, tx.log) == Returned(false, count)
  {
    ghost var log := tx.log;
    var local := tx.Read(start + 3 + i);
    InnerGoesOn(b, log, count, sum0, start, segmentCount, i, local);
    ok, sum := local >= 0, sum0 + local;
  }

  /** The body of the outer loop: adds one segment and moves on to the next. */
  method SumSegment(b: Bank, tx: Transaction, count0: int, sum0: int, start: Addr)
    returns (ok: bool, count: int, sum: int, next: Addr)
    requires tx.Valid() && LongSoFar(b, tx.log, count0, sum0, start) && start != 0
    modifies tx`log, tx`states
    ensures tx.Valid()
    ensures ok ==> next == NextOf(tx.memory, start) && LongSoFar(b, tx.log, count, sum, next)
    ensures !ok ==> LongSegment(b, 0, 0, b.start, tx.log) == Returned(false, count)
  {
    ghost var log := tx.log;
    var segmentCount := tx.Read(start);
    var parity := tx.Read(start + 2);
    LongEnters(b, log, count0, sum0, start, segmentCount, parity);
    count, next := count0 + segmentCount, 0;
    ok, sum := SumAccounts(b, tx, count, sum0 + parity, start, segmentCount);
    if ok {
      log := tx.log;
      next := tx.Read(start + 1);
      InnerEnds(b, log, count, sum, start, segmentCount, if segmentCount < 0 then 0 else segmentCount, next);
    }
  }

  method LongLoop(b: Bank, tx: Transaction, ghost segs: seq<Addr>) returns (ok: bool, nbAccounts: int)
    requires tx.Valid() && tx.log == [] && Listed(b, tx.memory, segs)
    modifies tx`log, tx`states
    ensures tx.Valid() && LongSegment(b, 0, 0, b.start, tx.log) == Returned(ok, nbAccounts)
  {
    var count, sum, start := 0, 0, b.start;
    ghost var k := 0;
    LongStarts(b);
    while start != 0
      invariant tx.Valid() && k <= |segs| && if k < |segs| then start == segs[k] else start == 0
      invariant LongSoFar(b, tx.log, count, sum, start)
      decreases |segs| - k
    {
      var next;
      ok, count, sum, next := SumSegment(b, tx, count, sum, start);
      if !ok {
        return false, count;
      }
      assert NextOf(tx.memory, segs[k]) == After(segs, k);
      start, k := next, k + 1;
    }
    LongEnds(b, tx.log, count, sum);
    return sum == b.balance * count, count;
  }
}
