/** A bank whose initial balance is zero: there is never any money in it, so that whatever an audit reads, and from
    however many different moments, it finds none missing. */
module MoneylessBank {
  import opened Protocol
  import opened Replay
  import opened Reference
  import opened ProtocolInvariant
  import opened RunRecord
  import Serializability
  import opened Bank
  import opened BankAllocation
  import opened BankAudit
  import opened BankOverStm

  // ---- segments, over all times

  ghost predicate AllocatedAt(s: State, t: Tid, i: int, a: Addr) {
    && t in s.txs && Decided(s.txs[t]) && 0 <= i < |s.txs[t].log|
    && s.txs[t].log[i].EvAlloc? && s.txs[t].log[i].base == a
  }

  /** Some committed transaction allocated a segment at `a`, or it is the first one. */
  ghost predicate IsSegment(b: Bank, s: State, a: Addr) {
    a == b.start || exists t, i :: AllocatedAt(s, t, i, a)
  }

  ghost predicate AllBankCode(b: Bank, kinds: map<Tid, Kind>, s: State) {
    forall t :: t in s.txs ==> Behaves(b, kinds, t, s.txs[t])
  }

  lemma {:induction false} AllocTxAllocatesOnce(b: Bank, trigger: nat, count: int, prev: Addr, start: Addr,
                                                log: seq<Event>, i: nat)
    requires AllocTx(b, trigger, count, prev, start, log) && i < |log| && log[i].EvAlloc?
    ensures i + 4 == |log| && log[i].n == SegmentSize(b)
    decreases |log|
  {
    assert i >= 2 && log[2..][i - 2] == log[i];
    if i > 2 {
      assert log[2..][1..][i - 3] == log[i];
    }
    if log[1].v != 0 {
      AllocTxAllocatesOnce(b, trigger, count + log[0].v, start, log[1].v, log[2..], i - 2);
    }
  }

  lemma {:induction false} ShortTxAllocatesNothing(send: Search, recv: Search, start: Addr, log: seq<Event>, i: nat)
    requires ShortTx(send, recv, start, log) && i < |log|
    ensures !log[i].EvAlloc?
    decreases |log|
  {
    if i >= 1 {
      assert log[1..][i - 1] == log[i];
      var send', recv' := Seek(send, start, log[0].v), Seek(recv, start, log[0].v);
      if !(send'.Found? && recv'.Found?) && i >= 2 {
        assert log[2..][i - 2] == log[i];
        ShortTxAllocatesNothing(send', recv', log[1].v, log[2..], i - 2);
      }
    }
  }

  /** A transaction allocates at most one segment. */
  lemma BankAllocatesOnce(c: Config, b: Bank, kinds: map<Tid, Kind>, s: State, t: Tid, i: int, a: Addr)
    requires Reachable(c, s) && AllBankCode(b, kinds, s) && AllocatedAt(s, t, i, a)
    ensures i + 4 == |s.txs[t].log| && s.txs[t].log[i].n == SegmentSize(b) && a > 0
  {
    var tx := s.txs[t];
    assert Behaves(b, kinds, t, tx);
    assert !tx.readOnly by {
      ReachableGood(c, s);
      assert LocalOk(c, tx);
    }
    match kinds[t] {
      case Opening => assert false;
      case Allocation(trigger) => AllocTxAllocatesOnce(b, trigger, 0, 0, b.start, tx.log, i);
      case Short(send, recv) => ShortTxAllocatesNothing(Wanted(send), Wanted(recv), b.start, tx.log, i);
    }
  }

  lemma BlocksAreApart(b: Bank, a: Addr, a': Addr)
    requires Block(a, SegmentSize(b)) !! Block(a', SegmentSize(b))
    ensures Apart(b, a, a')
  {
    assert a in Block(a, SegmentSize(b)) && a' in Block(a', SegmentSize(b));
    assert a !in Block(a', SegmentSize(b)) && a' !in Block(a, SegmentSize(b));
  }

  ghost predicate Separate(b: Bank, s: State) {
    && (forall a :: IsSegment(b, s, a) ==> a > 0)
    && (forall a, a' :: IsSegment(b, s, a) && IsSegment(b, s, a') && a != a' ==> Apart(b, a, a'))
  }

  lemma OwnerOfSegment(c: Config, b: Bank, kinds: map<Tid, Kind>, s: State, t: Tid, i: int, a: Addr)
    requires Reachable(c, s) && AllBankCode(b, kinds, s) && AllocatedAt(s, t, i, a)
    ensures a > 0 && Block(a, SegmentSize(b)) !! c.root
    ensures forall y :: y in Block(a, SegmentSize(b)) ==> y in s.home && s.home[y] == t
  {
    BankAllocatesOnce(c, b, kinds, s, t, i, a);
    assert HomeOk(c, s) by {
      ReachableGood(c, s);
    }
    assert s.txs[t].log[i].EvAlloc?;
  }

  lemma SegmentsAreApart(c: Config, b: Bank, kinds: map<Tid, Kind>, s: State)
    requires Reachable(c, s) && AllBankCode(b, kinds, s) && b.Valid() && c.root == Block(b.start, SegmentSize(b))
    ensures Separate(b, s)
  {
    forall t, i, a | AllocatedAt(s, t, i, a) ensures a > 0 && Apart(b, a, b.start) {
      OwnerOfSegment(c, b, kinds, s, t, i, a);
      BlocksAreApart(b, a, b.start);
    }
    forall t, i, a, t', i', a' | AllocatedAt(s, t, i, a) && AllocatedAt(s, t', i', a') && a != a'
      ensures Apart(b, a, a')
    {
      OwnerOfSegment(c, b, kinds, s, t, i, a);
      OwnerOfSegment(c, b, kinds, s, t', i', a');
      BankAllocatesOnce(c, b, kinds, s, t, i, a);
      BankAllocatesOnce(c, b, kinds, s, t', i', a');
      BlocksAreApart(b, a, a');
    }
  }

  // ---- no money anywhere

  ghost predicate MoneylessAt(b: Bank, s: State, m: map<Addr, Word>, a: Addr) {
    && 0 <= CountOf(m, a) <= b.size && (NextOf(m, a) == 0 || IsSegment(b, s, NextOf(m, a))) && ParityOf(m, a) == 0
    && forall i :: 0 <= i < b.size ==> AccountOf(m, a, i) == 0
  }

  ghost predicate Moneyless(b: Bank, s: State, m: map<Addr, Word>) {
    forall a :: IsSegment(b, s, a) ==> MoneylessAt(b, s, m, a)
  }

  /** What bank code without money may write to word `y` of segment `a`. */
  ghost predicate Harmless(b: Bank, s: State, a: Addr, y: Addr, v: Word) {
    && IsSegment(b, s, a) && Within(b, y, a)
    && (if y == a then 0 <= v <= b.size else if y == a + 1 then v == 0 || IsSegment(b, s, v) else v == 0)
  }

  lemma WriteKeeps(b: Bank, s: State, m: map<Addr, Word>, a: Addr, y: Addr, v: Word)
    requires Separate(b, s) && Moneyless(b, s, m) && Harmless(b, s, a, y, v)
    ensures Moneyless(b, s, m[y := v])
  {
    var m' := m[y := v];
    forall a' | IsSegment(b, s, a') ensures MoneylessAt(b, s, m', a') {
      assert MoneylessAt(b, s, m, a') && (a' != a ==> Apart(b, a', a));
      forall i | 0 <= i < b.size ensures AccountOf(m', a', i) == 0 {
        assert AccountOf(m, a', i) == 0;
      }
    }
  }

  lemma {:induction false} AllocKeeps(b: Bank, s: State, trigger: nat, count: int, prev: Addr, start: Addr,
                                      log: seq<Event>, m: map<Addr, Word>, m': map<Addr, Word>)
    requires b.Valid() && b.balance == 0 && Separate(b, s) && Moneyless(b, s, m) && IsSegment(b, s, start)
    requires AllocTx(b, trigger, count, prev, start, log) && RunLog(m, log) == Memory(m')
    requires count >= 0 && (count > 0 ==> IsSegment(b, s, prev))
    requires forall i :: 0 <= i < |log| && log[i].EvAlloc? ==> IsSegment(b, s, log[i].base)
    ensures Moneyless(b, s, m')
    decreases |log|
  {
    RunTwoReads(m, log, start, start + 1, m');
    assert MoneylessAt(b, s, m, start);
    var count' := count + log[0].v;
    if log[1].v != 0 {
      AllocKeeps(b, s, trigger, count', start, log[1].v, log[2..], m, m');
    } else if count' > trigger && count' > 2 {
      ShrinkKeeps(b, s, prev, start, log[0].v - 1, log[2..], m, m', count);
    } else if log[0].v < b.size {
      GrowKeeps(b, s, start, log[0].v, log[2..], m, m');
    } else {
      assert log[2..][0] == log[2];
      ExtendKeeps(b, s, start, log[2..], m, m');
    }
  }

  lemma GrowKeeps(b: Bank, s: State, start: Addr, n: int, log: seq<Event>, m: map<Addr, Word>, m': map<Addr, Word>)
    requires b.Valid() && b.balance == 0 && Separate(b, s) && Moneyless(b, s, m) && IsSegment(b, s, start)
    requires 0 <= n < b.size && log == [EvWrite(start + 3 + n, b.balance), EvWrite(start, n + 1)]
    requires RunLog(m, log) == Memory(m')
    ensures Moneyless(b, s, m')
  {
    GrowRuns(b, m, start, n, log, m');
    WriteKeeps(b, s, m, start, start + 3 + n, b.balance);
    WriteKeeps(b, s, m[start + 3 + n := b.balance], start, start, n + 1);
  }

  lemma ExtendKeeps(b: Bank, s: State, start: Addr, log: seq<Event>, m: map<Addr, Word>, m': map<Addr, Word>)
    requires b.Valid() && b.balance == 0 && Separate(b, s) && Moneyless(b, s, m) && IsSegment(b, s, start)
    requires Extend(b, start, log) && RunLog(m, log) == Memory(m') && IsSegment(b, s, log[0].base)
    ensures Moneyless(b, s, m')
  {
    var base := log[0].base;
    ExtendRuns(b, m, start, log, m');
    WriteKeeps(b, s, m, start, start + 1, base);
    WriteKeeps(b, s, m[start + 1 := base], base, base, 1);
    WriteKeeps(b, s, m[start + 1 := base][base := 1], base, base + 3, b.balance);
  }

  lemma ShrinkKeeps(b: Bank, s: State, prev: Addr, start: Addr, left: int, log: seq<Event>, m: map<Addr, Word>,
                    m': map<Addr, Word>, count: int)
    requires b.Valid() && b.balance == 0 && Separate(b, s) && Moneyless(b, s, m) && IsSegment(b, s, start)
    requires left == CountOf(m, start) - 1 && Shrink(b, prev, start, left, log) && RunLog(m, log) == Memory(m')
    requires count >= 0 && (count > 0 ==> IsSegment(b, s, prev)) && count + left + 1 > 2
    ensures Moneyless(b, s, m')
  {
    ShrinkRuns(b, m, prev, start, left, log, m');
    assert MoneylessAt(b, s, m, start);
    assert AccountOf(m, start, left) == 0 by {
      assert left == -1 ==> AccountOf(m, start, left) == ParityOf(m, start);
    }
    if left > 0 {
      WriteKeeps(b, s, m, start, start, left);
      WriteKeeps(b, s, m[start := left], start, start + 2, 0);
    } else {
      DeleteKeeps(b, s, prev, m);
    }
  }

  lemma DeleteKeeps(b: Bank, s: State, prev: Addr, m: map<Addr, Word>)
    requires Separate(b, s) && Moneyless(b, s, m) && IsSegment(b, s, prev)
    ensures ParityOf(m[prev + 1 := 0], prev) == 0 && Moneyless(b, s, m[prev + 1 := 0][prev + 2 := 0])
  {
    WriteKeeps(b, s, m, prev, prev + 1, 0);
    assert MoneylessAt(b, s, m[prev + 1 := 0], prev);
    WriteKeeps(b, s, m[prev + 1 := 0], prev, prev + 2, 0);
  }

  ghost predicate IsPocket(b: Bank, s: State, f: Search) {
    f.Found? ==> exists a, i :: IsSegment(b, s, a) && 0 <= i < b.size && f.ptr == PocketAt(a, i)
  }

  function PocketAt(a: Addr, i: int): Addr { a + 3 + i }

  lemma SeekPocket(b: Bank, s: State, m: map<Addr, Word>, start: Addr, f: Search)
    requires Moneyless(b, s, m) && IsSegment(b, s, start) && IsPocket(b, s, f)
    ensures IsPocket(b, s, Seek(f, start, CountOf(m, start)))
  {
    assert MoneylessAt(b, s, m, start);
    if f.Wanted? && f.id < CountOf(m, start) {
      assert start + 3 + f.id == PocketAt(start, f.id);
    }
  }

  /** Without money no transfer happens. */
  lemma {:induction false} ShortKeeps(b: Bank, s: State, send: Search, recv: Search, start: Addr, log: seq<Event>,
                                      m: map<Addr, Word>, m': map<Addr, Word>)
    requires Moneyless(b, s, m) && IsSegment(b, s, start) && IsPocket(b, s, send) && IsPocket(b, s, recv)
    requires ShortTx(send, recv, start, log) && RunLog(m, log) == Memory(m')
    ensures m' == m
    decreases |log|
  {
    RunFirst(m, log);
    assert MoneylessAt(b, s, m, start);
    var send', recv' := Seek(send, start, log[0].v), Seek(recv, start, log[0].v);
    SeekPocket(b, s, m, start, send);
    SeekPocket(b, s, m, start, recv);
    if send'.Found? && recv'.Found? {
      var a, i :| IsSegment(b, s, a) && 0 <= i < b.size && send'.ptr == PocketAt(a, i);
      assert MoneylessAt(b, s, m, a) && AccountOf(m, a, i) == 0;
      TransferRuns(m, send'.ptr, recv'.ptr, log[1..], m');
    } else {
      RunFirst(m, log[1..]);
      assert log[1..][1..] == log[2..];
      if log[1].v != 0 {
        ShortKeeps(b, s, send', recv', log[1].v, log[2..], m, m');
      } else {
        assert log[2..] == [];
      }
    }
  }

  lemma {:induction false} InitKeeps(b: Bank, s: State, log: seq<Event>, m: map<Addr, Word>, n: nat)
    returns (m': map<Addr, Word>)
    requires b.Valid() && b.balance == 0 && Separate(b, s) && Moneyless(b, s, m) && InitTx(b, log) && n <= b.size
    ensures RunLog(m, log[..n + 1]) == Memory(m') && Moneyless(b, s, m')
  {
    if n == 0 {
      m' := m[b.start := b.size];
      assert log[..1][..0] == [] && RunLog(m, []) == Memory(m);
      WriteKeeps(b, s, m, b.start, b.start, b.size);
    } else {
      var m1 := InitKeeps(b, s, log, m, n - 1);
      assert log[..n + 1][..n] == log[..n] && log[n] == EvWrite(b.start + 2 + n, b.balance);
      m' := m1[b.start + 2 + n := b.balance];
      WriteKeeps(b, s, m1, b.start, b.start + 2 + n, b.balance);
    }
  }

  lemma CommitKeeps(c: Config, b: Bank, kinds: map<Tid, Kind>, s: State, t: Tid, m: map<Addr, Word>,
                    m': map<Addr, Word>)
    requires Reachable(c, s) && AllBankCode(b, kinds, s) && b.Valid() && b.balance == 0 && Separate(b, s)
    requires t in s.txs && Decided(s.txs[t]) && !s.txs[t].readOnly
    requires Moneyless(b, s, m) && RunLog(m, s.txs[t].log) == Memory(m')
    ensures Moneyless(b, s, m')
  {
    var log := s.txs[t].log;
    assert Behaves(b, kinds, t, s.txs[t]);
    match kinds[t] {
      case Opening =>
        var m1 := InitKeeps(b, s, log, m, b.size);
        assert log[..b.size + 1] == log;
      case Allocation(trigger) =>
        forall i | 0 <= i < |log| && log[i].EvAlloc? ensures IsSegment(b, s, log[i].base) {
          assert AllocatedAt(s, t, i, log[i].base);
        }
        AllocKeeps(b, s, trigger, 0, 0, b.start, log, m, m');
      case Short(send, recv) =>
        ShortKeeps(b, s, Wanted(send), Wanted(recv), b.start, log, m, m');
    }
  }

  /** After every commit there is no money. */
  lemma {:induction false} NoMoneyAppears(c: Config, b: Bank, kinds: map<Tid, Kind>, s: State, v: int)
    requires Reachable(c, s) && AllBankCode(b, kinds, s) && b.Valid() && b.balance == 0 && Separate(b, s)
    ensures Moneyless(b, s, MemAt(s.hist, v))
    decreases if v < 0 then 0 else v
  {
    if v > 0 {
      NoMoneyAppears(c, b, kinds, s, v - 1);
      if v in s.hist {
        Serializability.CommitterIsKnown(c, s, v);
        Serializability.CommittedIsSerial(c, s, s.hist[v].tid);
        CommitKeeps(c, b, kinds, s, s.hist[v].tid, MemAt(s.hist, v - 1), MemAt(s.hist, v));
      }
    }
  }

  // ---- audits

  /** Each value was, after some commit, what memory held. */
  ghost predicate ReadSomewhen(s: State, log: seq<Event>) {
    forall i :: 0 <= i < |log| && log[i].EvRead? ==> exists u :: WasAt(s, u, log[i].x, log[i].v)
  }

  ghost predicate WasAt(s: State, u: int, x: Addr, v: Word) {
    Get(MemAt(s.hist, u), x) == v
  }

  lemma {:induction false} WritesGrow(log: seq<Event>, n: nat)
    requires n <= |log| && WritesOf(log) == map[]
    ensures WritesOf(log[..n]) == map[]
    decreases |log| - n
  {
    if n < |log| {
      WritesGrow(log, n + 1);
      assert log[..n + 1][..n] == log[..n];
      assert forall x :: x in WritesOf(log[..n]) ==> x in WritesOf(log[..n + 1]);
    } else {
      assert log[..n] == log;
    }
  }

  lemma ReaderReadsSomewhen(c: Config, s: State, t: Tid)
    requires Reachable(c, s) && t in s.txs && s.txs[t].readOnly
    ensures ReadSomewhen(s, s.txs[t].log)
  {
    ReachableGood(c, s);
    var tx := s.txs[t];
    assert LogOk(tx);
    forall i | 0 <= i < |tx.log| && tx.log[i].EvRead? ensures exists u :: WasAt(s, u, tx.log[i].x, tx.log[i].v) {
      WritesGrow(tx.log, i);
      assert OverlayAt(tx.log, tx.obs, i);
      var p := (tx.log[i].x, tx.log[i].v);
      assert p in tx.obs;
      var u :| FromCommit(s.hist, tx.rv, p.0, p.1, u);
      CommitsArePositive(c, s);
      ValIsMemAt(s.hist, u, p.0);
      assert WasAt(s, u, p.0, p.1);
    }
  }

  lemma ReadFinds(b: Bank, s: State, log: seq<Event>, a: Addr) returns (u: int)
    requires ReadSomewhen(s, log) && |log| > 0 && log[0].EvRead? && forall v :: Moneyless(b, s, MemAt(s.hist, v))
    requires IsSegment(b, s, a)
    ensures WasAt(s, u, log[0].x, log[0].v) && MoneylessAt(b, s, MemAt(s.hist, u), a)
  {
    u :| WasAt(s, u, log[0].x, log[0].v);
    assert Moneyless(b, s, MemAt(s.hist, u));
  }

  lemma {:induction false} LongFindsNothing(b: Bank, s: State, count: int, start: Addr, log: seq<Event>)
    requires b.Valid() && b.balance == 0 && ReadSomewhen(s, log) && forall v :: Moneyless(b, s, MemAt(s.hist, v))
    requires (start == 0 || IsSegment(b, s, start)) && LongSegment(b, count, 0, start, log).Returned?
    ensures LongSegment(b, count, 0, start, log).ok
    decreases |log|, 0
  {
    if start != 0 {
      var u := ReadFinds(b, s, log, start);
      var u' := ReadFinds(b, s, log[1..], start);
      AccountsHoldNothing(b, s, count + log[0].v, start, log[0].v, 0, log[2..]);
    }
  }

  lemma {:induction false} AccountsHoldNothing(b: Bank, s: State, count: int, start: Addr, n: int, i: nat,
                                               log: seq<Event>)
    requires b.Valid() && b.balance == 0 && ReadSomewhen(s, log) && forall v :: Moneyless(b, s, MemAt(s.hist, v))
    requires IsSegment(b, s, start) && 0 <= n <= b.size && LongAccounts(b, count, 0, start, n, i, log).Returned?
    ensures LongAccounts(b, count, 0, start, n, i, log).ok
    decreases |log|, 1
  {
    var u := ReadFinds(b, s, log, start);
    if i < n {
      assert AccountOf(MemAt(s.hist, u), start, i) == 0;
      AccountsHoldNothing(b, s, count, start, n, i + 1, log[1..]);
    } else {
      LongFindsNothing(b, s, count, log[0].v, log[1..]);
    }
  }

  /** In a bank without money every audit succeeds, whatever slips in between the reads. */
  lemma MoneylessAuditsSucceed(c: Config, b: Bank, kinds: map<Tid, Kind>, s: State, t: Tid)
    requires Reachable(c, s) && AllBankCode(b, kinds, s) && b.Valid() && b.balance == 0
    requires c.root == Block(b.start, SegmentSize(b)) && t in s.txs && kinds[t].Audit?
    ensures NoViolation(b, s.txs[t].log)
  {
    SegmentsAreApart(c, b, kinds, s);
    forall v ensures Moneyless(b, s, MemAt(s.hist, v)) {
      NoMoneyAppears(c, b, kinds, s, v);
    }
    assert Behaves(b, kinds, t, s.txs[t]);
    ReaderReadsSomewhen(c, s, t);
    if LongSegment(b, 0, 0, b.start, s.txs[t].log).Returned? {
      LongFindsNothing(b, s, 0, b.start, s.txs[t].log);
    }
  }
}
