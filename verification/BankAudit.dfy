/** `init` and `long_tx` of `grading/workload.hpp` on a memory that nobody else touches: how the bank is opened, and
    what an audit of it finds. */
module BankAudit {
  import opened Protocol
  import opened Reference
  import opened Bank

  // ---- long_tx

  /** How a log of `long_tx` ends: with its verdict and the number of accounts seen, or not at all. */
  datatype Verdict = NotARun | Returned(ok: bool, count: int)

  /** The logs of `long_tx` from the head of its outer loop on. */
  function LongSegment(b: Bank, count: int, sum: int, start: Addr, log: seq<Event>): Verdict
    decreases |log|, 0
  {
    if start == 0 then (if log == [] then Returned(sum == b.balance * count, count) else NotARun)
    else if |log| < 2 || !Reads(log[0], start) || !Reads(log[1], start + 2) then NotARun
    else LongAccounts(b, count + log[0].v, sum + log[1].v, start, log[0].v, 0, log[2..])
  }

  /** The same from the head of its inner loop on. */
  function LongAccounts(b: Bank, count: int, sum: int, start: Addr, segmentCount: int, i: int, log: seq<Event>): Verdict
    decreases |log|, 1
  {
    if |log| == 0 || !Reads(log[0], if i < segmentCount then start + 3 + i else start + 1) then NotARun
    else if i < segmentCount then
      if log[0].v < 0 then (if |log| == 1 then Returned(false, count) else NotARun)
      else LongAccounts(b, count, sum + log[0].v, start, segmentCount, i + 1, log[1..])
    else LongSegment(b, count, sum, log[0].v, log[1..])
  }

  lemma {:induction false} LongAccountsSum(b: Bank, m: map<Addr, Word>, a: Addr, count: int, sum: int, i: int,
                                           log: seq<Event>, m': map<Addr, Word>)
    returns (rest: seq<Event>)
    requires Solvent(m, a) && 0 <= i <= CountOf(m, a) && RunLog(m, log) == Memory(m')
    requires LongAccounts(b, count, sum, a, CountOf(m, a), i, log).Returned?
    ensures RunLog(m, rest) == Memory(m')
    ensures LongAccounts(b, count, sum, a, CountOf(m, a), i, log) ==
      LongSegment(b, count, sum + Sum(m, a, CountOf(m, a)) - Sum(m, a, i), NextOf(m, a), rest)
    decreases CountOf(m, a) - i
  {
    RunFirst(m, log);
    rest := log[1..];
    if i < CountOf(m, a) {
      assert log[0].v == AccountOf(m, a, i) && Sum(m, a, i + 1) == Sum(m, a, i) + AccountOf(m, a, i);
      rest := LongAccountsSum(b, m, a, count, sum + log[0].v, i + 1, log[1..], m');
    }
  }

  /** An overdrawn account ends the audit. */
  lemma {:induction false} LongAccountsStop(b: Bank, m: map<Addr, Word>, a: Addr, count: int, sum: int, i: int,
                                            log: seq<Event>, m': map<Addr, Word>)
    requires 0 <= i <= CountOf(m, a) && RunLog(m, log) == Memory(m')
    requires exists j :: i <= j < CountOf(m, a) && AccountOf(m, a, j) < 0
    requires LongAccounts(b, count, sum, a, CountOf(m, a), i, log).Returned?
    ensures LongAccounts(b, count, sum, a, CountOf(m, a), i, log) == Returned(false, count) && m' == m
    decreases CountOf(m, a) - i
  {
    RunFirst(m, log);
    assert log[0].v == AccountOf(m, a, i);
    if log[0].v >= 0 {
      LongAccountsStop(b, m, a, count, sum + log[0].v, i + 1, log[1..], m');
    }
  }

  /** From segment `k` on no account is overdrawn. */
  ghost predicate SolventFrom(m: map<Addr, Word>, segs: seq<Addr>, k: nat) {
    forall j :: k <= j < |segs| ==> Solvent(m, segs[j])
  }

  /** What `long_tx` computes on any list of segments: whether no account is overdrawn and all the money is as many
      initial balances as there are accounts; and the number of accounts, if none is overdrawn. It changes nothing. */
  lemma {:induction false} LongTxCompares(b: Bank, m: map<Addr, Word>, segs: seq<Addr>, k: nat, start: Addr,
                                          log: seq<Event>, m': map<Addr, Word>)
    requires Listed(b, m, segs) && forall j :: 0 <= j < |segs| ==> CountOf(m, segs[j]) >= 0
    requires k <= |segs| && if k < |segs| then start == segs[k] != 0 else start == 0
    requires LongSegment(b, Accounts(m, segs[..k]), Money(m, segs[..k]), start, log).Returned?
    requires RunLog(m, log) == Memory(m')
    ensures var verdict := LongSegment(b, Accounts(m, segs[..k]), Money(m, segs[..k]), start, log);
      && (verdict.ok <==> SolventFrom(m, segs, k) && Money(m, segs) == b.balance * Accounts(m, segs))
      && (SolventFrom(m, segs, k) ==> verdict.count == Accounts(m, segs))
    ensures m' == m
    decreases |segs| - k
  {
    if k < |segs| {
      var a := segs[k];
      RunTwoReads(m, log, a, a + 2, m');
      var count, sum := Accounts(m, segs[..k]) + CountOf(m, a), Money(m, segs[..k]) + ParityOf(m, a);
      if Solvent(m, a) {
        var rest := LongAccountsSum(b, m, a, count, sum, 0, log[2..], m');
        assert segs[..k + 1][..k] == segs[..k];
        LongTxCompares(b, m, segs, k + 1, NextOf(m, a), rest, m');
        assert SolventFrom(m, segs, k) <==> SolventFrom(m, segs, k + 1);
      } else {
        LongAccountsStop(b, m, a, count, sum, 0, log[2..], m');
      }
    } else {
      assert segs[..k] == segs;
    }
  }

  /** On an intact bank `long_tx` succeeds and counts every account. */
  lemma LongTxSucceeds(b: Bank, m: map<Addr, Word>, segs: seq<Addr>, w: set<Addr>, log: seq<Event>, m': map<Addr, Word>)
    requires BankOk(b, m, segs, w, 0) && LongSegment(b, 0, 0, b.start, log).Returned? && RunLog(m, log) == Memory(m')
    ensures LongSegment(b, 0, 0, b.start, log) == Returned(true, Accounts(m, segs)) && m' == m
  {
    ChainedIsListed(b, m, segs, w);
    assert Accounts(m, segs[..0]) == 0 && Money(m, segs[..0]) == 0;
    LongTxCompares(b, m, segs, 0, b.start, log, m');
    AccountsArePositive(b, m, segs);
    DueIsProduct(b, Accounts(m, segs));
  }

  lemma {:induction false} AccountsArePositive(b: Bank, m: map<Addr, Word>, segs: seq<Addr>)
    requires forall k :: 0 <= k < |segs| ==> CountOf(m, segs[k]) >= 0
    ensures Accounts(m, segs) >= 0
  {
    if |segs| > 0 {
      AccountsArePositive(b, m, segs[..|segs| - 1]);
    }
  }

  // ---- init

  /** The log of the first transaction of `init`. */
  predicate InitTx(b: Bank, log: seq<Event>) {
    |log| == b.size + 1 && log[0] == EvWrite(b.start, b.size) &&
    forall i :: 1 <= i <= b.size ==> log[i] == EvWrite(b.start + 2 + i, b.balance)
  }

  /** The log of the second one, which looks at the first account. */
  predicate FirstLookTx(b: Bank, log: seq<Event>) {
    |log| == 1 && Reads(log[0], b.start + 3)
  }

  /** Nothing but the first segment has been written, and that one has no parity and no successor. */
  ghost predicate Blank(b: Bank, m: map<Addr, Word>) {
    (forall y :: y in m ==> Within(b, y, b.start)) && NextOf(m, b.start) == 0 && ParityOf(m, b.start) == 0
  }

  /** The first `n` accounts are filled in, and the account count is that of a full segment. */
  ghost predicate FilledUpTo(b: Bank, m: map<Addr, Word>, n: nat) {
    && Blank(b, m) && CountOf(m, b.start) == b.size
    && forall i :: 0 <= i < n ==> AccountOf(m, b.start, i) == b.balance
  }

  lemma {:induction false} InitFills(b: Bank, m0: map<Addr, Word>, log: seq<Event>, n: nat) returns (m: map<Addr, Word>)
    requires b.Valid() && Blank(b, m0) && InitTx(b, log) && n <= b.size
    ensures RunLog(m0, log[..n + 1]) == Memory(m) && FilledUpTo(b, m, n)
  {
    if n == 0 {
      m := m0[b.start := b.size];
      assert log[..1][..0] == [];
      assert RunLog(m0, []) == Memory(m0);
    } else {
      var m1 := InitFills(b, m0, log, n - 1);
      assert log[..n + 1][..n] == log[..n];
      m := m1[b.start + 2 + n := b.balance];
      assert log[n] == EvWrite(b.start + 2 + n, b.balance);
      forall i | 0 <= i < n ensures AccountOf(m, b.start, i) == b.balance {
        assert i < n - 1 ==> AccountOf(m1, b.start, i) == b.balance;
      }
    }
  }

  /** Every opening writes the initial balance to every account. */
  lemma {:induction false} InitWrites(b: Bank, log: seq<Event>, n: nat, i: nat)
    requires InitTx(b, log) && i < n <= b.size
    ensures b.start + 3 + i in WritesOf(log[..n + 1]) && WritesOf(log[..n + 1])[b.start + 3 + i] == b.balance
  {
    assert log[..n + 1][..n] == log[..n] && log[n] == EvWrite(b.start + 2 + n, b.balance);
    if i < n - 1 {
      InitWrites(b, log, n - 1, i);
    }
  }

  lemma {:induction false} FilledSum(b: Bank, m: map<Addr, Word>, n: nat)
    requires forall i :: 0 <= i < n ==> AccountOf(m, b.start, i) == b.balance
    ensures Sum(m, b.start, n) == Due(b, n)
  {
    if n > 0 {
      FilledSum(b, m, n - 1);
    }
  }

  lemma FilledIsOpen(b: Bank, m: map<Addr, Word>)
    requires b.Valid() && FilledUpTo(b, m, b.size)
    ensures BankOk(b, m, [b.start], Block(b.start, SegmentSize(b)), 0) && Accounts(m, [b.start]) == b.size
  {
    FilledSum(b, m, b.size);
    assert [b.start][..0] == [];
    forall y | y in m ensures y in Block(b.start, SegmentSize(b)) {
      assert Within(b, y, b.start);
    }
  }

  /** `init` opens the bank, on zeroed memory or after another `init`: one full segment. */
  lemma InitOpensBank(b: Bank, m0: map<Addr, Word>, log: seq<Event>, m: map<Addr, Word>)
    requires b.Valid() && Blank(b, m0) && InitTx(b, log) && RunLog(m0, log) == Memory(m)
    ensures FilledUpTo(b, m, b.size)
    ensures BankOk(b, m, [b.start], Block(b.start, SegmentSize(b)), 0) && Accounts(m, [b.start]) == b.size
  {
    var m1 := InitFills(b, m0, log, b.size);
    assert log[..b.size + 1] == log;
    FilledIsOpen(b, m);
  }
}
