/** Runs of the bank that do happen. One of them makes an audit fail, by stopping it between the second lock check and
    the copy of its last read while the segment that follows is deleted. */
module BankRuns {
  import opened Protocol
  import opened Reference
  import opened Runs
  import opened SoloRuns
  import opened Bank
  import opened BankAllocation
  import opened BankAudit
  import opened BankOverStm
  import MoneylessBank

  // ---- logs that bank code produces on a given memory

  predicate OnlyReads(log: seq<Event>, n: nat)
    requires n <= |log|
  {
    forall i :: 0 <= i < n ==> log[i].EvRead?
  }

  lemma ReadsRunOn(m: map<Addr, Word>, x: Addr, y: Addr, rest: seq<Event>)
    ensures RunLog(m, [EvRead(x, Get(m, x)), EvRead(y, Get(m, y))] + rest) == RunLog(m, rest)
  {
    var log := [EvRead(x, Get(m, x)), EvRead(y, Get(m, y))] + rest;
    RunFirst(m, log);
    RunFirst(m, log[1..]);
    assert log[1..][1..] == rest;
  }

  /** What `alloc_tx` does at the last segment, having counted `count` accounts. */
  predicate AtEnd(b: Bank, trigger: nat, count: int, prev: Addr, a: Addr, n: int, log: seq<Event>) {
    if count > trigger && count > 2 then Shrink(b, prev, a, n - 1, log)
    else if n < b.size then log == [EvWrite(a + 3 + n, b.balance), EvWrite(a, n + 1)]
    else Extend(b, a, log)
  }

  /** `alloc_tx` walks to the last segment, and ends there with `tail`. */
  lemma {:induction false} AllocWalks(b: Bank, m: map<Addr, Word>, segs: seq<Addr>, trigger: nat, k: nat, prev: Addr,
                                      tail: seq<Event>) returns (log: seq<Event>)
    requires Listed(b, m, segs) && k < |segs| && (k > 0 ==> prev == segs[k - 1])
    requires AtEnd(b, trigger, Accounts(m, segs), if |segs| >= 2 then segs[|segs| - 2] else prev, segs[|segs| - 1],
                   CountOf(m, segs[|segs| - 1]), tail)
    ensures AllocTx(b, trigger, Accounts(m, segs[..k]), prev, segs[k], log) && RunLog(m, log) == RunLog(m, tail)
    ensures |tail| <= |log| && log[|log| - |tail|..] == tail && OnlyReads(log, |log| - |tail|)
    decreases |segs| - k
  {
    var a := segs[k];
    var head := [EvRead(a, CountOf(m, a)), EvRead(a + 1, NextOf(m, a))];
    assert NextOf(m, a) == After(segs, k) && segs[..k + 1][..k] == segs[..k];
    if k + 1 < |segs| {
      var rest := AllocWalks(b, m, segs, trigger, k + 1, a, tail);
      log := head + rest;
      assert log[2..] == rest;
      ReadsRunOn(m, a, a + 1, rest);
    } else {
      log := head + tail;
      assert log[2..] == tail && segs[..k + 1] == segs;
      ReadsRunOn(m, a, a + 1, tail);
    }
  }

  /** `short_tx` from account 0 to the last one, which is alone in the last segment. */
  lemma {:induction false} ShortWalks(b: Bank, m: map<Addr, Word>, segs: seq<Addr>, k: nat, send: Search, recv: Search,
                                      sender: Addr, tail: seq<Event>) returns (log: seq<Event>)
    requires Listed(b, m, segs) && k < |segs| && forall j :: 0 <= j < |segs| ==> CountOf(m, segs[j]) >= 0
    requires Seek(send, segs[k], CountOf(m, segs[k])) == Found(sender)
    requires CountOf(m, segs[|segs| - 1]) == 1
    requires recv.Wanted? && Accounts(m, segs[..k]) + recv.id == Accounts(m, segs) - 1
    requires Transfer(sender, segs[|segs| - 1] + 3, tail)
    ensures ShortTx(send, recv, segs[k], log) && RunLog(m, log) == RunLog(m, tail)
    ensures forall i :: 0 <= i < |log| ==> !log[i].EvAlloc?
    decreases |segs| - k
  {
    var a := segs[k];
    assert NextOf(m, a) == After(segs, k) && segs[..k + 1][..k] == segs[..k];
    if k + 1 < |segs| {
      LastIsBeyond(m, segs, k);
      var rest := ShortWalks(b, m, segs, k + 1, Found(sender), Seek(recv, a, CountOf(m, a)), sender, tail);
      log := [EvRead(a, CountOf(m, a)), EvRead(a + 1, NextOf(m, a))] + rest;
      assert log[2..] == rest;
      ReadsRunOn(m, a, a + 1, rest);
    } else {
      assert segs[..k + 1] == segs;
      log := [EvRead(a, CountOf(m, a))] + tail;
      assert log[1..] == tail;
      RunFirst(m, log);
    }
  }

  lemma LastIsBeyond(m: map<Addr, Word>, segs: seq<Addr>, k: nat)
    requires k + 1 < |segs| && forall j :: 0 <= j < |segs| ==> CountOf(m, segs[j]) >= 0
    requires CountOf(m, segs[|segs| - 1]) == 1
    ensures Accounts(m, segs[..k]) + CountOf(m, segs[k]) <= Accounts(m, segs) - 1
  {
    var most := segs[..|segs| - 1];
    assert most[..k + 1] == segs[..k + 1] && segs[..k + 1][..k] == segs[..k];
    AccountsGrow(m, most, k + 1);
  }

  /** The reads of `long_tx` from account `i` of a segment on, up to its link. */
  function AccountReads(m: map<Addr, Word>, a: Addr, i: nat, n: int): (log: seq<Event>)
    ensures |log| > 0
    decreases n - i
  {
    if i < n then [EvRead(a + 3 + i, AccountOf(m, a, i))] + AccountReads(m, a, i + 1, n)
    else [EvRead(a + 1, NextOf(m, a))]
  }

  /** The reads of `long_tx` from segment `k` on. */
  function AuditLog(m: map<Addr, Word>, segs: seq<Addr>, k: nat): (log: seq<Event>)
    requires k <= |segs|
    ensures k < |segs| ==> |log| > 0
    decreases |segs| - k
  {
    if k == |segs| then []
    else
      [EvRead(segs[k], CountOf(m, segs[k])), EvRead(segs[k] + 2, ParityOf(m, segs[k]))]
      + AccountReads(m, segs[k], 0, CountOf(m, segs[k])) + AuditLog(m, segs, k + 1)
  }

  lemma {:induction false} AccountReadsAudit(b: Bank, m: map<Addr, Word>, a: Addr, count: int, sum: int, i: nat,
                                             rest: seq<Event>)
    requires Solvent(m, a) && i <= CountOf(m, a)
    ensures LongAccounts(b, count, sum, a, CountOf(m, a), i, AccountReads(m, a, i, CountOf(m, a)) + rest) ==
      LongSegment(b, count, sum + Sum(m, a, CountOf(m, a)) - Sum(m, a, i), NextOf(m, a), rest)
    decreases CountOf(m, a) - i
  {
    var n := CountOf(m, a);
    var log := AccountReads(m, a, i, n);
    if i < n {
      assert log[1..] == AccountReads(m, a, i + 1, n) && (log + rest)[1..] == log[1..] + rest;
      assert AccountOf(m, a, i) >= 0 && Sum(m, a, i + 1) == Sum(m, a, i) + AccountOf(m, a, i);
      AccountReadsAudit(b, m, a, count, sum + AccountOf(m, a, i), i + 1, rest);
    } else {
      assert (log + rest)[1..] == rest;
    }
  }

  lemma {:induction false} AuditLogReturns(b: Bank, m: map<Addr, Word>, segs: seq<Addr>, k: nat, count: int, sum: int)
    requires Listed(b, m, segs) && k < |segs| && segs[k] != 0
    requires forall j :: 0 <= j < |segs| ==> CountOf(m, segs[j]) >= 0 && Solvent(m, segs[j])
    ensures LongSegment(b, count, sum, segs[k], AuditLog(m, segs, k)).Returned?
    decreases |segs| - k
  {
    var a, rest := segs[k], AuditLog(m, segs, k + 1);
    var n := CountOf(m, a);
    var log := AuditLog(m, segs, k);
    assert log[2..] == AccountReads(m, a, 0, n) + rest;
    AccountReadsAudit(b, m, a, count + n, sum + ParityOf(m, a), 0, rest);
    assert NextOf(m, a) == After(segs, k);
    if k + 1 < |segs| {
      AuditLogReturns(b, m, segs, k + 1, count + n, sum + ParityOf(m, a) + Sum(m, a, n) - Sum(m, a, 0));
    }
  }

  /** The log reads memory `m`, and word `x` neither before its last entry. */
  ghost predicate Leaves(m: map<Addr, Word>, log: seq<Event>, x: Addr) {
    forall i :: 0 <= i < |log| ==> log[i].EvRead? && log[i].v == Get(m, log[i].x) && (i < |log| - 1 ==> log[i].x != x)
  }

  lemma {:induction false} AccountReadsLeave(b: Bank, m: map<Addr, Word>, a: Addr, i: nat, n: int, x: Addr)
    requires n <= b.size && (x == a + 1 || !Within(b, x, a))
    ensures Leaves(m, AccountReads(m, a, i, n), x)
    ensures var log := AccountReads(m, a, i, n); log[|log| - 1] == EvRead(a + 1, NextOf(m, a))
    decreases n - i
  {
    if i < n {
      AccountReadsLeave(b, m, a, i + 1, n, x);
    }
  }

  /** `long_tx` reads the link of the last segment last, and no sooner. */
  lemma {:induction false} AuditLogLeaves(b: Bank, m: map<Addr, Word>, segs: seq<Addr>, k: nat)
    requires k < |segs| && forall i, j :: 0 <= i < j < |segs| ==> Apart(b, segs[i], segs[j])
    requires forall j :: 0 <= j < |segs| ==> CountOf(m, segs[j]) <= b.size
    ensures var log, last := AuditLog(m, segs, k), segs[|segs| - 1];
      Leaves(m, log, last + 1) && log[|log| - 1] == EvRead(last + 1, NextOf(m, last))
    decreases |segs| - k
  {
    var a, last := segs[k], segs[|segs| - 1];
    assert k < |segs| - 1 ==> Apart(b, a, last);
    AccountReadsLeave(b, m, a, 0, CountOf(m, a), last + 1);
    if k + 1 < |segs| {
      AuditLogLeaves(b, m, segs, k + 1);
      LinkIsNotRead(b, m, a, last, AccountReads(m, a, 0, CountOf(m, a)));
      LeavesBoth(m, [EvRead(a, CountOf(m, a)), EvRead(a + 2, ParityOf(m, a))] + AccountReads(m, a, 0, CountOf(m, a)),
                 AuditLog(m, segs, k + 1), last + 1);
    }
  }

  lemma LeavesBoth(m: map<Addr, Word>, log: seq<Event>, rest: seq<Event>, x: Addr)
    requires Leaves(m, log, x) && Leaves(m, rest, x) && |log| > 0 && |rest| > 0 && log[|log| - 1].x != x
    ensures Leaves(m, log + rest, x) && (log + rest)[|log + rest| - 1] == rest[|rest| - 1]
  {}

  lemma LinkIsNotRead(b: Bank, m: map<Addr, Word>, a: Addr, last: Addr, log: seq<Event>)
    requires Apart(b, a, last) && |log| > 0 && Leaves(m, log, last + 1) && log[|log| - 1] == EvRead(a + 1, NextOf(m, a))
    ensures forall i :: 0 <= i < |log| ==> log[i].x != last + 1
  {}

  // ---- an audit that misses a deletion

  /** The bank as one of its segments, the last, has just been unlinked, and nothing else has changed. */
  function Cut(m: map<Addr, Word>, segs: seq<Addr>): map<Addr, Word>
    requires |segs| >= 2
  {
    m[segs[|segs| - 2] + 1 := 0]
  }

  lemma CutBank(b: Bank, m: map<Addr, Word>, segs: seq<Addr>, w: set<Addr>)
    requires BankOk(b, m, segs, w, 0) && |segs| >= 2
    ensures var m', rest := Cut(m, segs), segs[..|segs| - 1];
      && Listed(b, m', rest) && Money(m', rest) == Money(m, rest) && Accounts(m', rest) == Accounts(m, rest)
      && forall j :: 0 <= j < |rest| ==> 0 <= CountOf(m', rest[j]) <= b.size && Solvent(m', rest[j])
  {
    var m', rest := Cut(m, segs), segs[..|segs| - 1];
    CutIsListed(b, m, segs, w);
    forall j | 0 <= j < |rest|
      ensures Worth(m', rest[j]) == Worth(m, rest[j]) && CountOf(m', rest[j]) == CountOf(m, rest[j])
      ensures 0 <= CountOf(m', rest[j]) <= b.size && Solvent(m', rest[j])
    {
      CutSegment(b, m, segs, w, j);
    }
    MoneyDepends(b, m, m', rest);
  }

  lemma CutIsListed(b: Bank, m: map<Addr, Word>, segs: seq<Addr>, w: set<Addr>)
    requires BankOk(b, m, segs, w, 0) && |segs| >= 2
    ensures Listed(b, Cut(m, segs), segs[..|segs| - 1]) && OnlyAt(b, m, Cut(m, segs), segs[..|segs| - 1], |segs| - 2)
  {
    var m', rest, prev := Cut(m, segs), segs[..|segs| - 1], segs[|segs| - 2];
    assert Block(prev, SegmentSize(b)) <= w;
    InBlock(b, prev, prev + 1, w);
    WritesStayInside(b, m, m', rest, |segs| - 2);
    Unlinked(b, m, m', segs, w);
    ChainedIsListed(b, m', rest, w);
  }

  lemma CutSegment(b: Bank, m: map<Addr, Word>, segs: seq<Addr>, w: set<Addr>, j: nat)
    requires BankOk(b, m, segs, w, 0) && |segs| >= 2 && j < |segs| - 1
    requires OnlyAt(b, m, Cut(m, segs), segs[..|segs| - 1], |segs| - 2)
    ensures var m', a := Cut(m, segs), segs[j];
      && Worth(m', a) == Worth(m, a) && CountOf(m', a) == CountOf(m, a)
      && 0 <= CountOf(m', a) <= b.size && Solvent(m', a)
  {
    var m', a := Cut(m, segs), segs[..|segs| - 1][j];
    assert 0 <= CountOf(m, a) <= b.size && Solvent(m, a);
    assert SameSegment(b, m, m', a);
    SameIsWorthTheSame(b, m, m', a);
  }

  /** If the last segment is worth more than its account's initial balance, the rest is worth too little. */
  lemma CutBankIsShort(b: Bank, m: map<Addr, Word>, segs: seq<Addr>, w: set<Addr>)
    requires BankOk(b, m, segs, w, 0) && |segs| >= 2 && CountOf(m, segs[|segs| - 1]) == 1
    requires Worth(m, segs[|segs| - 1]) != b.balance
    ensures var m', rest := Cut(m, segs), segs[..|segs| - 1];
      Money(m', rest) != b.balance * Accounts(m', rest)
  {
    CutBank(b, m, segs, w);
    var rest := segs[..|segs| - 1];
    AccountsArePositive(b, m, rest);
    OneMore(b, Accounts(m, rest));
    DueIsProduct(b, Accounts(m, rest));
  }

  /** The audit's log on the cut bank: all but the last read find the same on the whole bank. */
  function CutAudit(m: map<Addr, Word>, segs: seq<Addr>): (log: seq<Event>)
    requires |segs| >= 2
    ensures |log| > 0
  {
    AuditLog(Cut(m, segs), segs[..|segs| - 1], 0)
  }

  lemma CutAuditIsRead(b: Bank, m: map<Addr, Word>, segs: seq<Addr>, w: set<Addr>)
    requires BankOk(b, m, segs, w, 0) && |segs| >= 2
    ensures var log, link := CutAudit(m, segs), segs[|segs| - 2] + 1;
      && OnlyReads(log, |log|) && Agrees(Cut(m, segs), log) && Agrees(m, log[..|log| - 1])
      && log[|log| - 1] == EvRead(link, 0)
  {
    var m', rest, log := Cut(m, segs), segs[..|segs| - 1], CutAudit(m, segs);
    CutBank(b, m, segs, w);
    assert forall i, j :: 0 <= i < j < |rest| ==> Apart(b, rest[i], rest[j]);
    AuditLogLeaves(b, m', rest, 0);
    LeavesAgree(m, m', log, segs[|segs| - 2] + 1);
  }

  lemma LeavesAgree(m: map<Addr, Word>, m': map<Addr, Word>, log: seq<Event>, x: Addr)
    requires |log| > 0 && Leaves(m', log, x) && m' == m[x := 0]
    ensures OnlyReads(log, |log|) && Agrees(m', log) && Agrees(m, log[..|log| - 1])
  {}

  /** It is a complete audit, and it reports a violation. */
  lemma CutAuditFails(b: Bank, m: map<Addr, Word>, segs: seq<Addr>, w: set<Addr>)
    requires BankOk(b, m, segs, w, 0) && |segs| >= 2 && CountOf(m, segs[|segs| - 1]) == 1
    requires Worth(m, segs[|segs| - 1]) != b.balance
    ensures var verdict := LongSegment(b, 0, 0, b.start, CutAudit(m, segs)); verdict.Returned? && !verdict.ok
  {
    var m', rest, log := Cut(m, segs), segs[..|segs| - 1], CutAudit(m, segs);
    CutBank(b, m, segs, w);
    CutBankIsShort(b, m, segs, w);
    CutAuditIsRead(b, m, segs, w);
    AuditLogReturns(b, m', rest, 0, 0, 0);
    ReadsAgree(m', log, WordsOf(log));
    assert rest[..0] == [];
    LongTxCompares(b, m', rest, 0, b.start, log, m');
  }

  function WordsOf(log: seq<Event>): (xs: seq<Addr>)
    requires OnlyReads(log, |log|)
    ensures ReadsWords(log, xs)
  {
    seq(|log|, i requires 0 <= i < |log| => log[i].x)
  }

  // ---- the run

  ghost predicate AllBehave(b: Bank, kinds: map<Tid, Kind>, s: State) {
    forall t :: t in s.txs ==> Behaves(b, kinds, t, s.txs[t])
  }

  lemma {:induction false} NoAllocations(log: seq<Event>, n: nat)
    requires n <= |log| && forall i :: 0 <= i < n ==> !log[i].EvAlloc?
    ensures Allocated(log[..n]) == {}
  {
    if n > 0 {
      NoAllocations(log, n - 1);
      assert log[..n][..n - 1] == log[..n - 1];
    }
  }

  /** Bank code that runs on the present memory can be run now, and commits. */
  lemma BankStep(c: Config, b: Bank, kinds: map<Tid, Kind>, s0: State, s: State, t: Tid, log: seq<Event>)
    returns (s': State)
    requires Leads(c, s0, s) && Settled(s) && AllBehave(b, kinds, s) && t !in s.txs && t in kinds
    requires !kinds[t].Audit? && !kinds[t].FirstLook? && Performs(b, kinds[t], log)
    requires RunLog(s.mem, log).Memory? && Obtainable(Taken(c, s), log)
    requires forall i :: 0 <= i < |log| && log[i].EvAlloc? ==> log[i].base > 0
    ensures Leads(c, s0, s') && Settled(s') && AllBehave(b, kinds, s') && t in s'.txs && OthersRest(s, s', t)
    ensures s'.txs[t].phase.Committed? && RunLog(s.mem, log) == Memory(s'.mem)
    ensures Taken(c, s) + Allocated(log) <= Taken(c, s')
  {
    s' := SoloTransaction(c, s0, s, t, false, log);
  }

  function InitLog(b: Bank): (log: seq<Event>)
    requires b.Valid()
    ensures InitTx(b, log)
  {
    [EvWrite(b.start, b.size)] + seq(b.size, i requires 0 <= i < b.size => EvWrite(b.start + 3 + i, b.balance))
  }

  /** A worker opens the bank. */
  lemma OpeningHappens(c: Config, b: Bank, kinds: map<Tid, Kind>) returns (s: State)
    requires b.Valid() && c.root == Block(b.start, SegmentSize(b)) && 0 in kinds && kinds[0].Opening?
    ensures Reachable(c, s) && Settled(s) && AllBehave(b, kinds, s) && 0 in s.txs && OthersRest(Init(), s, 0)
    ensures s.txs[0].phase.Committed? && FilledUpTo(b, s.mem, b.size)
    ensures BankOk(b, s.mem, [b.start], Taken(c, s), 0)
  {
    var log := InitLog(b);
    var m := InitFills(b, map[], log, b.size);
    assert log[..b.size + 1] == log;
    InitIsReachable(c);
    LeadsNowhere(c, Init());
    s := BankStep(c, b, kinds, Init(), Init(), 0, log);
    LeadsIsReachable(c, Init(), s);
    InitOpensBank(b, map[], log, s.mem);
    BankGrowsInto(b, s.mem, [b.start], c.root, Taken(c, s));
  }

  lemma {:induction false} Above(w: set<Addr>) returns (n: Addr)
    ensures n > 0 && forall y :: y in w ==> y < n
    decreases w
  {
    if y :| y in w {
      var n1 := Above(w - {y});
      n := if y < n1 then n1 else y + 1;
      assert forall z :: z in w ==> z == y || z in w - {y};
    } else {
      n := 1;
    }
  }

  /** A bank of at least two segments, with one account in the last that has the initial balance, as the first
      account does. */
  ghost predicate Ripe(b: Bank, m: map<Addr, Word>, segs: seq<Addr>, w: set<Addr>) {
    && BankOk(b, m, segs, w, 0) && |segs| >= 2 && CountOf(m, segs[|segs| - 1]) == 1
    && Worth(m, segs[|segs| - 1]) == b.balance && AccountOf(m, b.start, 0) == b.balance
  }

  lemma ExtendLog(b: Bank, m: map<Addr, Word>, segs: seq<Addr>, w: set<Addr>, trigger: nat, base: Addr)
    returns (log: seq<Event>)
    requires BankOk(b, m, segs, w, 0) && CountOf(m, segs[|segs| - 1]) == b.size && Accounts(m, segs) <= trigger
    requires base > 0 && forall y :: y in w ==> y < base
    ensures AllocTx(b, trigger, 0, 0, b.start, log) && Obtainable(w, log)
    ensures RunLog(m, log) == Memory(m[segs[|segs| - 1] + 1 := base][base := 1][base + 3 := b.balance])
    ensures Block(base, SegmentSize(b)) !! w && Block(base, SegmentSize(b)) <= Allocated(log)
    ensures forall i :: 0 <= i < |log| && log[i].EvAlloc? ==> log[i].base == base
  {
    var a := segs[|segs| - 1];
    var tail := [EvAlloc(base, SegmentSize(b)), EvWrite(a + 1, base), EvWrite(base, 1), EvWrite(base + 3, b.balance)];
    assert tail[1..] == [EvWrite(a + 1, base), EvWrite(base, 1), EvWrite(base + 3, b.balance)];
    ChainedIsListed(b, m, segs, w);
    assert segs[..0] == [];
    log := AllocWalks(b, m, segs, trigger, 0, 0, tail);
    ExtendIsObtainable(b, a, log, tail, w);
    RunFirst(m, tail);
    RunFirst(m, tail[1..]);
    RunFirst(m[a + 1 := base], tail[1..][1..]);
    RunFirst(m[a + 1 := base][base := 1], tail[1..][1..][1..]);
  }

  /** The only allocation of such a log is the first entry of its tail. */
  lemma ExtendAllocatesOnce(b: Bank, a: Addr, log: seq<Event>, tail: seq<Event>)
    requires |tail| == 4 && |log| >= 4 && log[|log| - 4..] == tail && OnlyReads(log, |log| - 4) && Extend(b, a, tail)
    ensures log[|log| - 4] == tail[0] && forall i :: 0 <= i < |log| && log[i].EvAlloc? ==> i == |log| - 4
  {
    var n := |log| - 4;
    assert log[n] == tail[0] && log[n + 1] == tail[1..][0] && log[n + 2] == tail[1..][1] && log[n + 3] == tail[1..][2];
  }

  lemma ExtendIsObtainable(b: Bank, a: Addr, log: seq<Event>, tail: seq<Event>, taken: set<Addr>)
    requires |tail| == 4 && |log| >= 4 && log[|log| - 4..] == tail && OnlyReads(log, |log| - 4) && Extend(b, a, tail)
    requires forall y :: y in taken ==> y < tail[0].base
    ensures Obtainable(taken, log) && forall i :: 0 <= i < |log| && log[i].EvAlloc? ==> log[i] == tail[0]
    ensures Block(tail[0].base, SegmentSize(b)) !! taken && Block(tail[0].base, SegmentSize(b)) <= Allocated(log)
  {
    ExtendAllocatesOnce(b, a, log, tail);
    NoAllocations(log, |log| - 4);
    OnlyThere(log, |log| - 4);
    BlockIsAbove(tail[0].base, SegmentSize(b), taken);
  }

  lemma BlockIsAbove(base: Addr, n: nat, taken: set<Addr>)
    requires forall y :: y in taken ==> y < base
    ensures Block(base, n) !! taken
  {}

  lemma OnlyThere(log: seq<Event>, n: nat)
    requires n + 4 == |log| && log[n].EvAlloc?
    ensures Gets(log[n]) <= Allocated(log)
  {
    RunsOn(map[], log, n);
    RunsOn(map[], log, n + 1);
    RunsOn(map[], log, n + 2);
    RunsOn(map[], log, n + 3);
    assert log[..n + 4] == log;
  }

  /** A new segment is opened when the last one is full. */
  lemma ExtendHappens(c: Config, b: Bank, kinds: map<Tid, Kind>, s0: State, s: State, segs: seq<Addr>, t: Tid)
    returns (s': State, segs': seq<Addr>)
    requires Leads(c, s0, s) && Settled(s) && AllBehave(b, kinds, s) && t !in s.txs && t in kinds
    requires kinds[t].Allocation? && Accounts(s.mem, segs) <= kinds[t].trigger
    requires BankOk(b, s.mem, segs, Taken(c, s), 0) && CountOf(s.mem, segs[|segs| - 1]) == b.size
    requires AccountOf(s.mem, b.start, 0) == b.balance
    ensures Leads(c, s0, s') && Settled(s') && AllBehave(b, kinds, s') && t in s'.txs && OthersRest(s, s', t)
    ensures s'.txs[t].phase.Committed? && Ripe(b, s'.mem, segs', Taken(c, s'))
    ensures Accounts(s'.mem, segs') == Accounts(s.mem, segs) + 1
  {
    var base := Above(Taken(c, s));
    var log := ExtendLog(b, s.mem, segs, Taken(c, s), kinds[t].trigger, base);
    s' := BankStep(c, b, kinds, s0, s, t, log);
    segs' := segs + [base];
    ExtendRipens(b, s.mem, s'.mem, segs, Taken(c, s), base, Taken(c, s'));
  }

  lemma ExtendRipens(b: Bank, m: map<Addr, Word>, m': map<Addr, Word>, segs: seq<Addr>, w: set<Addr>, base: Addr,
                     w': set<Addr>)
    requires BankOk(b, m, segs, w, 0) && CountOf(m, segs[|segs| - 1]) == b.size
    requires w <= w' && base > 0 && Block(base, SegmentSize(b)) !! w && Block(base, SegmentSize(b)) <= w'
    requires m' == m[segs[|segs| - 1] + 1 := base][base := 1][base + 3 := b.balance]
    requires AccountOf(m, b.start, 0) == b.balance
    ensures Ripe(b, m', segs + [base], w') && Accounts(m', segs + [base]) == Accounts(m, segs) + 1
  {
    var a := segs[|segs| - 1];
    ExtendKeepsBank(b, m, m', segs, w, a, base, w');
    NewIsApart(b, m, segs, w, base);
    assert Apart(b, a, base) && Block(a, SegmentSize(b)) <= w && Apart(b, segs[0], base);
    NewSegment(b, m, m', w, a, base, w');
    OldStaysPut(b, m, m', segs, a, base);
    MoneyDepends(b, m, m', segs);
    assert (segs + [base])[..|segs|] == segs && SameSegment(b, m, m', segs[0]);
  }

  /** From the opening to three accounts or more, the last of them alone in its segment. */
  lemma BankRipens(c: Config, b: Bank, kinds: map<Tid, Kind>, s0: State) returns (s: State, segs: seq<Addr>)
    requires Settled(s0) && AllBehave(b, kinds, s0) && 1 !in s0.txs && 2 !in s0.txs
    requires 1 in kinds && 2 in kinds && kinds[1] == kinds[2] == Allocation(b.size + 1)
    requires BankOk(b, s0.mem, [b.start], Taken(c, s0), 0) && FilledUpTo(b, s0.mem, b.size)
    ensures Leads(c, s0, s) && Settled(s) && AllBehave(b, kinds, s) && Ripe(b, s.mem, segs, Taken(c, s))
    ensures forall t :: t in s.txs ==> t in s0.txs || t == 1 || t == 2
    ensures forall t :: t in s0.txs ==> t in s.txs && s.txs[t] == s0.txs[t]
    ensures Accounts(s.mem, segs) == LastAccount(b) + 1
  {
    LeadsNowhere(c, s0);
    assert [b.start][..0] == [] && AccountOf(s0.mem, b.start, 0) == b.balance;
    s, segs := ExtendHappens(c, b, kinds, s0, s0, [b.start], 1);
    if b.size == 1 {
      s, segs := ExtendHappens(c, b, kinds, s0, s, segs, 2);
    }
  }

  /** The number of the last account, once the bank is ripe. */
  function LastAccount(b: Bank): nat {
    if b.size == 1 then 2 else b.size
  }

  lemma TransferLog(b: Bank, m: map<Addr, Word>, segs: seq<Addr>, w: set<Addr>)
    returns (log: seq<Event>, tail: seq<Event>)
    requires Ripe(b, m, segs, w) && b.balance > 0 && Accounts(m, segs) == LastAccount(b) + 1
    ensures ShortTx(Wanted(0), Wanted(LastAccount(b)), b.start, log) && RunLog(m, log) == RunLog(m, tail)
    ensures Transfer(b.start + 3, segs[|segs| - 1] + 3, tail) && RunLog(m, tail).Memory?
    ensures forall i :: 0 <= i < |log| ==> !log[i].EvAlloc?
  {
    var r := segs[|segs| - 1] + 3;
    var m1 := m[b.start + 3 := b.balance - 1];
    tail := [EvRead(b.start + 3, b.balance), EvWrite(b.start + 3, b.balance - 1), EvRead(r, Get(m1, r)),
             EvWrite(r, Get(m1, r) + 1)];
    RunFirst(m, tail);
    RunFirst(m, tail[1..]);
    RunFirst(m1, tail[1..][1..]);
    RunFirst(m1, tail[1..][1..][1..]);
    ChainedIsListed(b, m, segs, w);
    assert segs[..0] == [] && CountOf(m, segs[0]) == b.size;
    log := ShortWalks(b, m, segs, 0, Wanted(0), Wanted(LastAccount(b)), b.start + 3, tail);
  }

  /** One unit moves from the first account to the last. */
  lemma TransferHappens(c: Config, b: Bank, kinds: map<Tid, Kind>, s0: State, s: State, segs: seq<Addr>, t: Tid)
    returns (s': State)
    requires Leads(c, s0, s) && Settled(s) && AllBehave(b, kinds, s) && t !in s.txs && t in kinds
    requires kinds[t] == Short(0, LastAccount(b)) && b.balance > 0
    requires Ripe(b, s.mem, segs, Taken(c, s)) && Accounts(s.mem, segs) == LastAccount(b) + 1
    ensures Leads(c, s0, s') && Settled(s') && AllBehave(b, kinds, s') && t in s'.txs && OthersRest(s, s', t)
    ensures s'.txs[t].phase.Committed? && BankOk(b, s'.mem, segs, Taken(c, s'), 0) && |segs| >= 2
    ensures Lopsided(b, s'.mem, segs) && Accounts(s'.mem, segs) == Accounts(s.mem, segs)
  {
    var log, tail := TransferLog(b, s.mem, segs, Taken(c, s));
    s' := BankStep(c, b, kinds, s0, s, t, log);
    ShortTxKeepsBank(b, s.mem, segs, Taken(c, s), 0, 0, LastAccount(b), Wanted(0), Wanted(LastAccount(b)), log, s'.mem);
    BankGrowsInto(b, s'.mem, segs, Taken(c, s), Taken(c, s'));
    TransferRuns(s.mem, b.start + 3, segs[|segs| - 1] + 3, tail, s'.mem);
    TransferUnbalances(b, s.mem, s'.mem, segs, Taken(c, s));
  }

  /** The last segment has one account, and more money than the initial balance. */
  ghost predicate Lopsided(b: Bank, m: map<Addr, Word>, segs: seq<Addr>)
    requires |segs| > 0
  {
    CountOf(m, segs[|segs| - 1]) == 1 && Worth(m, segs[|segs| - 1]) == b.balance + 1
  }

  lemma TransferUnbalances(b: Bank, m: map<Addr, Word>, m': map<Addr, Word>, segs: seq<Addr>, w: set<Addr>)
    requires Ripe(b, m, segs, w) && b.balance > 0 && m' == Transferred(m, b.start + 3, segs[|segs| - 1] + 3)
    ensures Lopsided(b, m', segs) && Accounts(m', segs) == Accounts(m, segs)
  {
    var a := segs[|segs| - 1];
    assert Apart(b, segs[0], a) && Get(m, b.start + 3) == b.balance;
    assert Sum(m, a, 1) == Sum(m, a, 0) + AccountOf(m, a, 0) && Sum(m', a, 1) == Sum(m', a, 0) + AccountOf(m', a, 0);
    forall j | 0 <= j < |segs| ensures CountOf(m', segs[j]) == CountOf(m, segs[j]) {
      assert j > 0 ==> Apart(b, segs[0], segs[j]);
      assert j < |segs| - 1 ==> Apart(b, segs[j], a);
    }
    AccountsDepend(m, m', segs);
  }

  lemma {:induction false} AccountsDepend(m: map<Addr, Word>, m': map<Addr, Word>, segs: seq<Addr>)
    requires forall j :: 0 <= j < |segs| ==> CountOf(m', segs[j]) == CountOf(m, segs[j])
    ensures Accounts(m', segs) == Accounts(m, segs)
  {
    if |segs| > 0 {
      AccountsDepend(m, m', segs[..|segs| - 1]);
    }
  }

  /** An audit begins, and gets as far as copying the last link that is not null. */
  lemma AuditPauses(c: Config, b: Bank, kinds: map<Tid, Kind>, s0: State, s: State, segs: seq<Addr>, t: Tid)
    returns (s': State)
    requires !c.fusedRead && Leads(c, s0, s) && Settled(s) && AllBehave(b, kinds, s) && t !in s.txs && t in kinds
    requires kinds[t].Audit? && BankOk(b, s.mem, segs, Taken(c, s), 0) && |segs| >= 2
    ensures Leads(c, s0, s') && Settled(s') && AllBehave(b, kinds, s') && Alone(s, s', t)
    ensures s'.txs[t].phase == Rechecked(segs[|segs| - 2] + 1) && s'.txs[t].readOnly && s'.txs[t].writes == map[]
    ensures var log := CutAudit(s.mem, segs); s'.txs[t].log == log[..|log| - 1]
    ensures Taken(c, s) <= Taken(c, s')
  {
    var log := CutAudit(s.mem, segs);
    var most := log[..|log| - 1];
    CutAuditIsRead(b, s.mem, segs, Taken(c, s));
    ReadsAgree(s.mem, most, WordsOf(most));
    s' := ReaderPauses(c, s0, s, t, most, segs[|segs| - 2] + 1);
  }

  lemma DeleteLog(b: Bank, m: map<Addr, Word>, segs: seq<Addr>, w: set<Addr>)
    returns (log: seq<Event>, m': map<Addr, Word>)
    requires BankOk(b, m, segs, w, 0) && |segs| >= 2 && CountOf(m, segs[|segs| - 1]) == 1 && Accounts(m, segs) > 2
    ensures AllocTx(b, 0, 0, 0, b.start, log) && RunLog(m, log) == Memory(m') && Get(m', segs[|segs| - 2] + 1) == 0
    ensures Obtainable(w, log) && forall i :: 0 <= i < |log| ==> !log[i].EvAlloc?
  {
    var a, prev := segs[|segs| - 1], segs[|segs| - 2];
    var m1 := m[prev + 1 := 0];
    var parity := ParityOf(m, a) + AccountOf(m, a, 0) - b.balance;
    var tail := [EvRead(a + 2, ParityOf(m, a)), EvRead(a + 3, AccountOf(m, a, 0)), EvRead(prev + 1, NextOf(m, prev)),
                 EvWrite(prev + 1, 0), EvRead(prev + 2, ParityOf(m1, prev)),
                 EvWrite(prev + 2, ParityOf(m1, prev) + parity)];
    ChainedIsListed(b, m, segs, w);
    assert segs[..0] == [];
    log := AllocWalks(b, m, segs, 0, 0, 0, tail);
    forall i | 0 <= i < |log| ensures !log[i].EvAlloc? {
      assert i >= |log| - |tail| ==> log[i] == log[|log| - |tail|..][i - (|log| - |tail|)];
    }
    DeleteTailRuns(m, a, prev, tail, parity);
    m' := m1[prev + 2 := ParityOf(m1, prev) + parity];
  }

  lemma DeleteTailRuns(m: map<Addr, Word>, a: Addr, prev: Addr, tail: seq<Event>, parity: Word)
    requires var m1 := m[prev + 1 := 0];
      tail == [EvRead(a + 2, ParityOf(m, a)), EvRead(a + 3, AccountOf(m, a, 0)), EvRead(prev + 1, NextOf(m, prev)),
               EvWrite(prev + 1, 0), EvRead(prev + 2, ParityOf(m1, prev)),
               EvWrite(prev + 2, ParityOf(m1, prev) + parity)]
    ensures var m1 := m[prev + 1 := 0]; RunLog(m, tail) == Memory(m1[prev + 2 := ParityOf(m1, prev) + parity])
  {
    var m1 := m[prev + 1 := 0];
    var rest := tail[2..];
    assert tail == [EvRead(a + 2, Get(m, a + 2)), EvRead(a + 3, Get(m, a + 3))] + rest;
    ReadsRunOn(m, a + 2, a + 3, rest);
    RunFirst(m, rest);
    RunFirst(m, rest[1..]);
    RunFirst(m1, rest[1..][1..]);
    RunFirst(m1, rest[1..][1..][1..]);
  }

  /** The last segment is deleted: its predecessor becomes the last. */
  lemma DeletionHappens(c: Config, b: Bank, kinds: map<Tid, Kind>, s0: State, s: State, segs: seq<Addr>, t: Tid)
    returns (s': State)
    requires Leads(c, s0, s) && Settled(s) && AllBehave(b, kinds, s) && t !in s.txs && t in kinds
    requires kinds[t] == Allocation(0) && BankOk(b, s.mem, segs, Taken(c, s), 0) && |segs| >= 2
    requires CountOf(s.mem, segs[|segs| - 1]) == 1 && Accounts(s.mem, segs) > 2
    ensures Leads(c, s0, s') && Settled(s') && AllBehave(b, kinds, s') && t in s'.txs && OthersRest(s, s', t)
    ensures s'.txs[t].phase.Committed? && Get(s'.mem, segs[|segs| - 2] + 1) == 0
  {
    var log, m := DeleteLog(b, s.mem, segs, Taken(c, s));
    s' := BankStep(c, b, kinds, s0, s, t, log);
  }

  /** The audit copies the link that has become null, and ends: it reports a violation. */
  lemma AuditEnds(c: Config, b: Bank, kinds: map<Tid, Kind>, s0: State, s: State, m: map<Addr, Word>, segs: seq<Addr>,
                  w: set<Addr>, t: Tid) returns (s': State)
    requires Leads(c, s0, s) && Settled(s) && AllBehave(b, kinds, s) && t in s.txs && kinds[t].Audit?
    requires BankOk(b, m, segs, w, 0) && |segs| >= 2 && Lopsided(b, m, segs)
    requires s.txs[t].phase == Rechecked(segs[|segs| - 2] + 1) && s.txs[t].readOnly && s.txs[t].writes == map[]
    requires s.txs[t].log == CutAudit(m, segs)[..|CutAudit(m, segs)| - 1] && Get(s.mem, segs[|segs| - 2] + 1) == 0
    ensures Leads(c, s0, s') && AllBehave(b, kinds, s') && t in s'.txs && OthersRest(s, s', t)
    ensures !NoViolation(b, s'.txs[t].log)
  {
    var log, link := CutAudit(m, segs), segs[|segs| - 2] + 1;
    CutAuditIsRead(b, m, segs, w);
    CutAuditFails(b, m, segs, w);
    s' := ReaderResumes(c, s0, s, t, link);
    assert s'.txs[t].log == log;
  }

  /** What the transactions of the run do. */
  function TornKinds(b: Bank): map<Tid, Kind> {
    map[0 := Opening, 1 := Allocation(b.size + 1), 2 := Allocation(b.size + 1), 3 := Short(0, LastAccount(b)),
        4 := Audit, 5 := Allocation(0)]
  }

  /** After the opening: the bank grows a segment, one unit moves there, an audit pauses at the link to it, the
      segment is deleted, and the audit ends. */
  lemma TornAudit(c: Config, b: Bank, s0: State) returns (s: State)
    requires !c.fusedRead && b.Valid() && b.balance > 0 && AllBehave(b, TornKinds(b), s0) && Settled(s0)
    requires 0 in s0.txs && OthersRest(Init(), s0, 0)
    requires BankOk(b, s0.mem, [b.start], Taken(c, s0), 0) && FilledUpTo(b, s0.mem, b.size)
    ensures Leads(c, s0, s) && AllBehave(b, TornKinds(b), s) && 4 in s.txs && !NoViolation(b, s.txs[4].log)
    ensures forall t :: t in s.txs && t !in s0.txs ==> 0 < t <= 5
  {
    var kinds := TornKinds(b);
    var s1, segs := BankRipens(c, b, kinds, s0);
    var s2 := TransferHappens(c, b, kinds, s0, s1, segs, 3);
    s := AuditMissesDeletion(c, b, kinds, s0, s2, segs);
  }

  lemma AuditMissesDeletion(c: Config, b: Bank, kinds: map<Tid, Kind>, s0: State, s: State, segs: seq<Addr>)
    returns (s': State)
    requires !c.fusedRead && Leads(c, s0, s) && Settled(s) && AllBehave(b, kinds, s) && kinds == TornKinds(b)
    requires 4 !in s.txs && 5 !in s.txs && BankOk(b, s.mem, segs, Taken(c, s), 0) && |segs| >= 2
    requires Lopsided(b, s.mem, segs) && Accounts(s.mem, segs) > 2
    ensures Leads(c, s0, s') && AllBehave(b, kinds, s') && 4 in s'.txs && !NoViolation(b, s'.txs[4].log)
    ensures forall t :: t in s'.txs ==> t in s.txs || t == 4 || t == 5
  {
    var s1 := AuditPauses(c, b, kinds, s0, s, segs, 4);
    BankGrowsInto(b, s1.mem, segs, Taken(c, s), Taken(c, s1));
    var s2 := DeletionHappens(c, b, kinds, s0, s1, segs, 5);
    s' := AuditEnds(c, b, kinds, s0, s2, s.mem, segs, Taken(c, s), 4);
  }

  /** A run of the bank, from the opening at state `i` to a failed audit. */
  lemma TornBankRun(c: Config, b: Bank) returns (steps: seq<Step>, trace: seq<State>, i: nat)
    requires !c.fusedRead && b.Valid() && b.balance > 0 && c.root == Block(b.start, SegmentSize(b))
    ensures i <= |steps| && BankRun(c, b, TornKinds(b), steps, trace, i, |steps|)
    ensures 4 in trace[|steps|].txs && !NoViolation(b, trace[|steps|].txs[4].log)
  {
    var s0 := OpeningHappens(c, b, TornKinds(b));
    var s := TornAudit(c, b, s0);
    steps, trace, i := RunVia(c, s0, s);
    assert OpenedBy(TornKinds(b), s0, 0);
  }

  /** Transaction `t` of this run of the bank is a finished audit that reports a violation. */
  ghost predicate AuditFails(c: Config, b: Bank, kinds: map<Tid, Kind>, steps: seq<Step>, trace: seq<State>, i: nat,
                             j: nat, t: Tid) {
    && BankRun(c, b, kinds, steps, trace, i, j)
    && t in trace[j].txs && t in kinds && kinds[t].Audit? && !NoViolation(b, trace[j].txs[t].log)
  }

  ghost predicate AuditsNeverFail(c: Config, b: Bank) {
    forall kinds, steps, trace, i, j, t :: !AuditFails(c, b, kinds, steps, trace, i, j, t)
  }

  lemma MoneylessAuditsNeverFail(c: Config, b: Bank)
    requires b.Valid() && b.balance == 0 && c.root == Block(b.start, SegmentSize(b))
    ensures AuditsNeverFail(c, b)
  {
    forall kinds, steps, trace, i, j, t ensures !AuditFails(c, b, kinds, steps, trace, i, j, t) {
      if AuditFails(c, b, kinds, steps, trace, i, j, t) {
        PrefixIsReachable(c, steps, trace, j);
        MoneylessBank.MoneylessAuditsSucceed(c, b, kinds, trace[j], t);
        assert false;
      }
    }
  }

  /** For every bank and every hash: no run makes `long_tx` report a violation exactly if the second lock check and the
      copy of a read are one step, or there is no money in the bank. The source performs them one after the other. */
  lemma AuditsNeverFailIff(c: Config, b: Bank)
    requires b.Valid() && c.root == Block(b.start, SegmentSize(b))
    ensures AuditsNeverFail(c, b) <==> c.fusedRead || b.balance == 0
  {
    if b.balance == 0 {
      MoneylessAuditsNeverFail(c, b);
    } else if c.fusedRead {
      forall kinds, steps, trace, i, j, t ensures !AuditFails(c, b, kinds, steps, trace, i, j, t) {
        if BankRun(c, b, kinds, steps, trace, i, j) {
          BankIsSafe(c, b, kinds, steps, trace, i, j);
        }
      }
    } else {
      var steps, trace, i := TornBankRun(c, b);
      assert AuditFails(c, b, TornKinds(b), steps, trace, i, |steps|, 4);
    }
  }
}
