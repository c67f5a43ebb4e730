/** The bank of `grading/workload.hpp` on a memory that nobody else touches: its segments, its conservation
    law, and the transactions that keep it.

    A transaction is described by the logs its code can produce: `AllocTx`, `ShortTx` and `LongSegment`
    follow the source statement by statement, consuming one logged call after the other. */
module Bank {
  import opened Protocol
  import opened Reference

  /** `nbaccounts`, `init_balance` and the start of the shared memory region. */
  datatype Bank = Bank(size: nat, balance: Word, start: Addr) {
    predicate Valid() {
      size >= 1 && balance >= 0 && start > 0
    }
  }

  // ---- segments

  function CountOf(m: map<Addr, Word>, a: Addr): Word { Get(m, a) }

  function NextOf(m: map<Addr, Word>, a: Addr): Word { Get(m, a + 1) }

  function ParityOf(m: map<Addr, Word>, a: Addr): Word { Get(m, a + 2) }

  function AccountOf(m: map<Addr, Word>, a: Addr, i: int): Word { Get(m, a + 3 + i) }

  /** `AccountSegment::size`, in words. */
  function SegmentSize(b: Bank): nat { 3 + b.size }

  predicate Within(b: Bank, y: Addr, a: Addr) {
    a <= y < a + SegmentSize(b)
  }

  predicate Apart(b: Bank, a: Addr, a': Addr) {
    a + SegmentSize(b) <= a' || a' + SegmentSize(b) <= a
  }

  /** The money on the first `n` accounts of a segment. */
  function Sum(m: map<Addr, Word>, a: Addr, n: int): int
    decreases n
  {
    if n <= 0 then 0 else Sum(m, a, n - 1) + AccountOf(m, a, n - 1)
  }

  /** What a segment contributes to the sum of `long_tx`. */
  function Worth(m: map<Addr, Word>, a: Addr): int {
    ParityOf(m, a) + Sum(m, a, CountOf(m, a))
  }

  function Money(m: map<Addr, Word>, segs: seq<Addr>): int {
    if |segs| == 0 then 0 else Money(m, segs[..|segs| - 1]) + Worth(m, segs[|segs| - 1])
  }

  function Accounts(m: map<Addr, Word>, segs: seq<Addr>): int {
    if |segs| == 0 then 0 else Accounts(m, segs[..|segs| - 1]) + CountOf(m, segs[|segs| - 1])
  }

  lemma {:induction false} AccountsGrow(m: map<Addr, Word>, segs: seq<Addr>, k: nat)
    requires k <= |segs| && forall j :: 0 <= j < |segs| ==> CountOf(m, segs[j]) >= 0
    ensures Accounts(m, segs[..k]) <= Accounts(m, segs)
    decreases |segs| - k
  {
    if k < |segs| {
      assert segs[..k + 1][..k] == segs[..k];
      AccountsGrow(m, segs, k + 1);
    } else {
      assert segs[..k] == segs;
    }
  }

  /** `init_balance * n`, by repeated addition. */
  function Due(b: Bank, n: int): int
    decreases if n < 0 then -n else n
  {
    if n == 0 then 0 else if n > 0 then Due(b, n - 1) + b.balance else Due(b, n + 1) - b.balance
  }

  lemma {:induction false} DueIsProduct(b: Bank, n: nat)
    ensures Due(b, n) == b.balance * n
  {
    if n > 0 {
      DueIsProduct(b, n - 1);
    }
  }

  /** The segment after the `k`-th one, or null. */
  function After(segs: seq<Addr>, k: nat): Addr {
    if k + 1 < |segs| then segs[k + 1] else 0
  }

  /** `segs` is the list that starts at the first segment, inside the words `w` handed out so far. */
  ghost predicate Chained(b: Bank, m: map<Addr, Word>, segs: seq<Addr>, w: set<Addr>) {
    && |segs| >= 1 && segs[0] == b.start && m.Keys <= w
    && (forall k :: 0 <= k < |segs| ==> segs[k] > 0 && Block(segs[k], SegmentSize(b)) <= w)
    && (forall j, k :: 0 <= j < k < |segs| ==> Apart(b, segs[j], segs[k]))
    && (forall k {:trigger NextOf(m, segs[k])} :: 0 <= k < |segs| ==> NextOf(m, segs[k]) == After(segs, k))
  }

  /** No account is overdrawn in this segment. */
  ghost predicate Solvent(m: map<Addr, Word>, a: Addr) {
    forall i :: 0 <= i < CountOf(m, a) ==> AccountOf(m, a, i) >= 0
  }

  /** Every segment but the last is full, and only the first may be empty. */
  ghost predicate Packed(b: Bank, m: map<Addr, Word>, segs: seq<Addr>) {
    forall k :: 0 <= k < |segs| ==>
      && 0 <= CountOf(m, segs[k]) <= b.size
      && (k + 1 < |segs| ==> CountOf(m, segs[k]) == b.size)
      && (k > 0 ==> CountOf(m, segs[k]) > 0)
      && Solvent(m, segs[k])
  }

  /** The bank invariant. `missing` is the money a transaction has taken out and not yet put back. */
  ghost predicate BankOk(b: Bank, m: map<Addr, Word>, segs: seq<Addr>, w: set<Addr>, missing: int) {
    && b.Valid() && Chained(b, m, segs, w) && Packed(b, m, segs)
    && Balanced(b, m, segs, missing)
  }

  ghost predicate Balanced(b: Bank, m: map<Addr, Word>, segs: seq<Addr>, missing: int) {
    Money(m, segs) + missing == Due(b, Accounts(m, segs))
  }

  // ---- what changes when a segment changes

  /** Count, parity and all account slots agree. */
  ghost predicate SameSegment(b: Bank, m: map<Addr, Word>, m': map<Addr, Word>, a: Addr) {
    && CountOf(m', a) == CountOf(m, a) && ParityOf(m', a) == ParityOf(m, a)
    && forall i :: 0 <= i < b.size ==> AccountOf(m', a, i) == AccountOf(m, a, i)
  }

  lemma {:induction false} SumDepends(m: map<Addr, Word>, m': map<Addr, Word>, a: Addr, n: int)
    requires forall i :: 0 <= i < n ==> AccountOf(m', a, i) == AccountOf(m, a, i)
    ensures Sum(m', a, n) == Sum(m, a, n)
    decreases n
  {
    if n > 0 {
      SumDepends(m, m', a, n - 1);
    }
  }

  /** One account of the segment changes: so does its sum, by as much. */
  lemma {:induction false} SumChanges(m: map<Addr, Word>, m': map<Addr, Word>, a: Addr, n: int, i: int)
    requires 0 <= i < n && forall j :: 0 <= j < n && j != i ==> AccountOf(m', a, j) == AccountOf(m, a, j)
    ensures Sum(m', a, n) == Sum(m, a, n) + AccountOf(m', a, i) - AccountOf(m, a, i)
    decreases n
  {
    if i < n - 1 {
      SumChanges(m, m', a, n - 1, i);
    } else {
      SumDepends(m, m', a, n - 1);
    }
  }

  lemma SameIsWorthTheSame(b: Bank, m: map<Addr, Word>, m': map<Addr, Word>, a: Addr)
    requires SameSegment(b, m, m', a) && CountOf(m, a) <= b.size
    ensures Worth(m', a) == Worth(m, a) && (Solvent(m, a) ==> Solvent(m', a))
  {
    SumDepends(m, m', a, CountOf(m, a));
    if Solvent(m, a) {
      forall i | 0 <= i < CountOf(m', a) ensures AccountOf(m', a, i) >= 0 {
        assert AccountOf(m, a, i) >= 0;
      }
    }
  }

  lemma {:induction false} MoneyDepends(b: Bank, m: map<Addr, Word>, m': map<Addr, Word>, segs: seq<Addr>)
    requires forall k :: 0 <= k < |segs| ==>
      Worth(m', segs[k]) == Worth(m, segs[k]) && CountOf(m', segs[k]) == CountOf(m, segs[k])
    ensures Money(m', segs) == Money(m, segs) && Accounts(m', segs) == Accounts(m, segs)
  {
    if |segs| > 0 {
      MoneyDepends(b, m, m', segs[..|segs| - 1]);
    }
  }

  /** Only segment `k` changes: the totals change by what it changes. */
  lemma {:induction false} MoneyChanges(b: Bank, m: map<Addr, Word>, m': map<Addr, Word>, segs: seq<Addr>, k: nat)
    requires k < |segs|
    requires forall j :: 0 <= j < |segs| && j != k ==>
      Worth(m', segs[j]) == Worth(m, segs[j]) && CountOf(m', segs[j]) == CountOf(m, segs[j])
    ensures Money(m', segs) == Money(m, segs) + Worth(m', segs[k]) - Worth(m, segs[k])
    ensures Accounts(m', segs) == Accounts(m, segs) + CountOf(m', segs[k]) - CountOf(m, segs[k])
  {
    if k < |segs| - 1 {
      MoneyChanges(b, m, m', segs[..|segs| - 1], k);
    } else {
      MoneyDepends(b, m, m', segs[..|segs| - 1]);
    }
  }

  /** `m'` agrees with `m` on all segments but `segs[k]`. */
  ghost predicate OnlyAt(b: Bank, m: map<Addr, Word>, m': map<Addr, Word>, segs: seq<Addr>, k: nat) {
    forall j :: 0 <= j < |segs| && j != k ==>
      SameSegment(b, m, m', segs[j]) && NextOf(m', segs[j]) == NextOf(m, segs[j])
  }

  /** Words inside one segment are outside all others. */
  lemma WritesStayInside(b: Bank, m: map<Addr, Word>, m': map<Addr, Word>, segs: seq<Addr>, k: nat)
    requires k < |segs| && forall i, j :: 0 <= i < j < |segs| ==> Apart(b, segs[i], segs[j])
    requires forall y :: Get(m', y) != Get(m, y) ==> Within(b, y, segs[k])
    ensures OnlyAt(b, m, m', segs, k)
  {
    forall j | 0 <= j < |segs| && j != k
      ensures SameSegment(b, m, m', segs[j]) && NextOf(m', segs[j]) == NextOf(m, segs[j])
    {
      assert Apart(b, segs[j], segs[k]) || Apart(b, segs[k], segs[j]);
    }
  }

  lemma InBlock(b: Bank, a: Addr, y: Addr, w: set<Addr>)
    requires Block(a, SegmentSize(b)) <= w && Within(b, y, a)
    ensures y in w
  {
    assert y in Block(a, SegmentSize(b));
  }

  /** The effect of changing one segment of an intact bank, links aside. */
  lemma SegmentChanges(b: Bank, m: map<Addr, Word>, m': map<Addr, Word>, segs: seq<Addr>, k: nat)
    requires k < |segs| && Packed(b, m, segs) && OnlyAt(b, m, m', segs, k)
    requires 0 <= CountOf(m', segs[k]) <= b.size && (k + 1 < |segs| ==> CountOf(m', segs[k]) == b.size)
    requires (k > 0 ==> CountOf(m', segs[k]) > 0) && Solvent(m', segs[k])
    ensures Packed(b, m', segs)
    ensures Money(m', segs) == Money(m, segs) + Worth(m', segs[k]) - Worth(m, segs[k])
    ensures Accounts(m', segs) == Accounts(m, segs) + CountOf(m', segs[k]) - CountOf(m, segs[k])
  {
    forall j | 0 <= j < |segs| && j != k
      ensures Worth(m', segs[j]) == Worth(m, segs[j])
      ensures CountOf(m', segs[j]) == CountOf(m, segs[j]) && Solvent(m', segs[j])
    {
      SameIsWorthTheSame(b, m, m', segs[j]);
    }
    MoneyChanges(b, m, m', segs, k);
  }

  lemma LinksStay(b: Bank, m: map<Addr, Word>, m': map<Addr, Word>, segs: seq<Addr>, w: set<Addr>, k: nat)
    requires Chained(b, m, segs, w) && k < |segs| && OnlyAt(b, m, m', segs, k) && m'.Keys <= w
    requires NextOf(m', segs[k]) == NextOf(m, segs[k])
    ensures Chained(b, m', segs, w)
  {
    forall j | 0 <= j < |segs| ensures NextOf(m', segs[j]) == After(segs, j) {
      assert NextOf(m', segs[j]) == NextOf(m, segs[j]);
    }
  }

  lemma AccountChanges(b: Bank, m: map<Addr, Word>, m': map<Addr, Word>, w: set<Addr>, a: Addr, i: nat, v: Word)
    requires i < CountOf(m, a) <= b.size && v >= 0 && m' == m[a + 3 + i := v]
    requires m.Keys <= w && Block(a, SegmentSize(b)) <= w
    ensures m'.Keys <= w && forall y :: Get(m', y) != Get(m, y) ==> Within(b, y, a)
    ensures NextOf(m', a) == NextOf(m, a) && CountOf(m', a) == CountOf(m, a)
    ensures Worth(m', a) == Worth(m, a) + v - AccountOf(m, a, i)
    ensures Solvent(m, a) ==> Solvent(m', a)
  {
    InBlock(b, a, a + 3 + i, w);
    SumChanges(m, m', a, CountOf(m, a), i);
    forall j | 0 <= j < CountOf(m', a) && Solvent(m, a) ensures AccountOf(m', a, j) >= 0 {
      assert AccountOf(m, a, j) >= 0;
    }
  }

  /** Setting account `i` of segment `k` to `v` moves `v` minus the old balance into the bank. */
  lemma SetAccount(b: Bank, m: map<Addr, Word>, m': map<Addr, Word>, segs: seq<Addr>, w: set<Addr>, missing: int,
                   missing': int, k: nat, a: Addr, i: nat, v: Word)
    requires BankOk(b, m, segs, w, missing) && k < |segs| && a == segs[k] && i < CountOf(m, a) && v >= 0
    requires m' == m[a + 3 + i := v] && missing' == missing - v + AccountOf(m, a, i)
    ensures BankOk(b, m', segs, w, missing')
    ensures forall j :: 0 <= j < |segs| ==> CountOf(m', segs[j]) == CountOf(m, segs[j])
  {
    assert CountOf(m, a) <= b.size && Solvent(m, a) && Block(a, SegmentSize(b)) <= w;
    AccountChanges(b, m, m', w, a, i, v);
    WritesStayInside(b, m, m', segs, k);
    SegmentChanges(b, m, m', segs, k);
    LinksStay(b, m, m', segs, w, k);
  }

  /** `segs` is the list that starts at the first segment. */
  ghost predicate Listed(b: Bank, m: map<Addr, Word>, segs: seq<Addr>) {
    && |segs| > 0 && segs[0] == b.start != 0
    && forall k {:trigger NextOf(m, segs[k])} :: 0 <= k < |segs| ==>
         NextOf(m, segs[k]) == After(segs, k) && (After(segs, k) == 0 <==> k == |segs| - 1)
  }

  lemma LinkAt(b: Bank, m: map<Addr, Word>, segs: seq<Addr>, w: set<Addr>, k: nat)
    requires Chained(b, m, segs, w) && k < |segs|
    ensures NextOf(m, segs[k]) == After(segs, k) && (After(segs, k) == 0 <==> k == |segs| - 1)
  {}

  lemma ChainedIsListed(b: Bank, m: map<Addr, Word>, segs: seq<Addr>, w: set<Addr>)
    requires Chained(b, m, segs, w)
    ensures Listed(b, m, segs)
  {
    forall k | 0 <= k < |segs|
      ensures NextOf(m, segs[k]) == After(segs, k) && (After(segs, k) == 0 <==> k == |segs| - 1)
    {
      LinkAt(b, m, segs, w, k);
    }
  }

  // ---- short_tx

  predicate Reads(e: Event, x: Addr) {
    e.EvRead? && e.x == x
  }

  /** `send_ptr` and `send_id` (or the receiver's): an address once found, and before that the index
      counted from the current segment. */
  datatype Search = Found(ptr: Addr) | Wanted(id: nat)

  function Seek(f: Search, start: Addr, segmentCount: Word): Search {
    if f.Found? then f
    else if f.id < segmentCount then Found(start + 3 + f.id)
    else if segmentCount >= 0 then Wanted(f.id - segmentCount) else f
  }

  /** The logs of `short_tx` from the head of its loop on. */
  predicate ShortTx(send: Search, recv: Search, start: Addr, log: seq<Event>)
    decreases |log|
  {
    |log| >= 1 && Reads(log[0], start) &&
    var send', recv' := Seek(send, start, log[0].v), Seek(recv, start, log[0].v);
    if send'.Found? && recv'.Found? then Transfer(send'.ptr, recv'.ptr, log[1..])
    else
      && |log| >= 2 && Reads(log[1], start + 1)
      && if log[1].v == 0 then |log| == 2 else ShortTx(send', recv', log[1].v, log[2..])
  }

  /** Moving one unit if the sender has one; sender and receiver may be the same account. */
  predicate Transfer(sender: Addr, recver: Addr, log: seq<Event>) {
    |log| >= 1 && Reads(log[0], sender) &&
    if log[0].v > 0 then
      && |log| == 4 && log[1] == EvWrite(sender, log[0].v - 1)
      && Reads(log[2], recver) && log[3] == EvWrite(recver, log[2].v + 1)
    else |log| == 1
  }

  /** The first call of a log happens first. */
  lemma {:induction false} RunFirst(m: map<Addr, Word>, log: seq<Event>)
    requires |log| > 0
    ensures RunLog(m, log) ==
      match RunCall(m, log[0]) { case Mismatch => Outcome.Mismatch case Memory(m1) => RunLog(m1, log[1..]) }
  {
    if |log| > 1 {
      var n := |log| - 1;
      assert log[..n][1..] == log[1..][..n - 1];
      RunFirst(m, log[..n]);
    }
  }

  lemma RunTwoReads(m: map<Addr, Word>, log: seq<Event>, x: Addr, y: Addr, m': map<Addr, Word>)
    requires |log| >= 2 && Reads(log[0], x) && Reads(log[1], y) && RunLog(m, log) == Memory(m')
    ensures log[0].v == Get(m, x) && log[1].v == Get(m, y) && RunLog(m, log[2..]) == Memory(m')
  {
    RunFirst(m, log);
    RunFirst(m, log[1..]);
    assert log[1..][1..] == log[2..];
  }

  ghost predicate AccountAt(m: map<Addr, Word>, segs: seq<Addr>, k: int, i: int, y: Addr) {
    0 <= k < |segs| && 0 <= i < CountOf(m, segs[k]) && y == segs[k] + 3 + i
  }

  /** An account of the bank, by address. */
  ghost predicate IsAccount(m: map<Addr, Word>, segs: seq<Addr>, y: Addr) {
    exists k, i :: AccountAt(m, segs, k, i, y)
  }

  /** `y` is the account with number `id`, counted from zero along the list. */
  ghost predicate Numbered(m: map<Addr, Word>, segs: seq<Addr>, id: int, y: Addr) {
    exists k, i :: AccountAt(m, segs, k, i, y) && Accounts(m, segs[..k]) + i == id
  }

  /** Account `id` has been found, or is the `f.id`-th one after the first `k` segments. */
  ghost predicate Sought(m: map<Addr, Word>, segs: seq<Addr>, k: nat, id: nat, f: Search)
    requires k <= |segs|
  {
    if f.Found? then Numbered(m, segs, id, f.ptr) else Accounts(m, segs[..k]) + f.id == id
  }

  lemma SeekFinds(m: map<Addr, Word>, segs: seq<Addr>, k: nat, id: nat, f: Search)
    requires k < |segs| && CountOf(m, segs[k]) >= 0 && Sought(m, segs, k, id, f)
    ensures Sought(m, segs, k + 1, id, Seek(f, segs[k], CountOf(m, segs[k])))
  {
    assert segs[..k + 1][..k] == segs[..k];
    if f.Wanted? && f.id < CountOf(m, segs[k]) {
      assert AccountAt(m, segs, k, f.id, segs[k] + 3 + f.id);
    }
  }

  lemma NumberIsBelow(m: map<Addr, Word>, segs: seq<Addr>, id: int, y: Addr, k: int, i: int)
    requires forall j :: 0 <= j < |segs| ==> CountOf(m, segs[j]) >= 0
    requires AccountAt(m, segs, k, i, y) && Accounts(m, segs[..k]) + i == id
    ensures Accounts(m, segs[..k]) <= id < Accounts(m, segs[..k + 1]) <= Accounts(m, segs)
  {
    assert segs[..k + 1][..k] == segs[..k];
    AccountsGrow(m, segs, k + 1);
  }

  lemma PrefixAccounts(m: map<Addr, Word>, segs: seq<Addr>, k: nat, k': nat)
    requires k <= k' <= |segs| && forall j :: 0 <= j < |segs| ==> CountOf(m, segs[j]) >= 0
    ensures Accounts(m, segs[..k]) <= Accounts(m, segs[..k'])
  {
    assert segs[..k'][..k] == segs[..k];
    AccountsGrow(m, segs[..k'], k);
  }

  /** The numbers are those below the number of accounts, and each belongs to one account. */
  lemma NumbersAreAccounts(m: map<Addr, Word>, segs: seq<Addr>, id: int)
    requires forall j :: 0 <= j < |segs| ==> CountOf(m, segs[j]) >= 0
    ensures 0 <= id < Accounts(m, segs) <==> exists y :: Numbered(m, segs, id, y)
    ensures forall y, y' :: Numbered(m, segs, id, y) && Numbered(m, segs, id, y') ==> y == y'
  {
    forall y, y' | Numbered(m, segs, id, y) && Numbered(m, segs, id, y')
      ensures y == y' && 0 <= id < Accounts(m, segs)
    {
      var k, i :| AccountAt(m, segs, k, i, y) && Accounts(m, segs[..k]) + i == id;
      var k', i' :| AccountAt(m, segs, k', i', y') && Accounts(m, segs[..k']) + i' == id;
      NumberIsBelow(m, segs, id, y, k, i);
      NumberIsBelow(m, segs, id, y', k', i');
      PrefixAccounts(m, segs, 0, k);
      if k < k' {
        PrefixAccounts(m, segs, k + 1, k');
      } else if k' < k {
        PrefixAccounts(m, segs, k' + 1, k);
      }
    }
    if 0 <= id < Accounts(m, segs) {
      assert segs[..|segs|] == segs;
      NumberExists(m, segs, id, |segs|);
    }
  }

  lemma {:induction false} NumberExists(m: map<Addr, Word>, segs: seq<Addr>, id: int, n: nat)
    requires n <= |segs| && forall j :: 0 <= j < |segs| ==> CountOf(m, segs[j]) >= 0
    requires 0 <= id < Accounts(m, segs[..n])
    ensures exists y :: Numbered(m, segs, id, y)
  {
    var k := n - 1;
    assert segs[..n][..k] == segs[..k];
    if id < Accounts(m, segs[..k]) {
      NumberExists(m, segs, id, k);
    } else {
      var i := id - Accounts(m, segs[..k]);
      assert AccountAt(m, segs, k, i, segs[k] + 3 + i);
      assert Numbered(m, segs, id, segs[k] + 3 + i);
    }
  }

  lemma SetByAddress(b: Bank, m: map<Addr, Word>, m': map<Addr, Word>, segs: seq<Addr>, w: set<Addr>, missing: int,
                     missing': int, y: Addr, v: Word)
    requires BankOk(b, m, segs, w, missing) && IsAccount(m, segs, y) && v >= 0 && m' == m[y := v]
    requires missing' == missing - v + Get(m, y)
    ensures BankOk(b, m', segs, w, missing')
    ensures forall j :: 0 <= j < |segs| ==> CountOf(m', segs[j]) == CountOf(m, segs[j])
  {
    var k, i :| AccountAt(m, segs, k, i, y);
    SetAccount(b, m, m', segs, w, missing, missing', k, segs[k], i, v);
  }

  lemma AccountsAreSolvent(b: Bank, m: map<Addr, Word>, segs: seq<Addr>, y: Addr)
    requires Packed(b, m, segs) && IsAccount(m, segs, y)
    ensures Get(m, y) >= 0
  {
    var k, i :| AccountAt(m, segs, k, i, y);
    assert Solvent(m, segs[k]) && AccountOf(m, segs[k], i) == Get(m, y);
  }

  lemma AccountsStay(m: map<Addr, Word>, m': map<Addr, Word>, segs: seq<Addr>, y: Addr)
    requires IsAccount(m, segs, y) && forall j :: 0 <= j < |segs| ==> CountOf(m', segs[j]) == CountOf(m, segs[j])
    ensures IsAccount(m', segs, y)
  {
    var k, i :| AccountAt(m, segs, k, i, y);
    assert AccountAt(m', segs, k, i, y);
  }

  /** What a transfer does to memory. */
  function Transferred(m: map<Addr, Word>, s: Addr, r: Addr): map<Addr, Word> {
    if Get(m, s) > 0 then
      var m1 := m[s := Get(m, s) - 1];
      m1[r := Get(m1, r) + 1]
    else m
  }

  lemma TransferRuns(m: map<Addr, Word>, s: Addr, r: Addr, log: seq<Event>, m': map<Addr, Word>)
    requires Transfer(s, r, log) && RunLog(m, log) == Memory(m')
    ensures m' == Transferred(m, s, r)
  {
    RunFirst(m, log);
    if log[0].v > 0 {
      var m1 := m[s := log[0].v - 1];
      RunFirst(m, log[1..]);
      RunFirst(m1, log[1..][1..]);
      RunFirst(m1, log[1..][1..][1..]);
    }
  }

  /** A transfer keeps the bank, whatever the two accounts. */
  lemma TransferKeepsBank(b: Bank, m: map<Addr, Word>, segs: seq<Addr>, w: set<Addr>, s: Addr, r: Addr)
    requires BankOk(b, m, segs, w, 0) && IsAccount(m, segs, s) && IsAccount(m, segs, r)
    ensures BankOk(b, Transferred(m, s, r), segs, w, 0)
  {
    if Get(m, s) > 0 {
      var m1 := m[s := Get(m, s) - 1];
      SetByAddress(b, m, m1, segs, w, 0, 1, s, Get(m, s) - 1);
      AccountsStay(m, m1, segs, r);
      AccountsAreSolvent(b, m1, segs, r);
      SetByAddress(b, m1, Transferred(m, s, r), segs, w, 1, 0, r, Get(m1, r) + 1);
    }
  }

  /** One unit has moved from `s` to `r`, if `s` had one and they are two; no other word has changed. */
  ghost predicate Moved(m: map<Addr, Word>, m': map<Addr, Word>, s: Addr, r: Addr) {
    forall y :: Get(m', y) == Get(m, y) + if Get(m, s) <= 0 || s == r then 0
                                          else if y == s then -1 else if y == r then 1 else 0
  }

  /** What `short_tx` is for: the unit moves between the accounts with the two numbers; if one does not exist,
      nothing happens. */
  ghost predicate Paid(m: map<Addr, Word>, m': map<Addr, Word>, segs: seq<Addr>, sendId: nat, recvId: nat) {
    && (forall s, r :: Numbered(m, segs, sendId, s) && Numbered(m, segs, recvId, r) ==> Moved(m, m', s, r))
    && (sendId >= Accounts(m, segs) || recvId >= Accounts(m, segs) ==> m' == m)
  }

  lemma TransferPays(m: map<Addr, Word>, segs: seq<Addr>, sendId: nat, recvId: nat, s: Addr, r: Addr)
    requires forall j :: 0 <= j < |segs| ==> CountOf(m, segs[j]) >= 0
    requires Numbered(m, segs, sendId, s) && Numbered(m, segs, recvId, r)
    ensures Paid(m, Transferred(m, s, r), segs, sendId, recvId)
    ensures IsAccount(m, segs, s) && IsAccount(m, segs, r)
  {
    NumbersAreAccounts(m, segs, sendId);
    NumbersAreAccounts(m, segs, recvId);
    assert Moved(m, Transferred(m, s, r), s, r);
  }

  lemma NothingIsPaid(m: map<Addr, Word>, segs: seq<Addr>, sendId: nat, recvId: nat)
    requires forall j :: 0 <= j < |segs| ==> CountOf(m, segs[j]) >= 0
    requires sendId >= Accounts(m, segs) || recvId >= Accounts(m, segs)
    ensures Paid(m, m, segs, sendId, recvId)
  {
    NumbersAreAccounts(m, segs, sendId);
    NumbersAreAccounts(m, segs, recvId);
  }

  /** `short_tx` moves one unit between the two accounts or does nothing, and keeps the bank: balances stay
      non-negative and no money appears or disappears. */
  lemma {:induction false} ShortTxKeepsBank(b: Bank, m: map<Addr, Word>, segs: seq<Addr>, w: set<Addr>, k: nat,
                                            sendId: nat, recvId: nat, send: Search, recv: Search, log: seq<Event>,
                                            m': map<Addr, Word>)
    requires BankOk(b, m, segs, w, 0) && k < |segs|
    requires Sought(m, segs, k, sendId, send) && Sought(m, segs, k, recvId, recv)
    requires ShortTx(send, recv, segs[k], log) && RunLog(m, log) == Memory(m')
    ensures BankOk(b, m', segs, w, 0) && Paid(m, m', segs, sendId, recvId)
    decreases |segs| - k
  {
    RunFirst(m, log);
    var send', recv' := Seek(send, segs[k], log[0].v), Seek(recv, segs[k], log[0].v);
    SeekFinds(m, segs, k, sendId, send);
    SeekFinds(m, segs, k, recvId, recv);
    if send'.Found? && recv'.Found? {
      TransferRuns(m, send'.ptr, recv'.ptr, log[1..], m');
      TransferPays(m, segs, sendId, recvId, send'.ptr, recv'.ptr);
      TransferKeepsBank(b, m, segs, w, send'.ptr, recv'.ptr);
    } else {
      RunFirst(m, log[1..]);
      assert log[1..][1..] == log[2..];
      LinkAt(b, m, segs, w, k);
      assert log[1].v == NextOf(m, segs[k]);
      if log[1].v != 0 {
        ShortTxKeepsBank(b, m, segs, w, k + 1, sendId, recvId, send', recv', log[2..], m');
      } else {
        assert segs[..k + 1] == segs;
        NothingIsPaid(m, segs, sendId, recvId);
      }
    }
  }
}
