/** `alloc_tx` of `grading/workload.hpp` on a memory that nobody else touches: accounts appear at the end of the
    last segment, or in a new one, and disappear from there. */
module BankAllocation {
  import opened Protocol
  import opened Reference
  import opened Bank

  /** The logs of `alloc_tx` from the head of its loop on: `count` accounts seen before segment `start`. */
  predicate AllocTx(b: Bank, trigger: nat, count: int, prev: Addr, start: Addr, log: seq<Event>)
    decreases |log|
  {
    |log| >= 2 && Reads(log[0], start) && Reads(log[1], start + 1) &&
    var segmentCount, count' := log[0].v, count + log[0].v;
    if log[1].v != 0 then AllocTx(b, trigger, count', start, log[1].v, log[2..])
    else if count' > trigger && count' > 2 then Shrink(b, prev, start, segmentCount - 1, log[2..])
    else if segmentCount < b.size then
      log[2..] == [EvWrite(start + 3 + segmentCount, b.balance), EvWrite(start, segmentCount + 1)]
    else Extend(b, start, log[2..])
  }

  /** Removing the last account of the last segment, and the segment with it if it was the only one there:
      `free` reads the pointer and clears it. */
  predicate Shrink(b: Bank, prev: Addr, start: Addr, left: int, log: seq<Event>) {
    |log| >= 2 && Reads(log[0], start + 2) && Reads(log[1], start + 3 + left) &&
    var newParity := log[0].v + log[1].v - b.balance;
    if left > 0 then
      log[2..] == [EvWrite(start, left), EvWrite(start + 2, newParity)]
    else
      && |log| == 6 && Reads(log[2], prev + 1) && log[3] == EvWrite(prev + 1, 0)
      && Reads(log[4], prev + 2) && log[5] == EvWrite(prev + 2, log[4].v + newParity)
  }

  /** Linking a new segment with one account. */
  predicate Extend(b: Bank, start: Addr, log: seq<Event>) {
    && |log| == 4 && log[0].EvAlloc? && log[0].n == SegmentSize(b)
    && log[1..] == [EvWrite(start + 1, log[0].base), EvWrite(log[0].base, 1), EvWrite(log[0].base + 3, b.balance)]
  }

  /** What the allocator guarantees: a proper address, words nobody was given before, inside `w'`. */
  ghost predicate Fresh(log: seq<Event>, w: set<Addr>, w': set<Addr>) {
    && w <= w'
    && forall i :: 0 <= i < |log| && log[i].EvAlloc? ==>
         && log[i].base > 0 && Block(log[i].base, log[i].n) !! w && Block(log[i].base, log[i].n) <= w'
  }

  // ---- what becomes of the accounts

  /** Every account of the one bank is an account of the other, with the same number, address and balance. */
  ghost predicate Kept(m: map<Addr, Word>, segs: seq<Addr>, m': map<Addr, Word>, segs': seq<Addr>) {
    forall id, y :: Numbered(m, segs, id, y) ==> Numbered(m', segs', id, y) && Get(m', y) == Get(m, y)
  }

  /** There is one account more, behind all others and with the initial balance. */
  ghost predicate OneAdded(b: Bank, m: map<Addr, Word>, segs: seq<Addr>, m': map<Addr, Word>, segs': seq<Addr>) {
    && Accounts(m', segs') == Accounts(m, segs) + 1 && Kept(m, segs, m', segs')
    && exists y :: Numbered(m', segs', Accounts(m, segs), y) && Get(m', y) == b.balance
  }

  /** The last account is no more. */
  ghost predicate OneRemoved(m: map<Addr, Word>, segs: seq<Addr>, m': map<Addr, Word>, segs': seq<Addr>) {
    Accounts(m', segs') == Accounts(m, segs) - 1 && Kept(m', segs', m, segs)
  }

  /** The accounts of segment `k` are still there, all of them unless it is the last segment of `segs'`. */
  ghost predicate KeptAt(m: map<Addr, Word>, segs: seq<Addr>, m': map<Addr, Word>, segs': seq<Addr>, k: nat)
    requires k < |segs| <= |segs'|
  {
    && segs'[k] == segs[k] && CountOf(m, segs[k]) <= CountOf(m', segs[k])
    && (k + 1 < |segs| ==> CountOf(m', segs[k]) == CountOf(m, segs[k]))
    && forall i :: 0 <= i < CountOf(m, segs[k]) ==> AccountOf(m', segs[k], i) == AccountOf(m, segs[k], i)
  }

  lemma {:induction false} SameBefore(m: map<Addr, Word>, segs: seq<Addr>, m': map<Addr, Word>, segs': seq<Addr>,
                                      k: nat)
    requires k < |segs| <= |segs'| && forall j :: 0 <= j < |segs| ==> KeptAt(m, segs, m', segs', j)
    ensures Accounts(m', segs'[..k]) == Accounts(m, segs[..k])
  {
    if k > 0 {
      SameBefore(m, segs, m', segs', k - 1);
      assert KeptAt(m, segs, m', segs', k - 1);
      assert segs[..k][..k - 1] == segs[..k - 1] && segs'[..k][..k - 1] == segs'[..k - 1];
    }
  }

  lemma KeptEverywhere(m: map<Addr, Word>, segs: seq<Addr>, m': map<Addr, Word>, segs': seq<Addr>)
    requires |segs| <= |segs'| && forall k :: 0 <= k < |segs| ==> KeptAt(m, segs, m', segs', k)
    ensures Kept(m, segs, m', segs')
  {
    forall id, y | Numbered(m, segs, id, y) ensures Numbered(m', segs', id, y) && Get(m', y) == Get(m, y) {
      var k, i :| AccountAt(m, segs, k, i, y) && Accounts(m, segs[..k]) + i == id;
      assert KeptAt(m, segs, m', segs', k);
      SameBefore(m, segs, m', segs', k);
      assert AccountAt(m', segs', k, i, y);
      assert AccountOf(m', segs[k], i) == AccountOf(m, segs[k], i);
    }
  }

  // ---- one account more or less

  lemma BankGrowsInto(b: Bank, m: map<Addr, Word>, segs: seq<Addr>, w: set<Addr>, w': set<Addr>)
    requires BankOk(b, m, segs, w, 0) && w <= w'
    ensures BankOk(b, m, segs, w', 0)
  {}

  /** The last segment gains or loses one account, and one initial balance with it. */
  lemma LastChanges(b: Bank, m: map<Addr, Word>, m': map<Addr, Word>, segs: seq<Addr>, w: set<Addr>, d: int)
    requires BankOk(b, m, segs, w, 0) && (d == 1 || d == -1)
    requires var a := segs[|segs| - 1];
      && (forall y :: Get(m', y) != Get(m, y) ==> Within(b, y, a)) && m'.Keys <= w
      && NextOf(m', a) == NextOf(m, a) && CountOf(m', a) == CountOf(m, a) + d && 0 < CountOf(m', a) <= b.size
      && Worth(m', a) == Worth(m, a) + (if d == 1 then b.balance else -b.balance) && Solvent(m', a)
    ensures BankOk(b, m', segs, w, 0) && Accounts(m', segs) == Accounts(m, segs) + d
  {
    var k := |segs| - 1;
    WritesStayInside(b, m, m', segs, k);
    SegmentChanges(b, m, m', segs, k);
    LinksStay(b, m, m', segs, w, k);
    OneMore(b, Accounts(m, segs));
  }

  /** One more account in the last segment. */
  lemma GrowKeepsBank(b: Bank, m: map<Addr, Word>, m': map<Addr, Word>, segs: seq<Addr>, w: set<Addr>, a: Addr)
    requires BankOk(b, m, segs, w, 0) && a == segs[|segs| - 1] && CountOf(m, a) < b.size
    requires m' == m[a + 3 + CountOf(m, a) := b.balance][a := CountOf(m, a) + 1]
    ensures BankOk(b, m', segs, w, 0) && OneAdded(b, m, segs, m', segs)
  {
    assert 0 <= CountOf(m, a) && Solvent(m, a) && Block(a, SegmentSize(b)) <= w;
    GrowChanges(b, m, m', w, a);
    LastChanges(b, m, m', segs, w, 1);
    WritesStayInside(b, m, m', segs, |segs| - 1);
    AddedToLast(b, m, m', segs, a);
  }

  lemma AddedToLast(b: Bank, m: map<Addr, Word>, m': map<Addr, Word>, segs: seq<Addr>, a: Addr)
    requires Packed(b, m, segs) && |segs| > 0 && a == segs[|segs| - 1] && OnlyAt(b, m, m', segs, |segs| - 1)
    requires CountOf(m', a) == CountOf(m, a) + 1 && Accounts(m', segs) == Accounts(m, segs) + 1
    requires forall i :: 0 <= i < CountOf(m, a) ==> AccountOf(m', a, i) == AccountOf(m, a, i)
    requires AccountOf(m', a, CountOf(m, a)) == b.balance
    ensures OneAdded(b, m, segs, m', segs)
  {
    var k, n := |segs| - 1, CountOf(m, a);
    forall j | 0 <= j < |segs| ensures KeptAt(m, segs, m', segs, j) {}
    KeptEverywhere(m, segs, m', segs);
    SameBefore(m, segs, m', segs, k);
    assert AccountAt(m', segs, k, n, a + 3 + n) && Accounts(m', segs[..k]) + n == Accounts(m, segs);
    assert Numbered(m', segs, Accounts(m, segs), a + 3 + n);
  }

  lemma GrowChanges(b: Bank, m: map<Addr, Word>, m': map<Addr, Word>, w: set<Addr>, a: Addr)
    requires 0 <= CountOf(m, a) < b.size && m' == m[a + 3 + CountOf(m, a) := b.balance][a := CountOf(m, a) + 1]
    requires Solvent(m, a) && b.balance >= 0 && m.Keys <= w && Block(a, SegmentSize(b)) <= w
    ensures m'.Keys <= w && forall y :: Get(m', y) != Get(m, y) ==> Within(b, y, a)
    ensures NextOf(m', a) == NextOf(m, a) && CountOf(m', a) == CountOf(m, a) + 1
    ensures Worth(m', a) == Worth(m, a) + b.balance && Solvent(m', a)
    ensures forall i :: 0 <= i < CountOf(m, a) ==> AccountOf(m', a, i) == AccountOf(m, a, i)
    ensures AccountOf(m', a, CountOf(m, a)) == b.balance
  {
    InBlock(b, a, a, w);
    InBlock(b, a, a + 3 + CountOf(m, a), w);
    SumDepends(m, m', a, CountOf(m, a));
    forall i | 0 <= i < CountOf(m', a) ensures AccountOf(m', a, i) >= 0 {
      assert i < CountOf(m, a) ==> AccountOf(m, a, i) >= 0;
    }
  }

  lemma OneMore(b: Bank, n: int)
    ensures Due(b, n + 1) == Due(b, n) + b.balance && Due(b, n - 1) == Due(b, n) - b.balance
  {}

  /** One account less in a last segment that keeps at least one: its money stays, as parity. */
  lemma ShrinkKeepsBank(b: Bank, m: map<Addr, Word>, m': map<Addr, Word>, segs: seq<Addr>, w: set<Addr>, a: Addr,
                        left: int)
    requires BankOk(b, m, segs, w, 0) && a == segs[|segs| - 1] && left == CountOf(m, a) - 1 && left > 0
    requires m' == m[a := left][a + 2 := ParityOf(m, a) + AccountOf(m, a, left) - b.balance]
    ensures BankOk(b, m', segs, w, 0) && OneRemoved(m, segs, m', segs)
  {
    assert Solvent(m, a) && Block(a, SegmentSize(b)) <= w;
    ShrinkChanges(b, m, m', w, a, left);
    LastChanges(b, m, m', segs, w, -1);
    WritesStayInside(b, m, m', segs, |segs| - 1);
    forall j | 0 <= j < |segs| ensures KeptAt(m', segs, m, segs, j) {}
    KeptEverywhere(m', segs, m, segs);
  }

  lemma ShrinkChanges(b: Bank, m: map<Addr, Word>, m': map<Addr, Word>, w: set<Addr>, a: Addr, left: int)
    requires left == CountOf(m, a) - 1 && left > 0
    requires m' == m[a := left][a + 2 := ParityOf(m, a) + AccountOf(m, a, left) - b.balance]
    requires Solvent(m, a) && m.Keys <= w && Block(a, SegmentSize(b)) <= w
    ensures m'.Keys <= w && forall y :: Get(m', y) != Get(m, y) ==> Within(b, y, a)
    ensures NextOf(m', a) == NextOf(m, a) && CountOf(m', a) == left
    ensures Worth(m', a) == Worth(m, a) - b.balance && Solvent(m', a)
    ensures forall i :: 0 <= i < left ==> AccountOf(m', a, i) == AccountOf(m, a, i)
  {
    InBlock(b, a, a, w);
    InBlock(b, a, a + 2, w);
    SumDepends(m, m', a, left);
    forall i | 0 <= i < CountOf(m', a) ensures AccountOf(m', a, i) >= 0 {
      assert AccountOf(m, a, i) >= 0;
    }
  }

  /** Deleting a last segment with one account: its money and parity move to the segment before. */
  lemma DeleteKeepsBank(b: Bank, m: map<Addr, Word>, m': map<Addr, Word>, segs: seq<Addr>, w: set<Addr>)
    requires BankOk(b, m, segs, w, 0) && |segs| >= 2 && CountOf(m, segs[|segs| - 1]) == 1
    requires var a, prev := segs[|segs| - 1], segs[|segs| - 2];
      m' == m[prev + 1 := 0][prev + 2 := ParityOf(m, prev) + ParityOf(m, a) + AccountOf(m, a, 0) - b.balance]
    ensures BankOk(b, m', segs[..|segs| - 1], w, 0) && OneRemoved(m, segs, m', segs[..|segs| - 1])
  {
    var k := |segs| - 2;
    var rest, a, prev := segs[..|segs| - 1], segs[k + 1], segs[k];
    assert m'.Keys <= w by {
      InBlock(b, prev, prev + 1, w);
      InBlock(b, prev, prev + 2, w);
    }
    assert Packed(b, m, rest);
    WritesStayInside(b, m, m', rest, k);
    SumDepends(m, m', prev, CountOf(m, prev));
    assert Worth(m, a) == ParityOf(m, a) + AccountOf(m, a, 0);
    assert Solvent(m', prev) by {
      SolventDepends(m, m', prev);
    }
    SegmentChanges(b, m, m', rest, k);
    Unlinked(b, m, m', segs, w);
    OneMore(b, Accounts(m, segs));
    forall j | 0 <= j < |rest| ensures KeptAt(m', rest, m, segs, j) {}
    KeptEverywhere(m', rest, m, segs);
  }

  lemma SolventDepends(m: map<Addr, Word>, m': map<Addr, Word>, a: Addr)
    requires Solvent(m, a) && CountOf(m', a) == CountOf(m, a)
    requires forall i :: 0 <= i < CountOf(m, a) ==> AccountOf(m', a, i) == AccountOf(m, a, i)
    ensures Solvent(m', a)
  {
    forall i | 0 <= i < CountOf(m', a) ensures AccountOf(m', a, i) >= 0 {
      assert AccountOf(m, a, i) >= 0;
    }
  }

  lemma Unlinked(b: Bank, m: map<Addr, Word>, m': map<Addr, Word>, segs: seq<Addr>, w: set<Addr>)
    requires Chained(b, m, segs, w) && |segs| >= 2 && m'.Keys <= w
    requires OnlyAt(b, m, m', segs[..|segs| - 1], |segs| - 2) && NextOf(m', segs[|segs| - 2]) == 0
    ensures Chained(b, m', segs[..|segs| - 1], w)
  {
    var rest := segs[..|segs| - 1];
    forall j | 0 <= j < |rest| ensures NextOf(m', rest[j]) == After(rest, j) {
      assert j < |segs| - 2 ==> NextOf(m', rest[j]) == NextOf(m, segs[j]);
    }
  }

  /** A new last segment with one account, on words that are still zero. */
  lemma ExtendKeepsBank(b: Bank, m: map<Addr, Word>, m': map<Addr, Word>, segs: seq<Addr>, w: set<Addr>, a: Addr,
                        base: Addr, w': set<Addr>)
    requires BankOk(b, m, segs, w, 0) && a == segs[|segs| - 1] && CountOf(m, a) == b.size
    requires w <= w' && base > 0 && Block(base, SegmentSize(b)) !! w && Block(base, SegmentSize(b)) <= w'
    requires m' == m[a + 1 := base][base := 1][base + 3 := b.balance]
    ensures BankOk(b, m', segs + [base], w', 0) && OneAdded(b, m, segs, m', segs + [base])
  {
    assert Block(a, SegmentSize(b)) <= w;
    NewIsApart(b, m, segs, w, base);
    assert Apart(b, a, base);
    NewSegment(b, m, m', w, a, base, w');
    OldStaysPut(b, m, m', segs, a, base);
    Linked(b, m, m', segs, w, base, w');
    Appended(b, m, m', segs, base);
    AddedBehind(b, m, m', segs, base);
  }

  lemma AddedBehind(b: Bank, m: map<Addr, Word>, m': map<Addr, Word>, segs: seq<Addr>, base: Addr)
    requires Packed(b, m, segs) && forall j :: 0 <= j < |segs| ==> SameSegment(b, m, m', segs[j])
    requires CountOf(m', base) == 1 && AccountOf(m', base, 0) == b.balance
    ensures OneAdded(b, m, segs, m', segs + [base])
  {
    var segs' := segs + [base];
    forall j | 0 <= j < |segs| ensures KeptAt(m, segs, m', segs', j) {}
    KeptEverywhere(m, segs, m', segs');
    assert segs'[..|segs|] == segs;
    MoneySame(b, m, m', segs);
    assert AccountAt(m', segs', |segs|, 0, base + 3);
    assert Numbered(m', segs', Accounts(m, segs), base + 3);
  }

  lemma MoneySame(b: Bank, m: map<Addr, Word>, m': map<Addr, Word>, segs: seq<Addr>)
    requires Packed(b, m, segs) && forall j :: 0 <= j < |segs| ==> SameSegment(b, m, m', segs[j])
    ensures Accounts(m', segs) == Accounts(m, segs)
  {
    forall j | 0 <= j < |segs|
      ensures Worth(m', segs[j]) == Worth(m, segs[j]) && CountOf(m', segs[j]) == CountOf(m, segs[j])
    {
      SameIsWorthTheSame(b, m, m', segs[j]);
    }
    MoneyDepends(b, m, m', segs);
  }

  lemma NewSegment(b: Bank, m: map<Addr, Word>, m': map<Addr, Word>, w: set<Addr>, a: Addr, base: Addr, w': set<Addr>)
    requires b.Valid() && m.Keys <= w <= w' && Block(a, SegmentSize(b)) <= w && Apart(b, a, base)
    requires Block(base, SegmentSize(b)) !! w && Block(base, SegmentSize(b)) <= w'
    requires m' == m[a + 1 := base][base := 1][base + 3 := b.balance]
    ensures m'.Keys <= w' && NextOf(m', a) == base
    ensures NextOf(m', base) == 0 && CountOf(m', base) == 1 && Worth(m', base) == b.balance && Solvent(m', base)
  {
    InBlock(b, a, a + 1, w);
    InBlock(b, base, base, w');
    InBlock(b, base, base + 3, w');
    NewIsZero(b, m, w, base);
    assert Sum(m', base, 1) == Sum(m', base, 0) + AccountOf(m', base, 0);
  }

  lemma Appended(b: Bank, m: map<Addr, Word>, m': map<Addr, Word>, segs: seq<Addr>, base: Addr)
    requires b.size >= 1 && |segs| > 0 && Packed(b, m, segs) && Balanced(b, m, segs, 0)
    requires CountOf(m, segs[|segs| - 1]) == b.size
    requires forall j :: 0 <= j < |segs| ==>
      Worth(m', segs[j]) == Worth(m, segs[j]) && CountOf(m', segs[j]) == CountOf(m, segs[j]) && Solvent(m', segs[j])
    requires CountOf(m', base) == 1 && Worth(m', base) == b.balance && Solvent(m', base)
    ensures Packed(b, m', segs + [base]) && Balanced(b, m', segs + [base], 0)
  {
    MoneyDepends(b, m, m', segs);
    assert (segs + [base])[..|segs|] == segs;
    OneMore(b, Accounts(m, segs));
  }

  lemma NewIsApart(b: Bank, m: map<Addr, Word>, segs: seq<Addr>, w: set<Addr>, base: Addr)
    requires Chained(b, m, segs, w) && Block(base, SegmentSize(b)) !! w
    ensures forall j :: 0 <= j < |segs| ==> Apart(b, segs[j], base)
  {
    forall j | 0 <= j < |segs| ensures Apart(b, segs[j], base) {
      assert base in Block(base, SegmentSize(b)) && segs[j] in Block(segs[j], SegmentSize(b));
      assert base !in Block(segs[j], SegmentSize(b)) && segs[j] !in Block(base, SegmentSize(b));
    }
  }

  lemma NewIsZero(b: Bank, m: map<Addr, Word>, w: set<Addr>, base: Addr)
    requires m.Keys <= w && Block(base, SegmentSize(b)) !! w
    ensures forall y :: Within(b, y, base) ==> Get(m, y) == 0
  {
    forall y | Within(b, y, base) ensures Get(m, y) == 0 {
      assert y in Block(base, SegmentSize(b));
    }
  }

  lemma ExtendSpares(b: Bank, m: map<Addr, Word>, m': map<Addr, Word>, a: Addr, base: Addr, a': Addr)
    requires Apart(b, a', base) && (a' == a || Apart(b, a', a)) && b.size >= 1
    requires m' == m[a + 1 := base][base := 1][base + 3 := b.balance]
    ensures SameSegment(b, m, m', a') && (a' != a ==> NextOf(m', a') == NextOf(m, a'))
  {}

  /** Linking a new segment leaves the old ones as they were, but for the last link. */
  lemma OldStaysPut(b: Bank, m: map<Addr, Word>, m': map<Addr, Word>, segs: seq<Addr>, a: Addr, base: Addr)
    requires |segs| > 0 && a == segs[|segs| - 1] && b.size >= 1 && Packed(b, m, segs)
    requires forall i, j :: 0 <= i < j < |segs| ==> Apart(b, segs[i], segs[j])
    requires forall j :: 0 <= j < |segs| ==> Apart(b, segs[j], base)
    requires m' == m[a + 1 := base][base := 1][base + 3 := b.balance]
    ensures OnlyAt(b, m, m', segs, |segs| - 1)
    ensures forall j :: 0 <= j < |segs| ==> SameSegment(b, m, m', segs[j])
    ensures forall j :: 0 <= j < |segs| ==>
      Worth(m', segs[j]) == Worth(m, segs[j]) && CountOf(m', segs[j]) == CountOf(m, segs[j]) && Solvent(m', segs[j])
  {
    var k := |segs| - 1;
    forall j | 0 <= j < |segs|
      ensures SameSegment(b, m, m', segs[j]) && (j != k ==> NextOf(m', segs[j]) == NextOf(m, segs[j]))
      ensures Worth(m', segs[j]) == Worth(m, segs[j])
      ensures CountOf(m', segs[j]) == CountOf(m, segs[j]) && Solvent(m', segs[j])
    {
      assert Apart(b, segs[j], base) && (j != k ==> Apart(b, segs[j], a));
      ExtendSpares(b, m, m', a, base, segs[j]);
      SameIsWorthTheSame(b, m, m', segs[j]);
    }
  }

  lemma Linked(b: Bank, m: map<Addr, Word>, m': map<Addr, Word>, segs: seq<Addr>, w: set<Addr>, base: Addr,
               w': set<Addr>)
    requires Chained(b, m, segs, w) && OnlyAt(b, m, m', segs, |segs| - 1) && m'.Keys <= w' && w <= w'
    requires base > 0 && Block(base, SegmentSize(b)) <= w' && forall j :: 0 <= j < |segs| ==> Apart(b, segs[j], base)
    requires NextOf(m', segs[|segs| - 1]) == base && NextOf(m', base) == 0
    ensures Chained(b, m', segs + [base], w')
  {
    var segs' := segs + [base];
    forall j | 0 <= j < |segs'| ensures NextOf(m', segs'[j]) == After(segs', j) {
      assert j < |segs| - 1 ==> NextOf(m', segs[j]) == NextOf(m, segs[j]);
    }
  }

  lemma ShrinkRuns(b: Bank, m: map<Addr, Word>, prev: Addr, a: Addr, left: int, log: seq<Event>, m': map<Addr, Word>)
    requires Shrink(b, prev, a, left, log) && RunLog(m, log) == Memory(m')
    ensures var newParity := ParityOf(m, a) + AccountOf(m, a, left) - b.balance;
      m' == if left > 0 then m[a := left][a + 2 := newParity]
            else var m1 := m[prev + 1 := 0]; m1[prev + 2 := ParityOf(m1, prev) + newParity]
  {
    RunFirst(m, log);
    RunFirst(m, log[1..]);
    assert log[1..][1..] == log[2..];
    if left > 0 {
      RunFirst(m, log[2..]);
      RunFirst(m[a := left], log[2..][1..]);
    } else {
      assert log[2..][0] == log[2] && log[2..][1] == log[3] && log[2..][2] == log[4] && log[2..][3] == log[5];
      var m1 := m[prev + 1 := 0];
      RunFirst(m, log[2..]);
      RunFirst(m, log[2..][1..]);
      RunFirst(m1, log[2..][1..][1..]);
      RunFirst(m1, log[2..][1..][1..][1..]);
    }
  }

  lemma ExtendRuns(b: Bank, m: map<Addr, Word>, a: Addr, log: seq<Event>, m': map<Addr, Word>)
    requires Extend(b, a, log) && RunLog(m, log) == Memory(m')
    ensures m' == m[a + 1 := log[0].base][log[0].base := 1][log[0].base + 3 := b.balance]
  {
    var base := log[0].base;
    assert log[1..][0] == log[1] && log[1..][1] == log[2] && log[1..][2] == log[3];
    RunFirst(m, log);
    RunFirst(m, log[1..]);
    RunFirst(m[a + 1 := base], log[1..][1..]);
    RunFirst(m[a + 1 := base][base := 1], log[1..][1..][1..]);
  }

  lemma GrowRuns(b: Bank, m: map<Addr, Word>, a: Addr, n: int, log: seq<Event>, m': map<Addr, Word>)
    requires log == [EvWrite(a + 3 + n, b.balance), EvWrite(a, n + 1)] && RunLog(m, log) == Memory(m')
    ensures m' == m[a + 3 + n := b.balance][a := n + 1]
  {
    RunFirst(m, log);
    RunFirst(m[a + 3 + n := b.balance], log[1..]);
  }

  /** All words that change belong to the last segment, as it was or as it is now. */
  ghost predicate OnlyEndChanges(b: Bank, m: map<Addr, Word>, segs: seq<Addr>, m': map<Addr, Word>, segs': seq<Addr>) {
    |segs| > 0 && |segs'| > 0 &&
    forall y :: Get(m', y) != Get(m, y) ==> Within(b, y, segs[|segs| - 1]) || Within(b, y, segs'[|segs'| - 1])
  }

  lemma ShrinkTouchesEnd(b: Bank, m: map<Addr, Word>, m': map<Addr, Word>, segs: seq<Addr>, left: int, parity: Word)
    requires |segs| > 0 && m' == m[segs[|segs| - 1] := left][segs[|segs| - 1] + 2 := parity]
    ensures OnlyEndChanges(b, m, segs, m', segs)
  {}

  lemma DeleteTouchesEnd(b: Bank, m: map<Addr, Word>, m': map<Addr, Word>, segs: seq<Addr>, parity: Word)
    requires |segs| >= 2 && m' == m[segs[|segs| - 2] + 1 := 0][segs[|segs| - 2] + 2 := parity]
    ensures OnlyEndChanges(b, m, segs, m', segs[..|segs| - 1])
  {}

  lemma GrowTouchesEnd(b: Bank, m: map<Addr, Word>, m': map<Addr, Word>, segs: seq<Addr>, n: int)
    requires |segs| > 0 && 0 <= n < b.size
    requires m' == m[segs[|segs| - 1] + 3 + n := b.balance][segs[|segs| - 1] := n + 1]
    ensures OnlyEndChanges(b, m, segs, m', segs)
  {}

  lemma ExtendTouchesEnd(b: Bank, m: map<Addr, Word>, m': map<Addr, Word>, segs: seq<Addr>, base: Addr)
    requires |segs| > 0 && b.size >= 1
    requires m' == m[segs[|segs| - 1] + 1 := base][base := 1][base + 3 := b.balance]
    ensures OnlyEndChanges(b, m, segs, m', segs + [base])
  {}

  lemma ShrinkTxKeepsBank(b: Bank, m: map<Addr, Word>, segs: seq<Addr>, w: set<Addr>, prev: Addr, a: Addr,
                          log: seq<Event>, m': map<Addr, Word>) returns (segs': seq<Addr>)
    requires BankOk(b, m, segs, w, 0) && a == segs[|segs| - 1] && Accounts(m, segs) > 2
    requires |segs| >= 2 ==> prev == segs[|segs| - 2]
    requires Shrink(b, prev, a, CountOf(m, a) - 1, log) && RunLog(m, log) == Memory(m')
    ensures BankOk(b, m', segs', w, 0) && OneRemoved(m, segs, m', segs')
    ensures (segs' == segs || segs' == segs[..|segs| - 1]) && OnlyEndChanges(b, m, segs, m', segs')
  {
    var left := CountOf(m, a) - 1;
    ShrinkRuns(b, m, prev, a, left, log, m');
    if left > 0 {
      ShrinkKeepsBank(b, m, m', segs, w, a, left);
      ShrinkTouchesEnd(b, m, m', segs, left, ParityOf(m', a));
      segs' := segs;
    } else {
      LastHasOne(b, m, segs, a);
      assert Apart(b, prev, a);
      DeleteKeepsBank(b, m, m', segs, w);
      DeleteTouchesEnd(b, m, m', segs, ParityOf(m', prev));
      segs' := segs[..|segs| - 1];
    }
  }

  /** All segments before the last are full, so with more than two accounts in all, a last segment with one
      account has a predecessor. */
  lemma LastHasOne(b: Bank, m: map<Addr, Word>, segs: seq<Addr>, a: Addr)
    requires |segs| > 0 && Packed(b, m, segs) && a == segs[|segs| - 1] && Accounts(m, segs) > 2 && CountOf(m, a) <= 1
    ensures |segs| >= 2 && CountOf(m, a) == 1
  {}

  /** The loop of `alloc_tx` ends at the last segment, having counted all accounts before it. */
  lemma {:induction false} AllocReachesLast(b: Bank, m: map<Addr, Word>, segs: seq<Addr>, trigger: nat, k: nat,
                                            prev: Addr,
                                            log: seq<Event>, m': map<Addr, Word>)
    returns (prev': Addr, n: nat)
    requires Listed(b, m, segs) && k < |segs| && (k > 0 ==> prev == segs[k - 1])
    requires AllocTx(b, trigger, Accounts(m, segs[..k]), prev, segs[k], log) && RunLog(m, log) == Memory(m')
    ensures |segs| >= 2 ==> prev' == segs[|segs| - 2]
    ensures n <= |log| - 2 && RunLog(m, log[n + 2..]) == Memory(m')
    ensures log[n].EvRead? && log[n].v == CountOf(m, segs[|segs| - 1])
    ensures AllocTx(b, trigger, Accounts(m, segs[..|segs| - 1]), prev', segs[|segs| - 1], log[n..]) && log[n + 1].v == 0
    decreases |segs| - k
  {
    RunTwoReads(m, log, segs[k], segs[k] + 1, m');
    assert log[1].v == NextOf(m, segs[k]);
    if k + 1 < |segs| {
      assert segs[..k + 1][..k] == segs[..k];
      var n';
      prev', n' := AllocReachesLast(b, m, segs, trigger, k + 1, segs[k], log[2..], m');
      n := n' + 2;
      assert log[2..][n'..] == log[n..] && log[2..][n' + 2..] == log[n + 2..];
    } else {
      prev', n := prev, 0;
      assert log[0..] == log;
    }
  }

  /** With more accounts than the trigger, and more than two, the last one is removed, and its segment with it if
      it was alone there; otherwise one is added behind, in the last segment or in a new one. */
  ghost predicate AllocDone(b: Bank, trigger: nat, m: map<Addr, Word>, segs: seq<Addr>, m': map<Addr, Word>,
                            segs': seq<Addr>)
    requires |segs| > 0
  {
    OnlyEndChanges(b, m, segs, m', segs') &&
    if Accounts(m, segs) > trigger && Accounts(m, segs) > 2 then
      OneRemoved(m, segs, m', segs') && (segs' == segs || segs' == segs[..|segs| - 1])
    else
      OneAdded(b, m, segs, m', segs') && (segs' == segs || exists base :: segs' == segs + [base])
  }

  /** `alloc_tx` keeps the bank: one account more or less, one initial balance more or less, segments packed. */
  lemma AllocTxKeepsBank(b: Bank, m: map<Addr, Word>, segs: seq<Addr>, w: set<Addr>, w': set<Addr>, trigger: nat,
                         log: seq<Event>, m': map<Addr, Word>)
    returns (segs': seq<Addr>)
    requires BankOk(b, m, segs, w, 0) && AllocTx(b, trigger, 0, 0, b.start, log) && RunLog(m, log) == Memory(m')
    requires Fresh(log, w, w')
    ensures BankOk(b, m', segs', w', 0) && AllocDone(b, trigger, m, segs, m', segs')
    ensures Accounts(m', segs') ==
      Accounts(m, segs) + if Accounts(m, segs) > trigger && Accounts(m, segs) > 2 then -1 else 1
    ensures |segs'| > |segs| ==> exists i :: 0 <= i < |log| && log[i].EvAlloc? && segs' == segs + [log[i].base]
  {
    assert Accounts(m, segs[..0]) == 0;
    ChainedIsListed(b, m, segs, w);
    var prev, n := AllocReachesLast(b, m, segs, trigger, 0, 0, log, m');
    FreshTail(log, n + 2, w, w');
    assert log[n..][2..] == log[n + 2..];
    segs' := AtLastSegment(b, m, segs, w, w', trigger, prev, segs[|segs| - 1], log[n..], m');
    assert |segs'| > |segs| ==> log[n + 2] == log[n..][2];
  }

  lemma FreshTail(log: seq<Event>, n: nat, w: set<Addr>, w': set<Addr>)
    requires Fresh(log, w, w') && n <= |log|
    ensures Fresh(log[n..], w, w')
  {}

  lemma AtLastSegment(b: Bank, m: map<Addr, Word>, segs: seq<Addr>, w: set<Addr>, w': set<Addr>, trigger: nat,
                      prev: Addr, a: Addr, log: seq<Event>, m': map<Addr, Word>)
    returns (segs': seq<Addr>)
    requires BankOk(b, m, segs, w, 0) && a == segs[|segs| - 1] && (|segs| >= 2 ==> prev == segs[|segs| - 2])
    requires AllocTx(b, trigger, Accounts(m, segs[..|segs| - 1]), prev, a, log) && log[1].v == 0
    requires log[0].v == CountOf(m, a) && RunLog(m, log[2..]) == Memory(m')
    requires w <= w' && Fresh(log[2..], w, w')
    ensures BankOk(b, m', segs', w', 0) && AllocDone(b, trigger, m, segs, m', segs')
    ensures |segs'| > |segs| ==> |log| > 2 && log[2].EvAlloc? && segs' == segs + [log[2].base]
  {
    var n := CountOf(m, a);
    if Accounts(m, segs) > trigger && Accounts(m, segs) > 2 {
      segs' := ShrinkTxKeepsBank(b, m, segs, w, prev, a, log[2..], m');
      BankGrowsInto(b, m', segs', w, w');
    } else if n < b.size {
      GrowRuns(b, m, a, n, log[2..], m');
      GrowKeepsBank(b, m, m', segs, w, a);
      GrowTouchesEnd(b, m, m', segs, n);
      segs' := segs;
      BankGrowsInto(b, m', segs, w, w');
    } else {
      ExtendRuns(b, m, a, log[2..], m');
      ExtendKeepsBank(b, m, m', segs, w, a, log[2..][0].base, w');
      ExtendTouchesEnd(b, m, m', segs, log[2].base);
      segs' := segs + [log[2].base];
    }
  }
}
