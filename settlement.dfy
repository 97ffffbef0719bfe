/** The settlement engine (script.js `calculateSettlements` and
    `greedySettlement`): an optional running-balance tally over the archive,
    then greedy pairing of sorted debtors with sorted creditors. */
module Settlement {
  import opened Basics
  import opened Records

  // ---------------------------------------------------------------------
  // Sums over balances

  /** Sum of all nets. */
  function Total(bs: seq<Balance>): int
  {
    if bs == [] then 0 else bs[0].net + Total(bs[1..])
  }

  /** Sum of the nets of the entries named `n`. */
  function SumFor(bs: seq<Balance>, n: string): int
  {
    if bs == [] then 0
    else (if bs[0].name == n then bs[0].net else 0) + SumFor(bs[1..], n)
  }

  function Names(bs: seq<Balance>): set<string>
  {
    set k | 0 <= k < |bs| :: bs[k].name
  }

  lemma {:induction false} SumsConcat(a: seq<Balance>, b: seq<Balance>, n: string)
    ensures Total(a + b) == Total(a) + Total(b)
    ensures SumFor(a + b, n) == SumFor(a, n) + SumFor(b, n)
  {
    if a != [] {
      assert (a + b)[0] == a[0];
      assert (a + b)[1..] == a[1..] + b;
      SumsConcat(a[1..], b, n);
    } else {
      assert a + b == b;
    }
  }

  // ---------------------------------------------------------------------
  // Partition and order

  predicate AllNegative(bs: seq<Balance>) { forall k :: 0 <= k < |bs| ==> bs[k].net < 0 }

  predicate AllPositive(bs: seq<Balance>) { forall k :: 0 <= k < |bs| ==> bs[k].net > 0 }

  /** `results.filter(r => r.net < 0)` */
  function Debtors(bs: seq<Balance>): (r: seq<Balance>)
    ensures AllNegative(r)
  {
    if bs == [] then []
    else (if bs[0].net < 0 then [bs[0]] else []) + Debtors(bs[1..])
  }

  /** `results.filter(r => r.net > 0)` */
  function Creditors(bs: seq<Balance>): (r: seq<Balance>)
    ensures AllPositive(r)
  {
    if bs == [] then []
    else (if bs[0].net > 0 then [bs[0]] else []) + Creditors(bs[1..])
  }

  /** The debtors are exactly the entries with a negative net, the
      creditors those with a positive one. */
  lemma {:induction false} PartitionMembers(bs: seq<Balance>, x: Balance)
    ensures x in Debtors(bs) <==> x in bs && x.net < 0
    ensures x in Creditors(bs) <==> x in bs && x.net > 0
  {
    if bs != [] {
      PartitionMembers(bs[1..], x);
      assert x in bs <==> x == bs[0] || x in bs[1..];
    }
  }

  /** Zero-net entries are dropped by the partition without changing any sum. */
  lemma {:induction false} PartitionSums(bs: seq<Balance>, n: string)
    ensures Total(bs) == Total(Debtors(bs)) + Total(Creditors(bs))
    ensures SumFor(bs, n) == SumFor(Debtors(bs), n) + SumFor(Creditors(bs), n)
  {
    if bs != [] {
      var h, tl := bs[0], bs[1..];
      PartitionSums(tl, n);
      var d, c := Debtors(tl), Creditors(tl);
      if h.net < 0 {
        assert Debtors(bs) == [h] + d && Creditors(bs) == c;
        SumsConcat([h], d, n);
      } else if h.net > 0 {
        assert Debtors(bs) == d && Creditors(bs) == [h] + c;
        SumsConcat([h], c, n);
      } else {
        assert Debtors(bs) == d && Creditors(bs) == c;
      }
    }
  }

  function NetKey(b: Balance): int { b.net }

  function NegatedNetKey(b: Balance): int { -b.net }

  /** Debtors, most negative first (`sort((a, b) => a.net - b.net)`). */
  function SortedDebtors(bs: seq<Balance>): seq<Balance>
  {
    SortBy(Debtors(bs), NetKey)
  }

  /** Creditors, largest first (`sort((a, b) => b.net - a.net)`). */
  function SortedCreditors(bs: seq<Balance>): seq<Balance>
  {
    SortBy(Creditors(bs), NegatedNetKey)
  }

  lemma {:induction false} InsertBySums(x: Balance, xs: seq<Balance>, key: Balance -> int, n: string)
    ensures Total(InsertBy(x, xs, key)) == x.net + Total(xs)
    ensures SumFor(InsertBy(x, xs, key), n) == SumFor([x] + xs, n)
  {
    if xs == [] || key(x) <= key(xs[0]) {
    } else {
      InsertBySums(x, xs[1..], key, n);
      var r := InsertBy(x, xs, key);
      assert r[1..] == InsertBy(x, xs[1..], key);
      assert ([x] + xs)[1..] == xs;
      assert ([x] + xs[1..])[1..] == xs[1..];
    }
  }

  /** Sorting changes neither the total nor any name's sum. */
  lemma {:induction false} SortBySums(xs: seq<Balance>, key: Balance -> int, n: string)
    ensures Total(SortBy(xs, key)) == Total(xs)
    ensures SumFor(SortBy(xs, key), n) == SumFor(xs, n)
  {
    if xs != [] {
      SortBySums(xs[1..], key, n);
      InsertBySums(xs[0], SortBy(xs[1..], key), key, n);
      assert ([xs[0]] + SortBy(xs[1..], key))[1..] == SortBy(xs[1..], key);
    }
  }

  lemma SortedPartsShape(bs: seq<Balance>)
    ensures AllNegative(SortedDebtors(bs)) && AllPositive(SortedCreditors(bs))
    ensures |SortedDebtors(bs)| == |Debtors(bs)| && |SortedCreditors(bs)| == |Creditors(bs)|
  {
    var ds, cs := SortedDebtors(bs), SortedCreditors(bs);
    forall k | 0 <= k < |ds| ensures ds[k].net < 0 {
      assert ds[k] in multiset(Debtors(bs));
    }
    forall k | 0 <= k < |cs| ensures cs[k].net > 0 {
      assert cs[k] in multiset(Creditors(bs));
    }
  }

  lemma SortedPartsMembers(bs: seq<Balance>, x: Balance)
    ensures x in SortedDebtors(bs) <==> x in bs && x.net < 0
    ensures x in SortedCreditors(bs) <==> x in bs && x.net > 0
  {
    PartitionMembers(bs, x);
    assert x in SortedDebtors(bs) <==> x in multiset(Debtors(bs));
    assert x in SortedCreditors(bs) <==> x in multiset(Creditors(bs));
  }

  /** Debtors come out most negative first, creditors largest first. */
  lemma SortedPartsOrder(bs: seq<Balance>)
    ensures forall a, b :: 0 <= a < b < |SortedDebtors(bs)| ==>
              SortedDebtors(bs)[a].net <= SortedDebtors(bs)[b].net
    ensures forall a, b :: 0 <= a < b < |SortedCreditors(bs)| ==>
              SortedCreditors(bs)[a].net >= SortedCreditors(bs)[b].net
  {
    SortBySorted(Debtors(bs), NetKey);
    SortBySorted(Creditors(bs), NegatedNetKey);
  }

  // ---------------------------------------------------------------------
  // The greedy walk, as a specification

  /** Moves the head balance by `delta` and drops it once it reaches zero
      (the cursor advance of the loop). */
  function Advance(bs: seq<Balance>, delta: int): seq<Balance>
    requires bs != []
  {
    var h := bs[0].(net := bs[0].net + delta);
    if h.net == 0 then bs[1..] else [h] + bs[1..]
  }

  lemma AdvanceSums(bs: seq<Balance>, delta: int, n: string)
    requires bs != []
    ensures Total(Advance(bs, delta)) == Total(bs) + delta
    ensures SumFor(Advance(bs, delta), n) == SumFor(bs, n) + (if bs[0].name == n then delta else 0)
    ensures Names(Advance(bs, delta)) <= Names(bs)
  {
    var h := bs[0].(net := bs[0].net + delta);
    if h.net != 0 {
      assert ([h] + bs[1..])[1..] == bs[1..];
    }
    forall x | x in Names(Advance(bs, delta)) ensures x in Names(bs) {
      var k :| 0 <= k < |Advance(bs, delta)| && Advance(bs, delta)[k].name == x;
      if h.net == 0 { assert bs[k + 1].name == x; }
      else if k > 0 { assert bs[k].name == x; }
      else { assert bs[0].name == x; }
    }
  }

  /** The transfers the two-cursor walk emits from the current heads of
      `ds` (all owing) and `cs` (all owed). Each step pays the smaller of
      the head debt and the head credit, which zeroes at least one head.
      That payment is always positive here (`SettleParties`), so the
      source's `amount > 0` guard never drops one and is left out. */
  function Settle(ds: seq<Balance>, cs: seq<Balance>): seq<Transfer>
    requires AllNegative(ds) && AllPositive(cs)
    decreases |ds| + |cs|
  {
    if ds == [] || cs == [] then []
    else
      var amount := Min(Abs(ds[0].net), cs[0].net);
      var ds', cs' := Advance(ds, amount), Advance(cs, -amount);
      assert AllNegative(ds') && AllPositive(cs');
      [Transfer(ds[0].name, cs[0].name, amount)] + Settle(ds', cs')
  }

  /** The transfers `greedySettlement` emits for `bs`. */
  function Transfers(bs: seq<Balance>): seq<Transfer>
  {
    SortedPartsShape(bs);
    Settle(SortedDebtors(bs), SortedCreditors(bs))
  }

  /** The lines `greedySettlement` returns: the payments, or the sentinel
      when there is none. */
  function Lines(ts: seq<Transfer>): (ls: seq<Line>)
    ensures ls == [AllSettled] <==> ts == []
    ensures ts != [] ==> |ls| == |ts| && forall k :: 0 <= k < |ts| ==> ls[k] == Payment(ts[k])
  {
    if ts == [] then [AllSettled]
    else
      var ls := seq(|ts|, k requires 0 <= k < |ts| => Payment(ts[k]));
      assert ls[0] != AllSettled;
      ls
  }

  function GreedyLines(bs: seq<Balance>): seq<Line>
  {
    Lines(Transfers(bs))
  }

  // ---------------------------------------------------------------------
  // What applying transfers does to balances

  /** What `n` pays in `ts`. */
  function Paid(ts: seq<Transfer>, n: string): int
  {
    if ts == [] then 0 else (if ts[0].from == n then ts[0].amount else 0) + Paid(ts[1..], n)
  }

  /** What `n` receives in `ts`. */
  function Received(ts: seq<Transfer>, n: string): int
  {
    if ts == [] then 0 else (if ts[0].to == n then ts[0].amount else 0) + Received(ts[1..], n)
  }

  // ---------------------------------------------------------------------
  // Properties of the walk

  /** The walk emits nothing exactly when one side is empty, and otherwise
      at most one transfer fewer than there are balances. */
  lemma {:induction false} SettleLength(ds: seq<Balance>, cs: seq<Balance>)
    requires AllNegative(ds) && AllPositive(cs)
    ensures Settle(ds, cs) == [] <==> ds == [] || cs == []
    ensures ds != [] && cs != [] ==> |Settle(ds, cs)| + 1 <= |ds| + |cs|
    decreases |ds| + |cs|
  {
    if ds != [] && cs != [] {
      var amount := Min(Abs(ds[0].net), cs[0].net);
      var ds', cs' := Advance(ds, amount), Advance(cs, -amount);
      assert AllNegative(ds') && AllPositive(cs');
      SettleLength(ds', cs');
    }
  }

  /** Every transfer goes from an owing name to an owed name, for a
      positive amount. */
  lemma {:induction false} SettleParties(ds: seq<Balance>, cs: seq<Balance>)
    requires AllNegative(ds) && AllPositive(cs)
    ensures forall t :: t in Settle(ds, cs) ==>
      t.amount > 0 && t.from in Names(ds) && t.to in Names(cs)
    decreases |ds| + |cs|
  {
    if ds != [] && cs != [] {
      var amount := Min(Abs(ds[0].net), cs[0].net);
      var ds', cs' := Advance(ds, amount), Advance(cs, -amount);
      assert AllNegative(ds') && AllPositive(cs');
      SettleParties(ds', cs');
      AdvanceSums(ds, amount, "");
      AdvanceSums(cs, -amount, "");
      assert ds[0].name in Names(ds) && cs[0].name in Names(cs);
    }
  }

  lemma PositiveTotal(cs: seq<Balance>)
    requires AllPositive(cs) && cs != []
    ensures Total(cs) > 0
  {
    if cs[1..] != [] {
      PositiveTotal(cs[1..]);
    }
  }

  lemma NegativeTotal(ds: seq<Balance>)
    requires AllNegative(ds) && ds != []
    ensures Total(ds) < 0
  {
    if ds[1..] != [] {
      NegativeTotal(ds[1..]);
    }
  }

  /** When debts and credits balance, paying the transfers zeroes every
      name: what a name owes plus what it pays minus what it receives is 0. */
  lemma {:induction false} SettleConserves(ds: seq<Balance>, cs: seq<Balance>, n: string)
    requires AllNegative(ds) && AllPositive(cs)
    requires Total(ds) + Total(cs) == 0
    ensures SumFor(ds, n) + SumFor(cs, n)
            + Paid(Settle(ds, cs), n) - Received(Settle(ds, cs), n) == 0
    decreases |ds| + |cs|
  {
    if ds == [] {
      if cs != [] { PositiveTotal(cs); }
    } else if cs == [] {
      NegativeTotal(ds);
    } else {
      var amount := Min(Abs(ds[0].net), cs[0].net);
      var ds', cs' := Advance(ds, amount), Advance(cs, -amount);
      assert AllNegative(ds') && AllPositive(cs');
      AdvanceSums(ds, amount, n);
      AdvanceSums(cs, -amount, n);
      SettleConserves(ds', cs', n);
      var t := Transfer(ds[0].name, cs[0].name, amount);
      var rest := Settle(ds', cs');
      assert Settle(ds, cs) == [t] + rest;
      assert ([t] + rest)[1..] == rest;
    }
  }

  // ---------------------------------------------------------------------
  // Properties of greedySettlement

  /** If the nets sum to zero, applying the emitted transfers brings every
      name's balance to zero. */
  lemma GreedyConserves(bs: seq<Balance>, n: string)
    requires Total(bs) == 0
    ensures SumFor(bs, n) + Paid(Transfers(bs), n) - Received(Transfers(bs), n) == 0
  {
    SortedPartsShape(bs);
    PartitionSums(bs, n);
    SortBySums(Debtors(bs), NetKey, n);
    SortBySums(Creditors(bs), NegatedNetKey, n);
    SettleConserves(SortedDebtors(bs), SortedCreditors(bs), n);
  }

  /** Every payment is positive, from a name whose net is negative to a
      name whose net is positive. */
  lemma GreedyParties(bs: seq<Balance>)
    ensures forall t :: t in Transfers(bs) ==>
      && t.amount > 0
      && (exists d :: d in bs && d.name == t.from && d.net < 0)
      && (exists c :: c in bs && c.name == t.to && c.net > 0)
  {
    SortedPartsShape(bs);
    var ds, cs := SortedDebtors(bs), SortedCreditors(bs);
    SettleParties(ds, cs);
    forall t | t in Transfers(bs)
      ensures (exists d :: d in bs && d.name == t.from && d.net < 0)
      ensures (exists c :: c in bs && c.name == t.to && c.net > 0)
    {
      var p :| 0 <= p < |ds| && ds[p].name == t.from;
      SortedPartsMembers(bs, ds[p]);
      var q :| 0 <= q < |cs| && cs[q].name == t.to;
      SortedPartsMembers(bs, cs[q]);
    }
  }

  /** At most |debtors| + |creditors| - 1 payments, and none when either
      side is empty. */
  lemma GreedyCount(bs: seq<Balance>)
    ensures Debtors(bs) == [] || Creditors(bs) == [] ==> Transfers(bs) == []
    ensures Debtors(bs) != [] && Creditors(bs) != [] ==>
      |Transfers(bs)| + 1 <= |Debtors(bs)| + |Creditors(bs)|
  {
    SortedPartsShape(bs);
    SettleLength(SortedDebtors(bs), SortedCreditors(bs));
  }

  /** Nobody owes exactly when no net is negative; nobody is owed exactly
      when no net is positive. */
  lemma PartitionEmpty(bs: seq<Balance>)
    ensures Debtors(bs) == [] <==> forall k :: 0 <= k < |bs| ==> bs[k].net >= 0
    ensures Creditors(bs) == [] <==> forall k :: 0 <= k < |bs| ==> bs[k].net <= 0
  {
    if Debtors(bs) != [] {
      PartitionMembers(bs, Debtors(bs)[0]);
    }
    if Creditors(bs) != [] {
      PartitionMembers(bs, Creditors(bs)[0]);
    }
    forall k | 0 <= k < |bs| ensures bs[k] in bs {
    }
    forall k | 0 <= k < |bs| {
      PartitionMembers(bs, bs[k]);
    }
  }

  /** The result is the sentinel exactly when nobody owes or nobody is owed. */
  lemma GreedyAllSettled(bs: seq<Balance>)
    ensures GreedyLines(bs) == [AllSettled] <==>
      (forall k :: 0 <= k < |bs| ==> bs[k].net >= 0) || (forall k :: 0 <= k < |bs| ==> bs[k].net <= 0)
  {
    SortedPartsShape(bs);
    SettleLength(SortedDebtors(bs), SortedCreditors(bs));
    PartitionEmpty(bs);
    var ts := Transfers(bs);
    if ts != [] {
      assert Lines(ts)[0] == Payment(ts[0]);
    }
  }

  /** For balanced nets, "All settled!" is returned exactly when every net is zero. */
  lemma BalancedAllSettled(bs: seq<Balance>)
    requires Total(bs) == 0
    ensures GreedyLines(bs) == [AllSettled] <==> forall k :: 0 <= k < |bs| ==> bs[k].net == 0
  {
    GreedyAllSettled(bs);
    PartitionSums(bs, "");
    PartitionEmpty(bs);
    if Debtors(bs) != [] { NegativeTotal(Debtors(bs)); }
    if Creditors(bs) != [] { PositiveTotal(Creditors(bs)); }
  }

  // ---------------------------------------------------------------------
  // The method

  /** One step of the walk: the head debtor pays the head creditor the
      smaller of the two balances, then both heads advance. */
  lemma SettleStep(ds: seq<Balance>, cs: seq<Balance>, amount: int)
    requires AllNegative(ds) && AllPositive(cs) && ds != [] && cs != []
    requires amount == Min(Abs(ds[0].net), cs[0].net)
    ensures Settle(ds, cs) == [Transfer(ds[0].name, cs[0].name, amount)]
                              + Settle(Advance(ds, amount), Advance(cs, -amount))
  {
  }

  /** Changing element `i` in place and then moving the cursor past it when
      it reached zero leaves the same suffix as `Advance`. */
  lemma AdvanceInPlace(bs: seq<Balance>, bs': seq<Balance>, i: int, delta: int, i': int)
    requires 0 <= i < |bs| == |bs'|
    requires bs'[i] == bs[i].(net := bs[i].net + delta)
    requires forall k :: 0 <= k < |bs| && k != i ==> bs'[k] == bs[k]
    requires i' == if bs'[i].net == 0 then i + 1 else i
    ensures bs'[i'..] == Advance(bs[i..], delta)
  {
    assert bs'[i + 1..] == bs[i..][1..];
    assert bs'[i..] == [bs'[i]] + bs'[i + 1..];
  }

  predicate NegativeFrom(bs: seq<Balance>, i: int) { forall k :: 0 <= k < |bs| && i <= k ==> bs[k].net < 0 }

  predicate PositiveFrom(bs: seq<Balance>, i: int) { forall k :: 0 <= k < |bs| && i <= k ==> bs[k].net > 0 }

  /** The two-cursor walk over working copies, state for state as the loop
      of `greedySettlement` runs it: pay the smaller head balance, update both
      copies in place, advance each cursor whose balance reached zero. */
  function Walk(ds: seq<Balance>, cs: seq<Balance>, i: int, j: int): seq<Transfer>
    requires 0 <= i <= |ds| && 0 <= j <= |cs|
    requires NegativeFrom(ds, i) && PositiveFrom(cs, j)
    decreases |ds| - i + |cs| - j
  {
    if i == |ds| || j == |cs| then []
    else
      var amount := Min(Abs(ds[i].net), cs[j].net);
      var ds' := ds[i := ds[i].(net := ds[i].net + amount)];
      var cs' := cs[j := cs[j].(net := cs[j].net - amount)];
      var i' := if ds'[i].net == 0 then i + 1 else i;
      var j' := if cs'[j].net == 0 then j + 1 else j;
      (if amount > 0 then [Transfer(ds[i].name, cs[j].name, amount)] else []) + Walk(ds', cs', i', j')
  }

  /** The in-place walk emits what the list walk `Settle` emits from the
      cursors onward. */
  lemma {:induction false} WalkIsSettle(ds: seq<Balance>, cs: seq<Balance>, i: int, j: int)
    requires 0 <= i <= |ds| && 0 <= j <= |cs|
    requires NegativeFrom(ds, i) && PositiveFrom(cs, j)
    ensures AllNegative(ds[i..]) && AllPositive(cs[j..])
    ensures Walk(ds, cs, i, j) == Settle(ds[i..], cs[j..])
    decreases |ds| - i + |cs| - j
  {
    if i < |ds| && j < |cs| {
      var amount := Min(Abs(ds[i].net), cs[j].net);
      var ds' := ds[i := ds[i].(net := ds[i].net + amount)];
      var cs' := cs[j := cs[j].(net := cs[j].net - amount)];
      var i' := if ds'[i].net == 0 then i + 1 else i;
      var j' := if cs'[j].net == 0 then j + 1 else j;
      WalkStepShape(ds, cs, i, j, amount, ds', cs', i', j');
      WalkIsSettle(ds', cs', i', j');
      WalkStepIsSettleStep(ds, cs, i, j, amount, ds', cs', i', j');
    }
  }

  /** The inductive step of `WalkIsSettle`: if the walk from the next state
      is the settlement of the remaining suffixes, so is the walk from this one. */
  lemma WalkStepIsSettleStep(ds: seq<Balance>, cs: seq<Balance>, i: int, j: int, amount: int,
                             ds': seq<Balance>, cs': seq<Balance>, i': int, j': int)
    requires 0 <= i < |ds| && 0 <= j < |cs|
    requires NegativeFrom(ds, i) && PositiveFrom(cs, j)
    requires amount == Min(Abs(ds[i].net), cs[j].net)
    requires ds' == ds[i := ds[i].(net := ds[i].net + amount)]
    requires cs' == cs[j := cs[j].(net := cs[j].net - amount)]
    requires i' == if ds'[i].net == 0 then i + 1 else i
    requires j' == if cs'[j].net == 0 then j + 1 else j
    requires amount > 0 && i' <= |ds'| && j' <= |cs'|
    requires NegativeFrom(ds', i') && PositiveFrom(cs', j')
    requires AllNegative(ds'[i'..]) && AllPositive(cs'[j'..])
    requires Walk(ds', cs', i', j') == Settle(ds'[i'..], cs'[j'..])
    ensures AllNegative(ds[i..]) && AllPositive(cs[j..])
    ensures Walk(ds, cs, i, j) == Settle(ds[i..], cs[j..])
  {
    WalkStepUnfold(ds, cs, i, j, amount, ds', cs', i', j');
    SuffixSigns(ds, cs, i, j);
    SuffixAdvance(ds, cs, i, j, amount, ds', cs', i', j');
    SuffixStep(ds, cs, i, j, amount, ds', cs', i', j');
  }

  /** Cursor-relative signs are the signs of the suffixes. */
  lemma SuffixSigns(ds: seq<Balance>, cs: seq<Balance>, i: int, j: int)
    requires 0 <= i <= |ds| && 0 <= j <= |cs|
    requires NegativeFrom(ds, i) && PositiveFrom(cs, j)
    ensures AllNegative(ds[i..]) && AllPositive(cs[j..])
  {
    forall k | 0 <= k < |ds| - i ensures ds[i..][k].net < 0 { assert ds[i..][k] == ds[i + k]; }
    forall k | 0 <= k < |cs| - j ensures cs[j..][k].net > 0 { assert cs[j..][k] == cs[j + k]; }
  }

  /** The in-place updates of one iteration leave, from the next cursors,
      exactly the advanced suffixes. */
  lemma SuffixAdvance(ds: seq<Balance>, cs: seq<Balance>, i: int, j: int, amount: int,
                      ds': seq<Balance>, cs': seq<Balance>, i': int, j': int)
    requires 0 <= i < |ds| && 0 <= j < |cs|
    requires ds' == ds[i := ds[i].(net := ds[i].net + amount)]
    requires cs' == cs[j := cs[j].(net := cs[j].net - amount)]
    requires i' == if ds'[i].net == 0 then i + 1 else i
    requires j' == if cs'[j].net == 0 then j + 1 else j
    ensures i' <= |ds'| && j' <= |cs'|
    ensures ds'[i'..] == Advance(ds[i..], amount) && cs'[j'..] == Advance(cs[j..], -amount)
  {
    AdvanceInPlace(ds, ds', i, amount, i');
    AdvanceInPlace(cs, cs', j, -amount, j');
  }

  /** The same iteration read on the suffixes: one `Settle` step from
      `ds[i..]` and `cs[j..]` leaves the suffixes at the next cursors. */
  lemma SuffixStep(ds: seq<Balance>, cs: seq<Balance>, i: int, j: int, amount: int,
                   ds': seq<Balance>, cs': seq<Balance>, i': int, j': int)
    requires 0 <= i < |ds| && 0 <= j < |cs| && 0 <= i' <= |ds'| && 0 <= j' <= |cs'|
    requires AllNegative(ds[i..]) && AllPositive(cs[j..])
    requires amount == Min(Abs(ds[i].net), cs[j].net)
    requires ds'[i'..] == Advance(ds[i..], amount) && cs'[j'..] == Advance(cs[j..], -amount)
    ensures AllNegative(ds'[i'..]) && AllPositive(cs'[j'..])
    ensures Settle(ds[i..], cs[j..])
            == [Transfer(ds[i].name, cs[j].name, amount)] + Settle(ds'[i'..], cs'[j'..])
  {
    assert ds[i..][0] == ds[i] && cs[j..][0] == cs[j];
    SettleStep(ds[i..], cs[j..], amount);
  }

  /** One iteration of the loop, with the updated copies and cursors
      given explicitly: a positive payment, and at least one cursor moves
      past a balance that reached zero. */
  lemma WalkStepShape(ds: seq<Balance>, cs: seq<Balance>, i: int, j: int, amount: int,
                      ds': seq<Balance>, cs': seq<Balance>, i': int, j': int)
    requires 0 <= i < |ds| && 0 <= j < |cs|
    requires NegativeFrom(ds, i) && PositiveFrom(cs, j)
    requires amount == Min(Abs(ds[i].net), cs[j].net)
    requires ds' == ds[i := ds[i].(net := ds[i].net + amount)]
    requires cs' == cs[j := cs[j].(net := cs[j].net - amount)]
    requires i' == if ds'[i].net == 0 then i + 1 else i
    requires j' == if cs'[j].net == 0 then j + 1 else j
    ensures amount > 0 && i' <= |ds'| && j' <= |cs'| && i' + j' > i + j
    ensures NegativeFrom(ds', i') && PositiveFrom(cs', j')
  {
  }

  /** The walk from one iteration's state is its payment followed by the
      walk from the next state. */
  lemma WalkStepUnfold(ds: seq<Balance>, cs: seq<Balance>, i: int, j: int, amount: int,
                       ds': seq<Balance>, cs': seq<Balance>, i': int, j': int)
    requires 0 <= i < |ds| && 0 <= j < |cs|
    requires NegativeFrom(ds, i) && PositiveFrom(cs, j)
    requires amount == Min(Abs(ds[i].net), cs[j].net)
    requires ds' == ds[i := ds[i].(net := ds[i].net + amount)]
    requires cs' == cs[j := cs[j].(net := cs[j].net - amount)]
    requires i' == if ds'[i].net == 0 then i + 1 else i
    requires j' == if cs'[j].net == 0 then j + 1 else j
    requires amount > 0 && i' <= |ds'| && j' <= |cs'|
    requires NegativeFrom(ds', i') && PositiveFrom(cs', j')
    ensures Walk(ds, cs, i, j) == [Transfer(ds[i].name, cs[j].name, amount)] + Walk(ds', cs', i', j')
  {
  }

  /** The loop of script.js `greedySettlement`: walks working copies of the
      sorted debtors and creditors with two cursors, paying the smaller of
      the two head balances and advancing every cursor whose balance
      reached zero. */
  method PairOff(debtors0: seq<Balance>, creditors0: seq<Balance>) returns (transactions: seq<Transfer>)
    requires NegativeFrom(debtors0, 0) && PositiveFrom(creditors0, 0)
    ensures transactions == Walk(debtors0, creditors0, 0, 0)
  {
    var debtors, creditors := debtors0, creditors0;
    transactions := [];
    var i, j := 0, 0;
    while i < |debtors| && j < |creditors|
      invariant 0 <= i <= |debtors| && 0 <= j <= |creditors|
      invariant NegativeFrom(debtors, i) && PositiveFrom(creditors, j)
      invariant transactions + Walk(debtors, creditors, i, j) == Walk(debtors0, creditors0, 0, 0)
      decreases |debtors| - i + |creditors| - j
    {
      var debt := Abs(debtors[i].net);
      var credit := creditors[j].net;
      var amount := Min(debt, credit);
      ghost var ds, cs, i0, j0, done := debtors, creditors, i, j, transactions;
      if amount > 0 {
        transactions := transactions + [Transfer(debtors[i].name, creditors[j].name, amount)];
      }
      debtors := debtors[i := debtors[i].(net := debtors[i].net + amount)];
      creditors := creditors[j := creditors[j].(net := creditors[j].net - amount)];
      if debtors[i].net == 0 {
        i := i + 1;
      }
      if creditors[j].net == 0 {
        j := j + 1;
      }
      WalkStepShape(ds, cs, i0, j0, amount, debtors, creditors, i, j);
      WalkStepUnfold(ds, cs, i0, j0, amount, debtors, creditors, i, j);
      ghost var t := Transfer(ds[i0].name, cs[j0].name, amount);
      assert done + ([t] + Walk(debtors, creditors, i, j)) == transactions + Walk(debtors, creditors, i, j);
    }
  }

  /** script.js `greedySettlement`: debtors ascending and creditors
      descending, paired off; the "All settled!" sentinel when no payment
      was emitted. */
  method GreedySettlement(results: seq<Balance>) returns (lines: seq<Line>)
    ensures lines == GreedyLines(results)
  {
    var debtors, creditors := SortedDebtors(results), SortedCreditors(results);
    SortedPartsShape(results);
    var transactions := PairOff(debtors, creditors);
    WalkIsSettle(debtors, creditors, 0, 0);
    assert debtors[0..] == debtors && creditors[0..] == creditors;
    if |transactions| == 0 {
      lines := [AllSettled];
    } else {
      lines := seq(|transactions|, k requires 0 <= k < |transactions| => Payment(transactions[k]));
    }
  }

  // ---------------------------------------------------------------------
  // Running balances

  /** `{ name, net }` of each result. */
  function Balances(rs: seq<Result>): seq<Balance>
  {
    seq(|rs|, k requires 0 <= k < |rs| => Balance(rs[k].name, rs[k].net))
  }

  /** The results of every archived session, in archive order. */
  function ArchivedResults(hs: seq<Session>): seq<Result>
  {
    if hs == [] then [] else hs[0].results + ArchivedResults(hs[1..])
  }

  /** No name has two entries. */
  predicate DistinctNames(t: seq<Balance>)
  {
    forall a, b :: 0 <= a < b < |t| ==> t[a].name != t[b].name
  }

  /** Position of the entry named `n` in a tally, if there is one. */
  function Find(t: seq<Balance>, n: string): (r: Option<nat>)
    ensures r.Some? ==> r.value < |t| && t[r.value].name == n
    ensures r.None? ==> forall k :: 0 <= k < |t| ==> t[k].name != n
  {
    if t == [] then None
    else if t[0].name == n then Some(0)
    else
      match Find(t[1..], n)
      case None => None
      case Some(k) => Some(k + 1)
  }

  /** One step of the tally (`tally[r.name] += r.net`): a new name becomes a
      new key at the end, a known name adds to its entry in place. */
  function AddToTally(t: seq<Balance>, b: Balance): seq<Balance>
  {
    match Find(t, b.name)
    case None => t + [b]
    case Some(k) => t[k := t[k].(net := t[k].net + b.net)]
  }

  /** The tally map built over `bs` in order, as its keys enumerate. */
  function Tally(bs: seq<Balance>): seq<Balance>
  {
    if bs == [] then [] else AddToTally(Tally(bs[..|bs| - 1]), bs[|bs| - 1])
  }

  /** What `calculateSettlements` hands to the settler: in running-balance
      mode with an archive, the tally of every archived result followed by
      the current results; otherwise the current results themselves. */
  function WorkingBalances(results: seq<Result>, running: bool, history: Option<seq<Session>>): seq<Balance>
  {
    if running && history.Some? then Tally(Balances(ArchivedResults(history.value)) + Balances(results))
    else Balances(results)
  }

  /** Changing one entry's net by `d` changes the total, and the sum of that
      entry's name, by `d`. */
  lemma {:induction false} SumsUpdate(t: seq<Balance>, k: int, d: int, n: string)
    requires 0 <= k < |t|
    ensures Total(t[k := t[k].(net := t[k].net + d)]) == Total(t) + d
    ensures SumFor(t[k := t[k].(net := t[k].net + d)], n) == SumFor(t, n) + (if t[k].name == n then d else 0)
  {
    var t' := t[k := t[k].(net := t[k].net + d)];
    if k == 0 {
      assert t'[1..] == t[1..];
    } else {
      assert t'[0] == t[0];
      assert t'[1..] == t[1..][k - 1 := t[k].(net := t[k].net + d)];
      SumsUpdate(t[1..], k - 1, d, n);
    }
  }

  lemma NamesConcat(a: seq<Balance>, b: seq<Balance>)
    ensures Names(a + b) == Names(a) + Names(b)
  {
    var r := a + b;
    forall x | x in Names(r) ensures x in Names(a) + Names(b) {
      var k :| 0 <= k < |r| && r[k].name == x;
      if k < |a| { assert r[k] == a[k]; } else { assert r[k] == b[k - |a|]; }
    }
    forall x | x in Names(a) + Names(b) ensures x in Names(r) {
      if x in Names(a) {
        var k :| 0 <= k < |a| && a[k].name == x;
        assert r[k] == a[k];
      } else {
        var k :| 0 <= k < |b| && b[k].name == x;
        assert r[|a| + k] == b[k];
      }
    }
  }

  /** A tally step for a new name: appended at the end. */
  lemma TallyAppend(t: seq<Balance>, b: Balance)
    requires DistinctNames(t)
    requires forall k :: 0 <= k < |t| ==> t[k].name != b.name
    ensures DistinctNames(t + [b])
    ensures Names(t + [b]) == Names(t) + {b.name}
    ensures Total(t + [b]) == Total(t) + b.net
    ensures forall n :: SumFor(t + [b], n) == SumFor(t, n) + (if n == b.name then b.net else 0)
  {
    forall n ensures SumFor(t + [b], n) == SumFor(t, n) + (if n == b.name then b.net else 0) {
      SumsConcat(t, [b], n);
    }
    SumsConcat(t, [b], "");
    NamesConcat(t, [b]);
    assert Names([b]) == {b.name} by { assert [b][0] == b; }
  }

  /** A tally step for a known name: that entry's net grows in place. */
  lemma TallyUpdate(t: seq<Balance>, k: int, d: int)
    requires DistinctNames(t) && 0 <= k < |t|
    ensures DistinctNames(t[k := t[k].(net := t[k].net + d)])
    ensures Names(t[k := t[k].(net := t[k].net + d)]) == Names(t)
    ensures Total(t[k := t[k].(net := t[k].net + d)]) == Total(t) + d
    ensures forall n :: SumFor(t[k := t[k].(net := t[k].net + d)], n)
                        == SumFor(t, n) + (if n == t[k].name then d else 0)
  {
    var r := t[k := t[k].(net := t[k].net + d)];
    forall n ensures SumFor(r, n) == SumFor(t, n) + (if n == t[k].name then d else 0) {
      SumsUpdate(t, k, d, n);
    }
    SumsUpdate(t, k, d, "");
    forall x | x in Names(t) ensures x in Names(r) {
      var a :| 0 <= a < |t| && t[a].name == x;
      assert r[a].name == x;
    }
    forall x | x in Names(r) ensures x in Names(t) {
      var a :| 0 <= a < |r| && r[a].name == x;
      assert t[a].name == x;
    }
  }

  /** One tally step keeps names distinct and earlier entries in place, adds
      `b.name` to the names, and adds `b.net` to that name's sum alone. */
  lemma AddToTallySpec(t: seq<Balance>, b: Balance)
    requires DistinctNames(t)
    ensures DistinctNames(AddToTally(t, b))
    ensures Names(AddToTally(t, b)) == Names(t) + {b.name}
    ensures |t| <= |AddToTally(t, b)| <= |t| + 1
    ensures forall k :: 0 <= k < |t| ==> AddToTally(t, b)[k].name == t[k].name
    ensures Total(AddToTally(t, b)) == Total(t) + b.net
    ensures forall n :: SumFor(AddToTally(t, b), n) == SumFor(t, n) + (if n == b.name then b.net else 0)
  {
    match Find(t, b.name)
    case None =>
      TallyAppend(t, b);
    case Some(k) =>
      TallyUpdate(t, k, b.net);
  }

  /** The tally has one entry per distinct name of `bs`, and each name's
      entry sums that name's nets: no amount is lost or counted twice. */
  lemma {:induction false} TallySpec(bs: seq<Balance>)
    ensures DistinctNames(Tally(bs))
    ensures Names(Tally(bs)) == Names(bs)
    ensures Total(Tally(bs)) == Total(bs)
    ensures forall n :: SumFor(Tally(bs), n) == SumFor(bs, n)
  {
    if bs != [] {
      var init, last := bs[..|bs| - 1], bs[|bs| - 1];
      assert bs == init + [last];
      TallySpec(init);
      AddToTallySpec(Tally(init), last);
      forall n ensures SumFor(Tally(bs), n) == SumFor(bs, n) {
        SumsConcat(init, [last], n);
      }
      SumsConcat(init, [last], "");
      NamesConcat(init, [last]);
      assert Names([last]) == {last.name} by { assert [last][0] == last; }
    }
  }

  /** A name with no entry sums to zero. */
  lemma {:induction false} SumForAbsent(t: seq<Balance>, n: string)
    requires forall k :: 0 <= k < |t| ==> t[k].name != n
    ensures SumFor(t, n) == 0
  {
    if t != [] {
      assert t[0].name != n;
      SumForAbsent(t[1..], n);
    }
  }

  /** With distinct names, an entry's net is its name's whole sum. */
  lemma {:induction false} DistinctEntrySum(t: seq<Balance>, k: int)
    requires DistinctNames(t) && 0 <= k < |t|
    ensures t[k].net == SumFor(t, t[k].name)
  {
    if k == 0 {
      SumForAbsent(t[1..], t[0].name);
    } else {
      assert t[1..][k - 1] == t[k];
      assert t[0].name != t[k].name;
      DistinctEntrySum(t[1..], k - 1);
    }
  }

  /** Running-balance mode with an archive: one entry per distinct name of
      the archived and current results, each holding that name's net summed
      over all of them, with the grand total unchanged. Otherwise the
      current results pass through unchanged. */
  lemma WorkingBalancesSpec(results: seq<Result>, running: bool, history: Option<seq<Session>>)
    ensures running && history.Some? ==>
      var w := WorkingBalances(results, running, history);
      var all := Balances(ArchivedResults(history.value)) + Balances(results);
        && DistinctNames(w)
        && Names(w) == Names(all)
        && Total(w) == Total(all)
        && forall k :: 0 <= k < |w| ==> w[k].net == SumFor(all, w[k].name)
    ensures !(running && history.Some?) ==> WorkingBalances(results, running, history) == Balances(results)
  {
    if running && history.Some? {
      var all := Balances(ArchivedResults(history.value)) + Balances(results);
      var w := Tally(all);
      TallySpec(all);
      forall k | 0 <= k < |w| ensures w[k].net == SumFor(all, w[k].name) {
        DistinctEntrySum(w, k);
      }
    }
  }

  /** script.js `calculateSettlements`: settle the working balances. */
  method CalculateSettlements(results: seq<Result>, running: bool, history: Option<seq<Session>>)
    returns (lines: seq<Line>)
    ensures lines == GreedyLines(WorkingBalances(results, running, history))
  {
    var working := WorkingBalances(results, running, history);
    lines := GreedySettlement(working);
  }

  // ---------------------------------------------------------------------
  // Worked examples

  /** Debtors are served most negative first: A pays before B. */
  lemma ThreeWayExample(bs: seq<Balance>)
    requires bs == [Balance("A", -300), Balance("B", -200), Balance("C", 500)]
    ensures GreedyLines(bs) == [Payment(Transfer("A", "C", 300)), Payment(Transfer("B", "C", 200))]
  {
    ThreeWayTransfers(bs);
  }

  lemma ThreeWayTransfers(bs: seq<Balance>)
    requires bs == [Balance("A", -300), Balance("B", -200), Balance("C", 500)]
    ensures Transfers(bs) == [Transfer("A", "C", 300), Transfer("B", "C", 200)]
  {
    ThreeWaySorted();
    ThreeWaySettled();
  }

  lemma ThreeWaySorted()
    ensures SortedDebtors([Balance("A", -300), Balance("B", -200), Balance("C", 500)])
            == [Balance("A", -300), Balance("B", -200)]
    ensures SortedCreditors([Balance("A", -300), Balance("B", -200), Balance("C", 500)])
            == [Balance("C", 500)]
  {
    var bs := [Balance("A", -300), Balance("B", -200), Balance("C", 500)];
    var ds := [Balance("A", -300), Balance("B", -200)];
    assert bs[1..] == [Balance("B", -200), Balance("C", 500)];
    assert bs[1..][1..] == [Balance("C", 500)];
    assert Debtors(bs) == ds;
    assert Creditors(bs) == [Balance("C", 500)];
    assert ds[1..] == [Balance("B", -200)];
    assert SortBy(ds[1..], NetKey) == [Balance("B", -200)];
  }

  lemma ThreeWaySettled()
    ensures Settle([Balance("A", -300), Balance("B", -200)], [Balance("C", 500)])
            == [Transfer("A", "C", 300), Transfer("B", "C", 200)]
  {
    var ds, cs := [Balance("A", -300), Balance("B", -200)], [Balance("C", 500)];
    SettleStep(ds, cs, 300);
    assert Advance(ds, 300) == [Balance("B", -200)];
    assert Advance(cs, -300) == [Balance("C", 200)];
    SettleStep([Balance("B", -200)], [Balance("C", 200)], 200);
  }

  /** A single debtor and creditor owing each other exactly: one payment. */
  lemma OnePaymentExample(bs: seq<Balance>)
    requires bs == [Balance("A", -100), Balance("B", 100)]
    ensures GreedyLines(bs) == [Payment(Transfer("A", "B", 100))]
  {
    OnePaymentTransfers(bs);
  }

  lemma OnePaymentTransfers(bs: seq<Balance>)
    requires bs == [Balance("A", -100), Balance("B", 100)]
    ensures Transfers(bs) == [Transfer("A", "B", 100)]
  {
    assert bs[1..] == [Balance("B", 100)] && bs[1..][1..] == [];
    assert Debtors(bs[1..]) == [] && Creditors(bs[1..]) == [Balance("B", 100)];
    assert Debtors(bs) == [Balance("A", -100)];
    assert Creditors(bs) == [Balance("B", 100)];
    SettleStep([Balance("A", -100)], [Balance("B", 100)], 100);
  }

  /** An archived -50 and a current -50 for A tally to -100. */
  lemma RunningExample(i: Insights)
    ensures var a := Result("A", -50, 1, 100, 50);
            var h := Session("d", "s", "l", "-", 100, [a], [], true, i);
            WorkingBalances([a], true, Some([h])) == [Balance("A", -100)]
  {
    var a := Result("A", -50, 1, 100, 50);
    var h := Session("d", "s", "l", "-", 100, [a], [], true, i);
    assert ArchivedResults([h]) == [a];
    var all := Balances([a]) + Balances([a]);
    assert all == [Balance("A", -50), Balance("A", -50)];
    assert all[..1] == [Balance("A", -50)];
    assert Tally(all[..1]) == [Balance("A", -50)];
  }
}
