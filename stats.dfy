/** Session statistics (script.js `calculateSessionStats`): one pass over
    the ledger, in key order, that builds the result rows and tracks the
    leaders, followed by a sort of the rows and the insights. */
module Stats {
  import opened Basics
  import opened Records

  /** A player's net for the session. */
  function NetOf(p: Player): int { p.cashOut - p.buyIn }

  /** The result row of a ledger entry. */
  function Row(e: Entry): Result
  {
    Result(e.name, NetOf(e.player), e.player.buyInCount, e.player.buyIn, e.player.cashOut)
  }

  function Rows(es: seq<Entry>): seq<Result>
  {
    seq(|es|, k requires 0 <= k < |es| => Row(es[k]))
  }

  function Nets(es: seq<Entry>): seq<int>
  {
    seq(|es|, k requires 0 <= k < |es| => NetOf(es[k].player))
  }

  function Counts(es: seq<Entry>): seq<int>
  {
    seq(|es|, k requires 0 <= k < |es| => es[k].player.buyInCount)
  }

  /** The tightness score: fewer buy-ins always win, then the smaller swing. */
  function TightScore(p: Player): int { p.buyInCount * 10000 + Abs(NetOf(p)) }

  function Scores(es: seq<Entry>): seq<int>
  {
    seq(|es|, k requires 0 <= k < |es| => TightScore(es[k].player))
  }

  /** Descending by net is ascending by the negated net. */
  function NegatedNet(r: Result): int { -r.net }

  // ---------------------------------------------------------------------
  // Leaders

  /** Among the first `n` elements of `xs`, `k` holds the maximum and
      nothing before it does. */
  predicate FirstMaxWithin(xs: seq<int>, n: int, k: int)
  {
    && 0 <= k < n <= |xs|
    && (forall j :: 0 <= j < n ==> xs[j] <= xs[k])
    && (forall j :: 0 <= j < k ==> xs[j] < xs[k])
  }

  /** Among the first `n` elements of `xs`, `k` holds the minimum and
      nothing before it does. */
  predicate FirstMinWithin(xs: seq<int>, n: int, k: int)
  {
    && 0 <= k < n <= |xs|
    && (forall j :: 0 <= j < n ==> xs[k] <= xs[j])
    && (forall j :: 0 <= j < k ==> xs[k] < xs[j])
  }

  /** `m` is the largest magnitude among the first `n` elements of `xs`,
      or 0 when there is none. */
  predicate MaxAbsWithin(xs: seq<int>, n: int, m: int)
  {
    && 0 <= n <= |xs|
    && m >= 0
    && (forall j :: 0 <= j < n ==> Abs(xs[j]) <= m)
    && (m == 0 || exists j :: 0 <= j < n && Abs(xs[j]) == m)
  }

  /** The position a strict `>` scan over the first `n` elements keeps. */
  function FirstMax(xs: seq<int>, n: int): (k: int)
    requires 0 < n <= |xs|
    ensures 0 <= k < n
  {
    if n == 1 then 0
    else
      var k := FirstMax(xs, n - 1);
      if xs[n - 1] > xs[k] then n - 1 else k
  }

  /** The position a strict `<` scan over the first `n` elements keeps. */
  function FirstMin(xs: seq<int>, n: int): (k: int)
    requires 0 < n <= |xs|
    ensures 0 <= k < n
  {
    if n == 1 then 0
    else
      var k := FirstMin(xs, n - 1);
      if xs[n - 1] < xs[k] then n - 1 else k
  }

  /** The running magnitude after the first `n` elements, starting from 0
      and raised only by a strictly larger magnitude. */
  function MaxAbs(xs: seq<int>, n: int): int
    requires 0 <= n <= |xs|
  {
    if n == 0 then 0
    else
      var m := MaxAbs(xs, n - 1);
      if Abs(xs[n - 1]) > m then Abs(xs[n - 1]) else m
  }

  /** The strict `>` scan keeps the first maximum. */
  lemma {:induction false} FirstMaxSpec(xs: seq<int>, n: int)
    requires 0 < n <= |xs|
    ensures FirstMaxWithin(xs, n, FirstMax(xs, n))
  {
    if n > 1 {
      FirstMaxSpec(xs, n - 1);
    }
  }

  /** The strict `<` scan keeps the first minimum. */
  lemma {:induction false} FirstMinSpec(xs: seq<int>, n: int)
    requires 0 < n <= |xs|
    ensures FirstMinWithin(xs, n, FirstMin(xs, n))
  {
    if n > 1 {
      FirstMinSpec(xs, n - 1);
    }
  }

  /** The running magnitude is the largest magnitude, or 0. */
  lemma {:induction false} MaxAbsSpec(xs: seq<int>, n: int)
    requires 0 <= n <= |xs|
    ensures MaxAbsWithin(xs, n, MaxAbs(xs, n))
  {
    if n > 0 {
      MaxAbsSpec(xs, n - 1);
    }
  }

  /** The rows pushed so far are the rows of the first `i` entries. */
  predicate RowsUpTo(es: seq<Entry>, results: seq<Result>, i: int)
  {
    0 <= i <= |es| && |results| == i && forall k :: 0 <= k < i ==> results[k] == Row(es[k])
  }

  /** Pushing the next entry's row extends the prefix by one. */
  lemma RowsStep(es: seq<Entry>, results: seq<Result>, i: int, next: seq<Result>)
    requires RowsUpTo(es, results, i) && i < |es|
    requires next == results + [Row(es[i])]
    ensures RowsUpTo(es, next, i + 1)
  {
  }

  /** `cur` is what a scan that keeps the first maximum of `xs` holds after
      `i` entries: nothing before the first, then the entry at `FirstMax`
      with its value. */
  predicate TopUpTo(es: seq<Entry>, xs: seq<int>, i: int, cur: Option<Standing>)
  {
    |xs| == |es| && 0 <= i <= |es| &&
    (i == 0 ==> cur.None?) &&
    (i > 0 ==> cur == Some(Standing(es[FirstMax(xs, i)].name, xs[FirstMax(xs, i)])))
  }

  /** The same for a scan that keeps the first minimum. */
  predicate BottomUpTo(es: seq<Entry>, xs: seq<int>, i: int, cur: Option<Standing>)
  {
    |xs| == |es| && 0 <= i <= |es| &&
    (i == 0 ==> cur.None?) &&
    (i > 0 ==> cur == Some(Standing(es[FirstMin(xs, i)].name, xs[FirstMin(xs, i)])))
  }

  /** Replacing the held entry on a strictly larger value tracks `FirstMax`. */
  lemma TopStep(es: seq<Entry>, xs: seq<int>, i: int, cur: Option<Standing>, next: Option<Standing>)
    requires TopUpTo(es, xs, i, cur) && i < |es|
    requires next == if cur.None? || xs[i] > cur.value.amount then Some(Standing(es[i].name, xs[i])) else cur
    ensures TopUpTo(es, xs, i + 1, next)
  {
  }

  /** Replacing the held entry on a strictly smaller value tracks `FirstMin`. */
  lemma BottomStep(es: seq<Entry>, xs: seq<int>, i: int, cur: Option<Standing>, next: Option<Standing>)
    requires BottomUpTo(es, xs, i, cur) && i < |es|
    requires next == if cur.None? || xs[i] < cur.value.amount then Some(Standing(es[i].name, xs[i])) else cur
    ensures BottomUpTo(es, xs, i + 1, next)
  {
  }

  /** The first player with the largest net: the shark. */
  function Shark(es: seq<Entry>): Option<Standing>
  {
    if es == [] then None
    else
      var k := FirstMax(Nets(es), |es|);
      Some(Standing(es[k].name, Nets(es)[k]))
  }

  /** The first player with the smallest net: the atm. */
  function Atm(es: seq<Entry>): Option<Standing>
  {
    if es == [] then None
    else
      var k := FirstMin(Nets(es), |es|);
      Some(Standing(es[k].name, Nets(es)[k]))
  }

  /** The first player with the most buy-ins, reported only above one. */
  function MostRebuys(es: seq<Entry>): Option<RebuyLeader>
  {
    if es == [] then None
    else
      var k := FirstMax(Counts(es), |es|);
      if Counts(es)[k] > 1 then Some(RebuyLeader(es[k].name, Counts(es)[k])) else None
  }

  /** The first player with the lowest tightness score. */
  function Tightest(es: seq<Entry>): Option<string>
  {
    if es == [] then None else Some(es[FirstMin(Scores(es), |es|)].name)
  }

  /** The rounded average buy-in, 0 without players. */
  function AverageBuyIn(es: seq<Entry>): (avg: int)
    ensures es == [] ==> avg == 0
    ensures es != [] ==> 2 * Sum(BuyIns(es)) - |es| < 2 * |es| * avg <= 2 * Sum(BuyIns(es)) + |es|
  {
    if |es| > 0 then RoundDiv(Sum(BuyIns(es)), |es|) else 0
  }

  // ---------------------------------------------------------------------
  // Duration and average

  /** The quotient of division truncated toward zero. */
  function TruncDiv(a: int, m: int): int
    requires m > 0
  {
    if a >= 0 then a / m else -((-a) / m)
  }

  /** JavaScript's `%`: the remainder of division truncated toward zero,
      so it takes the sign of the dividend and is smaller than the divisor
      in magnitude. */
  function JsRem(a: int, m: int): (r: int)
    requires m > 0
    ensures a == m * TruncDiv(a, m) + r
    ensures -m < r < m
    ensures a >= 0 ==> r >= 0
    ensures a < 0 ==> r <= 0
  {
    if a >= 0 then a % m else -((-a) % m)
  }

  /** `Math.floor(diff / 3600000)` hours and `Math.floor((diff % 3600000) /
      60000)` minutes of `diff` milliseconds. */
  function Elapsed(diff: int): (d: Duration)
    ensures d.hours * 3600000 <= diff < (d.hours + 1) * 3600000
    ensures d.minutes * 60000 <= JsRem(diff, 3600000) < (d.minutes + 1) * 60000
    ensures diff >= 0 ==> 0 <= d.minutes < 60
    ensures diff < 0 ==> -60 <= d.minutes <= 0
  {
    var h, r := diff / 3600000, JsRem(diff, 3600000);
    assert diff == h * 3600000 + diff % 3600000;
    assert r == (r / 60000) * 60000 + r % 60000;
    Duration(h, r / 60000)
  }

  /** A negative span (a start time in the future) counts down: hours are
      floored and the minutes keep the span's sign. */
  lemma ElapsedNegativeExample()
    ensures Elapsed(-1) == Duration(-1, -1)
    ensures Elapsed(-3600001) == Duration(-2, -1)
  {
  }

  /** For a non-negative span, the minutes are below 60 and hours and
      minutes give the span to the minute. */
  lemma ElapsedSpec(diff: int)
    requires diff >= 0
    ensures 0 <= Elapsed(diff).hours && 0 <= Elapsed(diff).minutes < 60
    ensures Elapsed(diff).hours * 3600000 + Elapsed(diff).minutes * 60000 <= diff
    ensures diff < Elapsed(diff).hours * 3600000 + (Elapsed(diff).minutes + 1) * 60000
  {
    var h, r := diff / 3600000, diff % 3600000;
    assert diff == h * 3600000 + r;
    var m, q := r / 60000, r % 60000;
    assert r == m * 60000 + q;
    assert Elapsed(diff) == Duration(h, m);
  }

  /** The session length shown: none when the start time is missing or 0
      (falsy), otherwise the time elapsed until `now`. */
  function SessionLength(startTime: Option<int>, now: int): (d: Option<Duration>)
    ensures d.Some? <==> startTime.Some? && startTime.value != 0
    ensures d.Some? ==> d.value == Elapsed(now - startTime.value)
  {
    if startTime.Some? && startTime.value != 0 then Some(Elapsed(now - startTime.value)) else None
  }

  // ---------------------------------------------------------------------
  // The pass

  /** What the leader comparisons hold after the first `i` entries: the
      first largest and smallest net, the running magnitude, the first
      largest buy-in count and the first smallest tightness score. */
  predicate LeadersUpTo(es: seq<Entry>, i: int, shark: Option<Standing>, atm: Option<Standing>,
                        maxAbsVal: int, maxRebuys: Option<Standing>, tightest: Option<Standing>)
  {
    0 <= i <= |es| &&
    TopUpTo(es, Nets(es), i, shark) && BottomUpTo(es, Nets(es), i, atm) &&
    maxAbsVal == MaxAbs(Nets(es), i) &&
    TopUpTo(es, Counts(es), i, maxRebuys) && BottomUpTo(es, Scores(es), i, tightest)
  }

  /** The comparisons of the loop body of script.js `calculateSessionStats`
      for the entry at `i`: each leader is replaced only on a strictly
      better value, which keeps every leader the first one. */
  method VisitLeaders(es: seq<Entry>, i: int, shark: Option<Standing>, atm: Option<Standing>,
                      maxAbsVal: int, maxRebuys: Option<Standing>, tightest: Option<Standing>)
    returns (shark': Option<Standing>, atm': Option<Standing>, maxAbsVal': int,
             maxRebuys': Option<Standing>, tightest': Option<Standing>)
    requires LeadersUpTo(es, i, shark, atm, maxAbsVal, maxRebuys, tightest) && i < |es|
    ensures LeadersUpTo(es, i + 1, shark', atm', maxAbsVal', maxRebuys', tightest')
  {
    var name, p := es[i].name, es[i].player;
    var net := p.cashOut - p.buyIn;
    shark' := if shark.None? || net > shark.value.amount then Some(Standing(name, net)) else shark;
    atm' := if atm.None? || net < atm.value.amount then Some(Standing(name, net)) else atm;
    maxAbsVal' := if Abs(net) > maxAbsVal then Abs(net) else maxAbsVal;
    maxRebuys' := if maxRebuys.None? || p.buyInCount > maxRebuys.value.amount
                  then Some(Standing(name, p.buyInCount)) else maxRebuys;
    var tightScore := p.buyInCount * 10000 + Abs(net);
    tightest' := if tightest.None? || tightScore < tightest.value.amount
                 then Some(Standing(name, tightScore)) else tightest;

    TopStep(es, Nets(es), i, shark, shark');
    BottomStep(es, Nets(es), i, atm, atm');
    TopStep(es, Counts(es), i, maxRebuys, maxRebuys');
    BottomStep(es, Scores(es), i, tightest, tightest');
  }

  /** What the pass has accumulated after the first `i` entries: their rows
      and the sum of their buy-ins. */
  predicate TotalsUpTo(es: seq<Entry>, i: int, results: seq<Result>, totalPot: int)
  {
    RowsUpTo(es, results, i) && totalPot == Sum(BuyIns(es)[..i])
  }

  lemma TotalsStep(es: seq<Entry>, i: int, results: seq<Result>, totalPot: int,
                   results': seq<Result>, totalPot': int)
    requires TotalsUpTo(es, i, results, totalPot) && i < |es|
    requires results' == results + [Row(es[i])] && totalPot' == totalPot + es[i].player.buyIn
    ensures TotalsUpTo(es, i + 1, results', totalPot')
  {
    RowsStep(es, results, i, results');
    SumPrefix(BuyIns(es), i);
  }

  /** After the last entry the rows and the pot are those of all entries. */
  lemma TotalsDone(es: seq<Entry>, results: seq<Result>, totalPot: int)
    requires TotalsUpTo(es, |es|, results, totalPot)
    ensures results == Rows(es) && totalPot == Sum(BuyIns(es))
  {
    assert BuyIns(es)[..|es|] == BuyIns(es);
    assert results == Rows(es);
  }

  /** After the last entry the leaders are the ones the statistics are
      specified by. */
  lemma LeadersDone(es: seq<Entry>, shark: Option<Standing>, atm: Option<Standing>, maxAbsVal: int,
                    maxRebuys: Option<Standing>, tightest: Option<Standing>)
    requires LeadersUpTo(es, |es|, shark, atm, maxAbsVal, maxRebuys, tightest)
    ensures shark == Shark(es) && atm == Atm(es) && maxAbsVal == MaxAbs(Nets(es), |es|)
    ensures es == [] ==> maxRebuys.None? && tightest.None?
    ensures es != [] ==>
      var k := FirstMax(Counts(es), |es|);
      maxRebuys == Some(Standing(es[k].name, Counts(es)[k]))
    ensures es != [] ==>
      var k := FirstMin(Scores(es), |es|);
      tightest == Some(Standing(es[k].name, Scores(es)[k]))
  {
  }

  /** The loop of script.js `calculateSessionStats`: one pass over the
      ledger entries in key order that pushes each result row, keeps the
      running total and count, and updates the leaders. Every leader is kept
      as a name and the value it leads on (for the rebuy leader, its count;
      for the tightest player, its score). */
  method ScanPlayers(es: seq<Entry>)
    returns (results: seq<Result>, shark: Option<Standing>, atm: Option<Standing>, maxAbsVal: int,
             maxRebuys: Option<Standing>, tightest: Option<Standing>, totalPot: int, playerCount: int)
    ensures results == Rows(es) && totalPot == Sum(BuyIns(es)) && playerCount == |es|
    ensures shark == Shark(es) && atm == Atm(es) && maxAbsVal == MaxAbs(Nets(es), |es|)
    ensures es == [] ==> maxRebuys.None? && tightest.None?
    ensures es != [] ==>
      var k := FirstMax(Counts(es), |es|);
      maxRebuys == Some(Standing(es[k].name, Counts(es)[k]))
    ensures es != [] ==>
      var k := FirstMin(Scores(es), |es|);
      tightest == Some(Standing(es[k].name, Scores(es)[k]))
  {
    results, shark, atm, maxAbsVal, maxRebuys, tightest := [], None, None, 0, None, None;
    totalPot, playerCount := 0, 0;
    var i := 0;
    while i < |es|
      invariant 0 <= i <= |es| && playerCount == i
      invariant TotalsUpTo(es, i, results, totalPot)
      invariant LeadersUpTo(es, i, shark, atm, maxAbsVal, maxRebuys, tightest)
    {
      var name, p := es[i].name, es[i].player;
      ghost var results0, totalPot0 := results, totalPot;
      results := results + [Result(name, p.cashOut - p.buyIn, p.buyInCount, p.buyIn, p.cashOut)];
      totalPot := totalPot + p.buyIn;
      playerCount := playerCount + 1;
      TotalsStep(es, i, results0, totalPot0, results, totalPot);
      shark, atm, maxAbsVal, maxRebuys, tightest := VisitLeaders(es, i, shark, atm, maxAbsVal, maxRebuys, tightest);
      i := i + 1;
    }
    TotalsDone(es, results, totalPot);
    LeadersDone(es, shark, atm, maxAbsVal, maxRebuys, tightest);
  }

  /** script.js `calculateSessionStats` over the ledger entries in key
      order; the start time and the current time are parameters. */
  method CalculateSessionStats(es: seq<Entry>, startTime: Option<int>, now: int) returns (s: Stats)
    ensures s.results == SortBy(Rows(es), NegatedNet)
    ensures s.shark == Shark(es) && s.atm == Atm(es)
    ensures s.maxAbsVal == MaxAbs(Nets(es), |es|)
    ensures s.insights == Insights(s.maxAbsVal, MostRebuys(es), Tightest(es),
                                   SessionLength(startTime, now), AverageBuyIn(es))
  {
    var results, shark, atm, maxAbsVal, maxRebuys, tightest, totalPot, playerCount := ScanPlayers(es);
    var sorted := SortBy(results, NegatedNet);

    var duration := SessionLength(startTime, now);

    var avgBuyIn := if playerCount > 0 then RoundDiv(totalPot, playerCount) else 0;
    var mostRebuys := if maxRebuys.Some? && maxRebuys.value.amount > 1
                      then Some(RebuyLeader(maxRebuys.value.name, maxRebuys.value.amount)) else None;
    var tightName := if tightest.Some? then Some(tightest.value.name) else None;
    s := Stats(sorted, shark, atm, maxAbsVal,
               Insights(maxAbsVal, mostRebuys, tightName, duration, avgBuyIn));
  }

  /** The leaders as the source promises them: the shark and the atm are
      the first players with the largest and the smallest net, the rebuy
      leader the first with most buy-ins and only above one, the tightest
      the first with the lowest score; each is absent exactly when there
      are no players (the rebuy leader also when nobody bought in twice). */
  lemma LeadersSpec(es: seq<Entry>)
    ensures Shark(es).None? <==> es == []
    ensures Shark(es).Some? ==>
      exists k :: FirstMaxWithin(Nets(es), |es|, k) && Shark(es).value == Standing(es[k].name, Nets(es)[k])
    ensures Atm(es).None? <==> es == []
    ensures Atm(es).Some? ==>
      exists k :: FirstMinWithin(Nets(es), |es|, k) && Atm(es).value == Standing(es[k].name, Nets(es)[k])
    ensures MostRebuys(es).Some? ==>
      exists k :: FirstMaxWithin(Counts(es), |es|, k) && Counts(es)[k] > 1
                  && MostRebuys(es).value == RebuyLeader(es[k].name, Counts(es)[k])
    ensures MostRebuys(es).None? <==> forall k :: 0 <= k < |es| ==> Counts(es)[k] <= 1
    ensures Tightest(es).None? <==> es == []
    ensures Tightest(es).Some? ==>
      exists k :: FirstMinWithin(Scores(es), |es|, k) && Tightest(es).value == es[k].name
  {
    if es != [] {
      FirstMaxSpec(Nets(es), |es|);
      FirstMinSpec(Nets(es), |es|);
      FirstMaxSpec(Counts(es), |es|);
      FirstMinSpec(Scores(es), |es|);
    }
  }

  /** The rows come out one per player with `net = cashOut - buyIn`, as a
      permutation of the ledger's rows, largest net first. */
  lemma ResultsSpec(es: seq<Entry>)
    ensures |SortBy(Rows(es), NegatedNet)| == |es|
    ensures multiset(SortBy(Rows(es), NegatedNet)) == multiset(Rows(es))
    ensures forall a, b :: 0 <= a < b < |es| ==>
              SortBy(Rows(es), NegatedNet)[a].net >= SortBy(Rows(es), NegatedNet)[b].net
    ensures forall r :: r in SortBy(Rows(es), NegatedNet) ==> r.net == r.cashOut - r.buyIn
  {
    var rs := SortBy(Rows(es), NegatedNet);
    SortBySorted(Rows(es), NegatedNet);
    forall r | r in rs ensures r.net == r.cashOut - r.buyIn {
      assert r in multiset(Rows(es));
    }
  }
}
