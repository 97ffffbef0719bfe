/** The lifetime registry: per canonical player name, the counters that
    script.js `updateRegistryFromSession` accumulates over finished
    sessions. The fold is stated here as functions on maps; the class in
    `AppState` runs it in place and is proved equal to `FoldSession`. */
module Registry {
  import opened Basics
  import opened Records
  import opened Names

  /** The zeroed record created on a name's first appearance. */
  function NewEntry(key: string): RegistryEntry
  {
    RegistryEntry(key, 0, 0, 0, 0, 0, 0, None)
  }

  /** Rebuys of one session: the buy-in count less the first buy-in, with a
      zero count counting as none and a negative difference clamped to 0. */
  function Rebuys(buyInCount: int): (n: int)
    ensures n == Max(buyInCount - 1, 0)
  {
    var rebuys := if buyInCount != 0 then buyInCount - 1 else 0;
    if rebuys < 0 then 0 else rebuys
  }

  /** One result folded into its player's record: one more session, the
      net, buy-in and rebuys added, the extremes widened, the date stamped. */
  function Record(e: RegistryEntry, r: Result, date: string): RegistryEntry
  {
    e.(sessions := e.sessions + 1,
       totalProfit := e.totalProfit + r.net,
       totalBuyIns := e.totalBuyIns + r.buyIn,
       totalRebuys := e.totalRebuys + Rebuys(r.buyInCount),
       biggestWin := if r.net > e.biggestWin then r.net else e.biggestWin,
       biggestLoss := if r.net < e.biggestLoss then r.net else e.biggestLoss,
       lastPlayed := Some(date))
  }

  /** The record a key starts from: its existing record, or a fresh one. */
  function Base(reg: map<string, RegistryEntry>, key: string): RegistryEntry
  {
    if key in reg then reg[key] else NewEntry(key)
  }

  /** One iteration of the `forEach` in script.js `updateRegistryFromSession`:
      the result's canonical key is present afterwards, every other key
      keeps its record or stays absent. */
  function FoldResult(reg: map<string, RegistryEntry>, r: Result, date: string): (reg': map<string, RegistryEntry>)
    ensures CapitalizeName(r.name) in reg'
    ensures forall k :: k != CapitalizeName(r.name) ==> (k in reg' <==> k in reg)
    ensures forall k :: k in reg && k != CapitalizeName(r.name) ==> reg'[k] == reg[k]
  {
    var key := CapitalizeName(r.name);
    reg[key := Record(Base(reg, key), r, date)]
  }

  /** The registry after folding in a session's results in order; no key
      is ever removed. */
  function FoldSession(reg: map<string, RegistryEntry>, rs: seq<Result>, date: string): (reg': map<string, RegistryEntry>)
    ensures reg.Keys <= reg'.Keys
  {
    if rs == [] then reg
    else FoldResult(FoldSession(reg, rs[..|rs| - 1], date), rs[|rs| - 1], date)
  }

  // ---------------------------------------------------------------------
  // A reference definition: one key at a time

  /** The results whose canonical name is `key`, in order. */
  function Matching(rs: seq<Result>, key: string): (m: seq<Result>)
    ensures forall x :: x in m ==> x in rs && CapitalizeName(x.name) == key
  {
    if rs == [] then []
    else Matching(rs[..|rs| - 1], key) + (if CapitalizeName(rs[|rs| - 1].name) == key then [rs[|rs| - 1]] else [])
  }

  /** One record with the results `rs` folded into it in order. */
  function Apply(e: RegistryEntry, rs: seq<Result>, date: string): RegistryEntry
  {
    if rs == [] then e else Record(Apply(e, rs[..|rs| - 1], date), rs[|rs| - 1], date)
  }

  function NetsOf(rs: seq<Result>): seq<int>
  {
    seq(|rs|, i requires 0 <= i < |rs| => rs[i].net)
  }

  function BuyInsOf(rs: seq<Result>): seq<int>
  {
    seq(|rs|, i requires 0 <= i < |rs| => rs[i].buyIn)
  }

  function RebuysOf(rs: seq<Result>): seq<int>
  {
    seq(|rs|, i requires 0 <= i < |rs| => Rebuys(rs[i].buyInCount))
  }

  /** Folding a session touches each key separately: a key ends up in the
      registry exactly when it was there or some result carries it, and its
      record is its starting record with just that key's results folded in.
      In particular a key no result carries keeps its record. */
  lemma {:induction false} FoldSessionKey(reg: map<string, RegistryEntry>, rs: seq<Result>, date: string, key: string)
    ensures key in FoldSession(reg, rs, date) <==> key in reg || Matching(rs, key) != []
    ensures key in FoldSession(reg, rs, date) ==>
              FoldSession(reg, rs, date)[key] == Apply(Base(reg, key), Matching(rs, key), date)
  {
    if rs != [] {
      var init, r := rs[..|rs| - 1], rs[|rs| - 1];
      FoldSessionKey(reg, init, date, key);
      var m := Matching(init, key);
      if CapitalizeName(r.name) == key {
        assert Matching(rs, key) == m + [r];
        assert (m + [r])[..|m|] == m;
      } else {
        assert Matching(rs, key) == m;
      }
    }
  }

  /** A key no result carries keeps its record (or stays absent). */
  lemma UntouchedKey(reg: map<string, RegistryEntry>, rs: seq<Result>, date: string, key: string)
    requires forall i :: 0 <= i < |rs| ==> CapitalizeName(rs[i].name) != key
    ensures key in FoldSession(reg, rs, date) <==> key in reg
    ensures key in reg ==> FoldSession(reg, rs, date)[key] == reg[key]
  {
    FoldSessionKey(reg, rs, date, key);
    NoMatch(rs, key);
  }

  lemma {:induction false} NoMatch(rs: seq<Result>, key: string)
    requires forall i :: 0 <= i < |rs| ==> CapitalizeName(rs[i].name) != key
    ensures Matching(rs, key) == []
  {
    if rs != [] {
      NoMatch(rs[..|rs| - 1], key);
    }
  }

  /** Every result lands in its canonical key: the key is in the registry
      afterwards and its record has the session's date. */
  lemma ResultLands(reg: map<string, RegistryEntry>, rs: seq<Result>, date: string, i: int)
    requires 0 <= i < |rs|
    ensures CapitalizeName(rs[i].name) in FoldSession(reg, rs, date)
    ensures FoldSession(reg, rs, date)[CapitalizeName(rs[i].name)].lastPlayed == Some(date)
  {
    var key := CapitalizeName(rs[i].name);
    MatchFound(rs, key, i);
    FoldSessionKey(reg, rs, date, key);
    ApplyStamps(Base(reg, key), Matching(rs, key), date);
  }

  lemma {:induction false} MatchFound(rs: seq<Result>, key: string, i: int)
    requires 0 <= i < |rs| && CapitalizeName(rs[i].name) == key
    ensures Matching(rs, key) != []
  {
    if i < |rs| - 1 {
      MatchFound(rs[..|rs| - 1], key, i);
    }
  }

  lemma ApplyStamps(e: RegistryEntry, rs: seq<Result>, date: string)
    requires rs != []
    ensures Apply(e, rs, date).lastPlayed == Some(date)
  {
  }

  /** The counters of one record: `sessions` grows by the number of results,
      `totalProfit`, `totalBuyIns` and `totalRebuys` by their sums, the name
      is kept and `lastPlayed` is the date once any result was folded. */
  lemma {:induction false} ApplyCounters(e: RegistryEntry, rs: seq<Result>, date: string)
    ensures Apply(e, rs, date).name == e.name
    ensures Apply(e, rs, date).sessions == e.sessions + |rs|
    ensures Apply(e, rs, date).totalProfit == e.totalProfit + Sum(NetsOf(rs))
    ensures Apply(e, rs, date).totalBuyIns == e.totalBuyIns + Sum(BuyInsOf(rs))
    ensures Apply(e, rs, date).totalRebuys == e.totalRebuys + Sum(RebuysOf(rs))
    ensures Apply(e, rs, date).lastPlayed == if rs == [] then e.lastPlayed else Some(date)
  {
    if rs != [] {
      var init := rs[..|rs| - 1];
      ApplyCounters(e, init, date);
      assert NetsOf(rs)[..|rs| - 1] == NetsOf(init);
      assert BuyInsOf(rs)[..|rs| - 1] == BuyInsOf(init);
      assert RebuysOf(rs)[..|rs| - 1] == RebuysOf(init);
    }
  }

  /** `biggestWin` only grows: it is at least its starting value and every
      net folded in, and it is one of them. */
  lemma {:induction false} ApplyWin(e: RegistryEntry, rs: seq<Result>, date: string)
    ensures Apply(e, rs, date).biggestWin >= e.biggestWin
    ensures forall i :: 0 <= i < |rs| ==> Apply(e, rs, date).biggestWin >= rs[i].net
    ensures Apply(e, rs, date).biggestWin == e.biggestWin ||
            exists i :: 0 <= i < |rs| && Apply(e, rs, date).biggestWin == rs[i].net
  {
    if rs != [] {
      ApplyWin(e, rs[..|rs| - 1], date);
    }
  }

  /** `biggestLoss` only shrinks: it is at most its starting value and every
      net folded in, and it is one of them. */
  lemma {:induction false} ApplyLoss(e: RegistryEntry, rs: seq<Result>, date: string)
    ensures Apply(e, rs, date).biggestLoss <= e.biggestLoss
    ensures forall i :: 0 <= i < |rs| ==> Apply(e, rs, date).biggestLoss <= rs[i].net
    ensures Apply(e, rs, date).biggestLoss == e.biggestLoss ||
            exists i :: 0 <= i < |rs| && Apply(e, rs, date).biggestLoss == rs[i].net
  {
    if rs != [] {
      ApplyLoss(e, rs[..|rs| - 1], date);
    }
  }

  /** The records the fold builds: keyed by their own name, with no
      negative count, a win of at least 0 and a loss of at most 0. */
  predicate Valid(reg: map<string, RegistryEntry>)
  {
    forall key :: key in reg ==>
      reg[key].name == key && reg[key].sessions >= 0 && reg[key].totalRebuys >= 0 &&
      reg[key].biggestWin >= 0 && reg[key].biggestLoss <= 0
  }

  /** Folding a session keeps the registry valid; starting from the empty
      registry every record is valid. */
  lemma {:induction false} FoldSessionValid(reg: map<string, RegistryEntry>, rs: seq<Result>, date: string)
    requires Valid(reg)
    ensures Valid(FoldSession(reg, rs, date))
  {
    if rs != [] {
      FoldSessionValid(reg, rs[..|rs| - 1], date);
    }
  }

  /** A player's record after one session, with every counter: a first
      session for "bob" (three buy-ins of 500 in total, cashing out 700)
      creates "Bob" with one session, profit 200, two rebuys and a win of
      200. */
  lemma FirstSessionExample(rs: seq<Result>, date: string)
    requires rs == [Result("bob", 200, 3, 500, 700)]
    ensures FoldSession(map[], rs, date) == map["Bob" := RegistryEntry("Bob", 1, 200, 500, 2, 200, 0, Some(date))]
  {
    CapitalizeFixesCanonical("Bob");
    CaseVariantsShareKey("bob", "Bob");
    assert rs[..0] == [];
  }
}
