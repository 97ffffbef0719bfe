/** The application state of script.js and the actions that change it in
    place: the ledger of the active session (`players`, kept in key
    insertion order, and the running pot `totalBuyIn`), the archive of
    finished sessions, the lifetime registry and the saved templates. */
module AppState {
  import opened Basics
  import opened Records
  import opened Names
  import Registry
  import Stats

  // ---------------------------------------------------------------------
  // The ledger as values

  /** Every name in the key order has a record. */
  predicate Keyed(order: seq<string>, players: map<string, Player>)
  {
    forall i :: 0 <= i < |order| ==> order[i] in players
  }

  /** The ledger's (key, record) pairs in key order. */
  function EntriesOf(order: seq<string>, players: map<string, Player>): seq<Entry>
    requires Keyed(order, players)
  {
    seq(|order|, i requires 0 <= i < |order| => Entry(order[i], players[order[i]]))
  }

  /** The ledger invariant: the key order lists each key of `players` once
      and `total` is the sum of all players' buy-ins. */
  predicate LedgerValid(order: seq<string>, players: map<string, Player>, total: int)
  {
    Keyed(order, players) && (forall n :: n in players ==> n in order) && Distinct(order) &&
    total == Sum(BuyIns(EntriesOf(order, players)))
  }

  /** A new key goes to the end of the order and its buy-in onto the pot. */
  lemma NewKeyKeepsLedger(order: seq<string>, players: map<string, Player>, total: int, name: string, p: Player)
    requires LedgerValid(order, players, total) && name !in players
    ensures LedgerValid(order + [name], players[name := p], total + p.buyIn)
  {
    var order', players' := order + [name], players[name := p];
    assert Keyed(order', players');
    var es, es' := EntriesOf(order, players), EntriesOf(order', players');
    assert BuyIns(es') == BuyIns(es) + [p.buyIn];
    SumAppend(BuyIns(es), p.buyIn);
  }

  /** Replacing an existing key's record moves the pot by the change in
      that record's buy-in. */
  lemma ChangeKeepsLedger(order: seq<string>, players: map<string, Player>, total: int, name: string, p: Player)
    requires LedgerValid(order, players, total) && name in players
    ensures LedgerValid(order, players[name := p], total - players[name].buyIn + p.buyIn)
  {
    var players' := players[name := p];
    var k :| 0 <= k < |order| && order[k] == name;
    var es, es' := EntriesOf(order, players), EntriesOf(order, players');
    assert BuyIns(es') == BuyIns(es)[k := p.buyIn];
    SumUpdate(BuyIns(es), k, p.buyIn);
  }

  /** The ledger entries list each player once, with its own record, and
      their buy-ins sum to the pot. */
  lemma EntriesOfLedger(order: seq<string>, players: map<string, Player>, total: int)
    requires LedgerValid(order, players, total)
    ensures |EntriesOf(order, players)| == |order|
    ensures Sum(BuyIns(EntriesOf(order, players))) == total
    ensures forall k :: 0 <= k < |order| ==>
              EntriesOf(order, players)[k].name in players &&
              EntriesOf(order, players)[k].player == players[EntriesOf(order, players)[k].name]
    ensures forall n :: n in players <==> exists k :: 0 <= k < |order| && EntriesOf(order, players)[k].name == n
  {
    var es := EntriesOf(order, players);
    forall n | n in players ensures exists k :: 0 <= k < |order| && es[k].name == n {
      var k :| 0 <= k < |order| && order[k] == n;
      assert es[k].name == n;
    }
  }

  /** The statistics rows of a valid ledger: one per player, carrying that
      player's buy-in and net, largest net first. */
  lemma StatsRowsOfLedger(order: seq<string>, players: map<string, Player>, total: int)
    requires LedgerValid(order, players, total)
    ensures var rs := SortBy(Stats.Rows(EntriesOf(order, players)), Stats.NegatedNet);
      && |rs| == |order|
      && (forall r :: r in rs ==>
            r.name in players && r.buyIn == players[r.name].buyIn &&
            r.net == players[r.name].cashOut - players[r.name].buyIn)
      && (forall n :: n in players ==> exists r :: r in rs && r.name == n)
      && (forall a, b :: 0 <= a < b < |rs| ==> rs[a].net >= rs[b].net)
  {
    var es := EntriesOf(order, players);
    var rows := Stats.Rows(es);
    var rs := SortBy(rows, Stats.NegatedNet);
    EntriesOfLedger(order, players, total);
    Stats.ResultsSpec(es);
    forall r | r in rs
      ensures r.name in players && r.buyIn == players[r.name].buyIn
      ensures r.net == players[r.name].cashOut - players[r.name].buyIn
    {
      assert r in multiset(rows);
      var k :| 0 <= k < |rows| && rows[k] == r;
      assert r == Stats.Row(es[k]);
    }
    forall n | n in players ensures exists r :: r in rs && r.name == n {
      var k :| 0 <= k < |order| && es[k].name == n;
      assert rows[k] in multiset(rs);
    }
  }

  // ---------------------------------------------------------------------
  // The state

  class State {
    var totalBuyIn: int
    var currentSessionName: string
    var players: map<string, Player>
    /** The keys of `players` in insertion order, the order a JavaScript
        object enumerates them in. */
    var order: seq<string>
    /** Finished sessions, newest first. */
    var history: seq<Session>
    var registry: map<string, RegistryEntry>
    var templates: map<string, Template>

    predicate Valid()
      reads this
    {
      LedgerValid(order, players, totalBuyIn)
    }

    /** The ledger entries in key order, as the statistics pass reads them. */
    function Entries(): (es: seq<Entry>)
      reads this
      requires Valid()
      ensures |es| == |order| && Sum(BuyIns(es)) == totalBuyIn
      ensures forall k :: 0 <= k < |es| ==> es[k].name in players && es[k].player == players[es[k].name]
      ensures forall n :: n in players <==> exists k :: 0 <= k < |es| && es[k].name == n
    {
      EntriesOfLedger(order, players, totalBuyIn);
      EntriesOf(order, players)
    }

    /** script.js `calculateSessionStats(state.players, ...)`: the statistics
        of the current ledger. Its rows are one per player, with that
        player's buy-in and net, largest net first; the average is the pot
        over the player count. */
    method SessionStats(startTime: Option<int>, now: int) returns (s: Records.Stats)
      requires Valid()
      ensures |s.results| == |order|
      ensures forall r :: r in s.results ==>
                r.name in players && r.buyIn == players[r.name].buyIn &&
                r.net == players[r.name].cashOut - players[r.name].buyIn
      ensures forall n :: n in players ==> exists r :: r in s.results && r.name == n
      ensures forall a, b :: 0 <= a < b < |s.results| ==> s.results[a].net >= s.results[b].net
      ensures s.insights.avgBuyIn == if order == [] then 0 else RoundDiv(totalBuyIn, |order|)
    {
      s := Stats.CalculateSessionStats(Entries(), startTime, now);
      StatsRowsOfLedger(order, players, totalBuyIn);
    }

    /** The initial state: an empty ledger, archive, registry and template set. */
    constructor ()
      ensures Valid()
      ensures totalBuyIn == 0 && currentSessionName == ""
      ensures players == map[] && order == [] && history == []
      ensures registry == map[] && templates == map[]
    {
      totalBuyIn := 0;
      currentSessionName := "";
      players := map[];
      order := [];
      history := [];
      registry := map[];
      templates := map[];
    }

    /** script.js `resetState`: empties the ledger and the pot and clears the
        session name; the archive, registry and templates stay. */
    method ResetState()
      modifies this
      ensures Valid()
      ensures totalBuyIn == 0 && players == map[] && order == [] && currentSessionName == ""
      ensures history == old(history) && registry == old(registry) && templates == old(templates)
    {
      totalBuyIn := 0;
      players := map[];
      order := [];
      currentSessionName := "";
    }

    /** script.js `addPlayer`: a buy-in or top-up. An unknown name gets a
        zeroed record at the end of the key order; the player is back at
        the table, with `amount` added to the buy-in and to the pot and one
        more buy-in counted. Every other player is unchanged. */
    method AddPlayer(name: string, amount: int)
      requires Valid()
      modifies this
      ensures Valid()
      ensures var p := if name in old(players) then old(players)[name] else FreshPlayer;
              players == old(players)[name := Player(p.buyIn + amount, p.cashOut, p.buyInCount + 1, false)]
      ensures order == if name in old(players) then old(order) else old(order) + [name]
      ensures totalBuyIn == old(totalBuyIn) + amount
      ensures currentSessionName == old(currentSessionName)
      ensures history == old(history) && registry == old(registry) && templates == old(templates)
    {
      if name !in players {
        NewKeyKeepsLedger(order, players, totalBuyIn, name, FreshPlayer);
        players := players[name := FreshPlayer];
        order := order + [name];
      }
      var p := players[name];
      p := p.(isLeft := false);
      p := p.(buyIn := p.buyIn + amount);
      p := p.(buyInCount := p.buyInCount + 1);
      ChangeKeepsLedger(order, players, totalBuyIn, name, p);
      players := players[name := p];
      totalBuyIn := totalBuyIn + amount;
    }

    /** script.js `updatePlayerCashOut`: overwrites a known player's cash-out
        and nothing else; an unknown name changes nothing. */
    method UpdatePlayerCashOut(name: string, amount: int)
      requires Valid()
      modifies this
      ensures Valid()
      ensures name in old(players) ==> players == old(players)[name := old(players)[name].(cashOut := amount)]
      ensures name !in old(players) ==> players == old(players)
      ensures order == old(order) && totalBuyIn == old(totalBuyIn)
      ensures currentSessionName == old(currentSessionName)
      ensures history == old(history) && registry == old(registry) && templates == old(templates)
    {
      if name in players {
        var p := players[name].(cashOut := amount);
        ChangeKeepsLedger(order, players, totalBuyIn, name, p);
        players := players[name := p];
      }
    }

    /** script.js `removePlayer`: a known player cashes out and leaves, with
        the buy-in and buy-in count kept; an unknown name changes nothing. */
    method RemovePlayer(name: string, cashOutAmount: int)
      requires Valid()
      modifies this
      ensures Valid()
      ensures name in old(players) ==>
                players == old(players)[name := old(players)[name].(cashOut := cashOutAmount, isLeft := true)]
      ensures name !in old(players) ==> players == old(players)
      ensures order == old(order) && totalBuyIn == old(totalBuyIn)
      ensures currentSessionName == old(currentSessionName)
      ensures history == old(history) && registry == old(registry) && templates == old(templates)
    {
      if name in players {
        var p := players[name].(cashOut := cashOutAmount);
        p := p.(isLeft := true);
        ChangeKeepsLedger(order, players, totalBuyIn, name, p);
        players := players[name := p];
      }
    }

    /** script.js `saveTemplate`: stores or replaces a preset. */
    method SaveTemplate(name: string, config: Template)
      modifies this
      ensures templates == old(templates)[name := config]
      ensures name in templates && templates[name] == config
      ensures totalBuyIn == old(totalBuyIn) && players == old(players) && order == old(order)
      ensures currentSessionName == old(currentSessionName)
      ensures history == old(history) && registry == old(registry)
    {
      templates := templates[name := config];
    }

    /** script.js `deleteTemplate`: removes a preset if present. */
    method DeleteTemplate(name: string)
      modifies this
      ensures templates == old(templates) - {name}
      ensures name !in templates
      ensures totalBuyIn == old(totalBuyIn) && players == old(players) && order == old(order)
      ensures currentSessionName == old(currentSessionName)
      ensures history == old(history) && registry == old(registry)
    {
      templates := templates - {name};
    }

    /** script.js `addToHistory`: the finished session goes to the front of
        the archive. */
    method AddToHistory(session: Session)
      modifies this
      ensures history == [session] + old(history)
      ensures |history| == |old(history)| + 1 && history[0] == session
      ensures totalBuyIn == old(totalBuyIn) && players == old(players) && order == old(order)
      ensures currentSessionName == old(currentSessionName)
      ensures registry == old(registry) && templates == old(templates)
    {
      history := [session] + history;
    }

    /** The body of the `forEach` in script.js `updateRegistryFromSession`:
        one result folded into the record of its canonical name, in place. */
    method RecordResult(r: Result, date: string)
      modifies this
      ensures registry == Registry.FoldResult(old(registry), r, date)
      ensures totalBuyIn == old(totalBuyIn) && players == old(players) && order == old(order)
      ensures currentSessionName == old(currentSessionName)
      ensures history == old(history) && templates == old(templates)
    {
      var regKey := CapitalizeName(r.name);
      if regKey !in registry {
        registry := registry[regKey := Registry.NewEntry(regKey)];
      }
      var p := registry[regKey];
      p := p.(sessions := p.sessions + 1);
      p := p.(totalProfit := p.totalProfit + r.net);
      p := p.(totalBuyIns := p.totalBuyIns + r.buyIn);
      var rebuys := if r.buyInCount != 0 then r.buyInCount - 1 else 0;
      if rebuys < 0 {
        rebuys := 0;
      }
      p := p.(totalRebuys := p.totalRebuys + rebuys);
      if r.net > p.biggestWin {
        p := p.(biggestWin := r.net);
      }
      if r.net < p.biggestLoss {
        p := p.(biggestLoss := r.net);
      }
      p := p.(lastPlayed := Some(date));
      registry := registry[regKey := p];
    }

    /** script.js `updateRegistryFromSession`: folds each result into the
        record of its canonical name, creating the record on first sight.
        The registry afterwards is `FoldSession` of the old one, whose
        per-key counters and extremes `Registry` proves; a valid registry
        stays valid. */
    method UpdateRegistryFromSession(results: seq<Result>, date: string)
      modifies this
      ensures registry == Registry.FoldSession(old(registry), results, date)
      ensures Registry.Valid(old(registry)) ==> Registry.Valid(registry)
      ensures totalBuyIn == old(totalBuyIn) && players == old(players) && order == old(order)
      ensures currentSessionName == old(currentSessionName)
      ensures history == old(history) && templates == old(templates)
    {
      var k := 0;
      while k < |results|
        invariant 0 <= k <= |results|
        invariant registry == Registry.FoldSession(old(registry), results[..k], date)
        invariant totalBuyIn == old(totalBuyIn) && players == old(players) && order == old(order)
        invariant currentSessionName == old(currentSessionName)
        invariant history == old(history) && templates == old(templates)
      {
        RecordResult(results[k], date);
        assert results[..k + 1][..k] == results[..k];
        k := k + 1;
      }
      assert results[..k] == results;
      if Registry.Valid(old(registry)) {
        Registry.FoldSessionValid(old(registry), results, date);
      }
    }
  }
}
