# ChipCheck settlement and session-analytics engine in Dafny

ChipCheck tracks the buy-ins and cash-outs of an informal poker session,
derives each player's net, suggests the payments that settle all balances,
computes the session's statistics and folds finished sessions into a
lifetime registry. This project models that engine, the core of
`script.js`, and proves its properties:

- `basics.dfy` — `Option`, integer helpers, `Sum`, `Math.round` of a
  quotient (`RoundDiv`), and a stable sort (`SortBy`) standing for
  `Array.prototype.sort` with a numeric comparator.
- `records.dfy` — the records: ledger players, result rows, balances,
  transfers, settlement lines, insights, archived sessions, registry
  entries and templates.
- `names.dfy` — `capitalizeName`, the canonical key of a player name.
- `settlement.dfy` — `greedySettlement`: debtors and creditors split off,
  sorted, and paired by a two-cursor loop (`PairOff`); the loop is proved
  equal to a list-level specification (`Settle`) whose conservation,
  party, count and sentinel properties are proved. `calculateSettlements`
  with its running-balance tally over the archive.
- `stats.dfy` — `calculateSessionStats`: the single pass over the ledger
  (`ScanPlayers`), proved against specification functions for the
  shark, the atm, the largest swing, the rebuy leader and the tightest
  player; the sorted results, the average buy-in and the session length.
- `registry.dfy` — `updateRegistryFromSession` as a fold over maps, with
  a per-key reference definition and the counter, extreme and validity
  properties.
- `state.dfy` — the application state as a class: the ledger actions
  (`resetState`, `addPlayer`, `updatePlayerCashOut`, `removePlayer`) keep
  the pot equal to the sum of the buy-ins; the registry update runs in
  place and is proved equal to the fold; the archive prepend and the
  template actions.

Money is whole rupees (`int`): the source's `0.01` tolerances become exact
comparisons with zero and `Math.round(amount)` of a whole amount is the
amount itself. The `-Infinity`/`Infinity` starting values of the leaders
become `None`. JavaScript objects enumerate keys in insertion order; the
ledger keeps that order explicitly (`State.order`) and the tally is a
sequence of `(name, net)` pairs in first-seen order. The clock is a
parameter (`startTime`, `now`), and so is the archive date.

## Model

| member | source | states |
|---|---|---|
| Basics.RoundDiv | script.js:303 | `Math.round(p / c)` for a positive count: the result is within half a unit of the exact quotient, halves rounding up |
| Basics.SortBySorted | script.js:224-225 | the stable sort puts its input in ascending order of the key; `SortBy`'s own contract says it is a permutation of its input |
| Basics.SortBy | script.js:224-225 | `Array.prototype.sort` with a numeric comparator: an insertion sort ascending by the key, each element placed before the first one whose key is not smaller; the result is a permutation of the input |
| Basics.SortByStable | script.js:224-225 | the sort is stable: for every key value, the elements with that key come out in the order they went in, so tied debtors and creditors are paid in ledger order |
| Basics.SumUpdate | script.js:47-50 | replacing one buy-in in the ledger changes the pot sum by the difference |
| Names.CapitalizeName | script.js:123-125 | the key keeps the length, agrees with the name ignoring case, and is in canonical form (first character not lower case, the rest not upper case) |
| Names.Lower | script.js:124 | `toLowerCase` on ASCII: same length, each character lowered |
| Names.CapitalizedUnique | script.js:123-125 | two canonical names that agree ignoring case are equal |
| Names.CaseVariantsShareKey | script.js:123-125 | names that agree ignoring case ("bOB", "Bob") get the same key |
| Names.CapitalizeFixesCanonical | script.js:123-125 | a name already in canonical form is its own key |
| Names.CapitalizeIdempotent | script.js:123-125 | canonicalising twice is canonicalising once |
| Names.CapitalizeExample | script.js:123-125 | "bOB" and "Bob" both map to "Bob" |
| Settlement.PartitionMembers | script.js:224-225 | debtors are exactly the entries with a negative net, creditors exactly those with a positive net |
| Settlement.Debtors | script.js:224 | `results.filter(r => r.net < 0)`: the entries with a negative net, in input order |
| Settlement.Creditors | script.js:225 | `results.filter(r => r.net > 0)`: the entries with a positive net, in input order |
| Settlement.SortedDebtors | script.js:224 | the debtors sorted by `a.net - b.net`, stably, most negative first |
| Settlement.SortedCreditors | script.js:225 | the creditors sorted by `b.net - a.net`, stably, largest first |
| Settlement.PartitionSums | script.js:224-225 | dropping zero-net entries keeps the total and every name's sum |
| Settlement.PartitionEmpty | script.js:224-225 | no debtors exactly when no net is negative; no creditors exactly when no net is positive |
| Settlement.SortedPartsOrder | script.js:224-225 | debtors come out most negative first, creditors largest first |
| Settlement.SortedPartsMembers | script.js:224-225 | the sorted debtors (creditors) hold exactly the negative (positive) entries |
| Settlement.Settle | script.js:234-253 | the list-level walk: the head debtor pays the head creditor the smaller of the two balances, each head moves by that amount and is dropped once it reaches zero, until one side is empty |
| Settlement.Walk | script.js:234-253 | the loop state for state: working copies updated in place at cursors `i` and `j`, a payment pushed only when positive, each cursor advanced when its balance reaches zero |
| Settlement.Lines | script.js:255-256 | the `["All settled!"]` sentinel exactly when there is no payment, otherwise one line per payment in order |
| Settlement.SettleLength | script.js:234-253 | the walk emits nothing exactly when one side is empty, otherwise at most one transfer fewer than there are balances |
| Settlement.SettleParties | script.js:234-253 | every transfer is positive, from a debtor's name to a creditor's name |
| Settlement.SettleConserves | script.js:234-253 | when debts and credits balance, each name's net plus what it pays minus what it receives is zero |
| Settlement.WalkIsSettle | script.js:234-253 | the in-place two-cursor walk over working copies emits exactly the list-level settlement of the suffixes from the cursors |
| Settlement.PairOff | script.js:227-253 | the loop's transactions are the in-place walk from cursors 0, 0 of the copied lists |
| Settlement.GreedySettlement | script.js:223-257 | the returned lines are the payments of the settlement of the sorted debtors and creditors, or the "All settled!" sentinel alone when there is none |
| Settlement.GreedyConserves | script.js:223-257 | if the nets sum to zero, applying the payments brings every name's balance to zero |
| Settlement.GreedyParties | script.js:223-257 | every payment is positive, from a name with a negative net to a name with a positive net |
| Settlement.GreedyCount | script.js:223-257 | no payment when either side is empty, otherwise at most debtors + creditors - 1 payments |
| Settlement.GreedyAllSettled | script.js:255-256 | the result is the sentinel exactly when no net is negative or no net is positive |
| Settlement.BalancedAllSettled | script.js:223-257 | for nets summing to zero, the sentinel is returned exactly when every net is zero |
| Settlement.ThreeWayExample | script.js:223-257 | A -300, B -200, C 500 settle as A pays C 300, then B pays C 200 |
| Settlement.OnePaymentExample | script.js:223-257 | A -100, B 100 settle as one payment of 100 from A to B |
| Settlement.Find | script.js:208 | the position of a name in the tally, if any: absent exactly when no entry carries the name (`!tally[r.name]`) |
| Settlement.AddToTally | script.js:208-209 | one `tally[r.name] += r.net`: a new name appended as a new key, a known name's entry increased in place |
| Settlement.AddToTallySpec | script.js:208-209 | one tally step keeps names distinct and earlier keys in place, adds the name, and adds the net to that name alone |
| Settlement.Tally | script.js:204-217 | the tally built over the archived results and then the current ones, as `Object.keys(tally)` enumerates it: in first-seen order |
| Settlement.TallySpec | script.js:203-217 | the tally has one entry per distinct name and each entry sums that name's nets; no amount is lost |
| Settlement.WorkingBalances | script.js:201-217 | `workingResults`: the tally in running-balance mode with an archive (an empty archive is truthy), otherwise the current results |
| Settlement.WorkingBalancesSpec | script.js:199-218 | in running-balance mode with an archive, one entry per name of the archived and current results holding that name's summed net; otherwise the current results unchanged |
| Settlement.CalculateSettlements | script.js:199-221 | the lines are the greedy settlement of the working balances |
| Settlement.RunningExample | script.js:199-218 | an archived -50 and a current -50 for A tally to one entry of -100 |
| Stats.FirstMaxSpec | script.js:279 | a scan replacing only on a strictly larger value keeps the first position of the maximum |
| Stats.FirstMinSpec | script.js:280 | a scan replacing only on a strictly smaller value keeps the first position of the minimum |
| Stats.MaxAbsSpec | script.js:281 | the running magnitude is the largest absolute net, or 0 when there is none |
| Stats.Shark | script.js:279 | the first player with the largest net and that net; none for an empty ledger |
| Stats.Atm | script.js:280 | the first player with the smallest net and that net; none for an empty ledger |
| Stats.MostRebuys | script.js:283-285 | the first player with most buy-ins and the count, reported (line 310) only when the count is above 1 |
| Stats.Tightest | script.js:287-290 | the first player with the lowest `buyInCount * 10000 + Math.abs(net)`; none for an empty ledger |
| Stats.AverageBuyIn | script.js:303 | 0 without players, otherwise the pot over the player count rounded to the nearest whole |
| Stats.JsRem | script.js:299 | JavaScript's `%`: the remainder of division truncated toward zero, smaller than the divisor in magnitude and with the sign of the dividend |
| Stats.Elapsed | script.js:297-300 | hours are `Math.floor(diff / 3600000)` and minutes `Math.floor` of the remainder over 60000; minutes lie in 0..59 for a non-negative span and in -60..0 for a negative one |
| Stats.ElapsedSpec | script.js:296-301 | for a non-negative span, whole hours and minutes below 60 that give the span to the minute |
| Stats.ElapsedNegativeExample | script.js:297-300 | a span of -1 ms reads as -1 h -1 m and one of -3600001 ms as -2 h -1 m, as `Math.floor` and `%` give them |
| Stats.SessionLength | script.js:295-301 | a length exactly when the start time is present and not 0 (truthy), and then the time elapsed until now |
| Stats.VisitLeaders | script.js:279-290 | one entry's comparisons keep every leader the first best entry among those seen |
| Stats.ScanPlayers | script.js:259-291 | the pass produces one row per player in key order, the pot sum, the player count, the shark, the atm, the largest swing, and the entries with most buy-ins and lowest score |
| Stats.CalculateSessionStats | script.js:259-318 | results sorted by descending net; shark, atm, swing and insights as the specification functions give them, with the rebuy leader only above one buy-in and the session length only for a truthy start time |
| Stats.LeadersSpec | script.js:279-313 | the shark and the atm are the first players with the largest and smallest net, the rebuy leader the first with most buy-ins and reported exactly when someone bought in twice, the tightest the first with the lowest score; each is absent exactly for an empty ledger |
| Stats.ResultsSpec | script.js:273-293 | the results are a permutation of the ledger's rows, one per player, each with net = cashOut - buyIn, in descending order of net |
| Registry.Rebuys | script.js:108-109 | a session's rebuys are max(buyInCount - 1, 0) |
| Registry.Record | script.js:104-115 | one result folded into a record: one more session, the net, buy-in and rebuys added, the win raised and the loss lowered to the net when it passes them, the date stamped |
| Registry.FoldResult | script.js:87-116 | one `forEach` iteration: the result's canonical key is present afterwards (created zeroed on first sight), every other key keeps its record or stays absent |
| Registry.FoldSession | script.js:86-117 | the results folded in order; no key is ever removed |
| Registry.Matching | script.js:89 | the results whose canonical name is the key, in order: every one of them is a result of the session carrying that key |
| Registry.FoldSessionKey | script.js:86-117 | a key is in the registry afterwards exactly when it was before or a result carries it, and its record is its old (or fresh) record with only that key's results folded in |
| Registry.UntouchedKey | script.js:86-117 | a key that no result carries keeps its record, or stays absent |
| Registry.ResultLands | script.js:89-115 | every result's canonical key is present afterwards, stamped with the date |
| Registry.ApplyCounters | script.js:104-115 | sessions grow by the number of results, profit, buy-ins and rebuys by their sums; the name is kept and the date is stamped |
| Registry.ApplyWin | script.js:112 | biggestWin only grows: at least its old value and every net folded in, and equal to one of them |
| Registry.ApplyLoss | script.js:113 | biggestLoss only shrinks: at most its old value and every net folded in, and equal to one of them |
| Registry.FoldSessionValid | script.js:91-113 | records stay keyed by their own name with non-negative counts, a win of at least 0 and a loss of at most 0 |
| Registry.FirstSessionExample | script.js:86-117 | "bob" with net 200, buy-in 500 and three buy-ins creates "Bob" with one session, profit 200, buy-ins 500, two rebuys, win 200, loss 0 and the date |
| AppState.NewKeyKeepsLedger | script.js:44-50 | a new key joins the end of the key order and its buy-in joins the pot, keeping the pot equal to the sum of the buy-ins |
| AppState.ChangeKeepsLedger | script.js:47-63 | changing a known player's record moves the pot by the change in that player's buy-in |
| AppState.State.constructor | script.js:7-19 | the initial state: empty ledger, pot 0, empty archive, registry and templates |
| AppState.EntriesOfLedger | script.js:271-272 | the ledger read in key order lists each player once with their own record, and the buy-ins sum to the pot |
| AppState.StatsRowsOfLedger | script.js:271-293 | the sorted statistics rows of a valid ledger are one per player, with that player's buy-in and net, largest net first |
| AppState.State.Entries | script.js:271-272 | `Object.keys(players)` with each key's record: one entry per player, each with its own record, buy-ins summing to the pot |
| AppState.State.SessionStats | script.js:741 | `calculateSessionStats(state.players, ...)`: one row per player carrying that player's buy-in and net, largest net first, and the average buy-in of the pot over the player count |
| AppState.State.ResetState | script.js:37-41 | the ledger, the pot and the session name are cleared; archive, registry and templates stay |
| AppState.State.AddPlayer | script.js:43-51 | an unknown name gets a zeroed record at the end of the key order; the player is back at the table with amount added to the buy-in and the pot and one more buy-in; every other player is unchanged and the pot stays the sum of the buy-ins |
| AppState.State.UpdatePlayerCashOut | script.js:53-57 | a known player's cash-out is overwritten and nothing else changes; an unknown name changes nothing |
| AppState.State.RemovePlayer | script.js:59-64 | a known player's cash-out is overwritten and the player marked as left, buy-in and count kept; an unknown name changes nothing |
| AppState.State.SaveTemplate | script.js:78-80 | the preset is stored under its name, replacing any earlier one |
| AppState.State.DeleteTemplate | script.js:82-84 | the preset is gone; the others stay |
| AppState.State.AddToHistory | script.js:119-121 | the session becomes the first of the archive, the rest follows in order |
| AppState.State.RecordResult | script.js:87-116 | one result folded in place is one step of the registry fold |
| AppState.State.UpdateRegistryFromSession | script.js:86-117 | the registry afterwards is the fold of the results over the old registry, a valid registry stays valid, and nothing else changes |

## Left out

- Persistence to `localStorage` and JSON (de)serialisation, the DOM
  rendering and event handlers, the `html2canvas` export, clipboard
  sharing, the `setInterval` clock and the random demo: browser I/O and UI.
- `setSessionConfig`, `setHistory`, `setRegistry` and `setTemplates`:
  plain field assignments that restore or configure state; the fields they
  set other than those above (buy-in preset, denominations, location,
  start time, mode) are not part of the `State` class.
- Floating-point money: amounts are whole rupees, so the `0.01` tolerances
  are exact zero tests and the rounding of an amount is the identity.
- `Date.now()` and `toLocaleString()`: the current time and the archive
  date are parameters.
- Text formatting: a settlement line is kept as its `(from, to, amount)`
  triple instead of the rendered string, the session length as whole hours
  and minutes, the rebuy leader as a name and a count, the average buy-in
  as a number.
- Names.CapitalizeName: case mapping is ASCII only; JavaScript's Unicode
  case mapping and its UTF-16 `charAt` are not modelled.
- Key order: integer-like keys, which a JavaScript object enumerates first
  in numeric order, are not modelled; every key is enumerated in insertion
  order.
- Missing fields: a session without `results` (skipped by the tally) and a
  result without `buyInCount` (counted as no rebuys) cannot occur in the
  typed model.
- AppState.State.AddPlayer: the name is used as given; the caller
  canonicalises it before the call (script.js:730), which is UI code.
- Stats.ScanPlayers: the leaders are kept as a name and the value they lead
  on; the source's extra `count` and `net` fields of the tightest player
  are not kept, since only the name reaches the insights.
- Settlement.Settle: the source's `amount > 0` guard is kept in the loop
  (`PairOff`, `Walk`) and proved never to drop a payment, so the list-level
  specification emits every step's payment.
