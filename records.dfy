/** The records the engine passes around. Money is whole rupees (`int`);
    a player's net is derived (`cashOut - buyIn`), never stored in the ledger. */
module Records {
  import opened Basics

  /** One participant of the active session (a value of `state.players`). */
  datatype Player = Player(buyIn: int, cashOut: int, buyInCount: nat, isLeft: bool)

  /** A zeroed record, as created on a player's first buy-in. */
  const FreshPlayer := Player(0, 0, 0, false)

  /** A (key, record) pair of the ledger, in the ledger's key order. */
  datatype Entry = Entry(name: string, player: Player)

  /** One row of a session's results, as the statistics produce it and the
      archive stores it. */
  datatype Result = Result(name: string, net: int, buyInCount: int, buyIn: int, cashOut: int)

  /** What the settler reads of a result: a name and a net. */
  datatype Balance = Balance(name: string, net: int)

  /** `from` pays `to` the sum `amount`. */
  datatype Transfer = Transfer(from: string, to: string, amount: int)

  /** One line of a settlement: the "All settled!" sentinel or a payment
      (the source renders the payment as text; only its parts are kept). */
  datatype Line = AllSettled | Payment(transfer: Transfer)

  /** A player and the value they lead on: the shark's (biggest winner's) or
      the atm's (biggest loser's) net; during the statistics pass also the
      buy-in count of the rebuy leader and the score of the tightest player,
      which the source keeps in records of their own. */
  datatype Standing = Standing(name: string, amount: int)

  /** The player with most buy-ins and that count. */
  datatype RebuyLeader = RebuyLeader(name: string, count: int)

  /** Whole hours and minutes of a session's length. */
  datatype Duration = Duration(hours: int, minutes: int)

  /** The session insights; `None` is the source's "-". */
  datatype Insights = Insights(
    biggestSwing: int,
    mostRebuys: Option<RebuyLeader>,
    tightest: Option<string>,
    longestSession: Option<Duration>,
    avgBuyIn: int)

  /** What the statistics pass returns; `None` stands for the source's
      infinite sentinels of an empty session. */
  datatype Stats = Stats(
    results: seq<Result>,
    shark: Option<Standing>,
    atm: Option<Standing>,
    maxAbsVal: int,
    insights: Insights)

  /** A completed session as the archive keeps it. */
  datatype Session = Session(
    date: string,
    name: string,
    location: string,
    shark: string,
    totalPot: int,
    results: seq<Result>,
    settlements: seq<Line>,
    isRunningBalance: bool,
    insights: Insights)

  /** Lifetime statistics of one canonical player name. */
  datatype RegistryEntry = RegistryEntry(
    name: string,
    sessions: int,
    totalProfit: int,
    totalBuyIns: int,
    totalRebuys: int,
    biggestWin: int,
    biggestLoss: int,
    lastPlayed: Option<string>)

  /** A saved session preset. */
  datatype Template = Template(buyIn: int, denoms: seq<string>, location: string, running: bool)

  /** The buy-ins of the ledger entries, in key order. */
  function BuyIns(es: seq<Entry>): seq<int>
  {
    seq(|es|, k requires 0 <= k < |es| => es[k].player.buyIn)
  }
}
