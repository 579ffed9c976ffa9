/**
 The data model of the trading journal: the entry form a trader fills in,
 the immutable trade record a commit produces, and the operating modes.

 Every numeric field arrives as free text.  The model keeps, for each such
 field, the number the text coerces to (unparseable or empty text coerces
 to 0), and, for the two fields a commit insists on, whether the text was
 non-empty at all.
 */
module Trades {

  /** The balance the account starts from; also the seed of the running peak. */
  const InitialBalance: real := 100000.0

  /** A text field: `filled` says the text is non-empty, `value` is its coercion. */
  datatype Entry = Entry(filled: bool, value: real)

  /** The entry form (a trade setup not yet committed). */
  datatype Setup = Setup(
    date: string,          // ISO date, `YYYY-MM-DD`
    pair: string,
    dailyDir: string,      // direction on the daily chart: "UP", "DOWN" or "RANGE"
    h4Dir: string,         // direction on the 4-hour chart
    h1Push: string,
    m15Push: string,
    breakQuality: string,  // breakout grade: "A", "B" or "C"
    spacePips: real,
    timeScore: real,
    riskPct: real,
    rr: Entry,             // planned reward-to-risk ratio (mandatory)
    resultR: Entry         // realised result in multiples of the risk (mandatory)
  )

  /** A committed trade: the form it came from plus what the commit computed. */
  datatype Trade = Trade(
    setup: Setup,
    id: int,
    score: real,
    pnl: real,
    balance: real,
    win: bool
  )

  /** The coerced result in R of a committed trade. */
  function R(t: Trade): real {
    t.setup.resultR.value
  }

  datatype Option<+T> = None | Some(value: T)

  datatype Result<+T, +E> = Success(value: T) | Failure(error: E)

  /** The four operating modes of the account. */
  datatype Mode = Stopped | Defense | Normal | Attack {

    /** The recommended risk percentage for the next trade in this mode. */
    function Risk(): (r: nat)
      ensures r <= 3
      ensures r == 0 <==> this == Stopped
      ensures r == 1 <==> this == Defense
      ensures r == 2 <==> this == Normal
      ensures r == 3 <==> this == Attack
    {
      match this
      case Stopped => 0
      case Defense => 1
      case Normal => 2
      case Attack => 3
    }
  }

  /** The balance after the last trade, or the initial balance for an empty ledger. */
  function Balance(ts: seq<Trade>): real {
    if |ts| == 0 then InitialBalance else ts[|ts| - 1].balance
  }
}
