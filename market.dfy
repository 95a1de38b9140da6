/** The market data an episode walks over and the configuration it is built with.
    Prices and volumes are exact reals; the observation is the row at the cursor. */
module Market {

  datatype Option<T> = None | Some(value: T)

  /** One row of the data frame: the five columns the environment reads. */
  datatype Bar = Bar(open: real, high: real, low: real, close: real, volume: real)

  /** A data frame as the environment sees it: its column names and its rows,
      indexed contiguously from 0. */
  datatype Frame = Frame(columns: set<string>, bars: seq<Bar>)

  const OhlcvColumns: set<string> := {"Open", "High", "Low", "Close", "Volume"}

  /** The constructor's assertion: every OHLCV column is present. */
  predicate HasOhlcv(df: Frame): (ok: bool)
    ensures ok <==> "Open" in df.columns && "High" in df.columns && "Low" in df.columns
                    && "Close" in df.columns && "Volume" in df.columns
  {
    OhlcvColumns <= df.columns
  }

  /** The constructor's parameters; `maxTrades == None` means no upper bound. */
  datatype Config = Config(
    commission: real,
    minTrades: int,
    maxTrades: Option<int>,
    positionLimit: int,
    tradePenalty: real)

  /** The constructor's defaults: a small positive commission, at least one trade,
      no upper bound on trades, at most five open positions, a unit penalty. */
  function DefaultConfig(): (cfg: Config)
    ensures 0.0 < cfg.commission < 1.0
    ensures cfg.minTrades == 1 && cfg.maxTrades.None?
    ensures PositionBound(cfg) == 5 && cfg.tradePenalty == 1.0
  {
    Config(0.0005, 1, None, 5, 1.0)
  }

  /** The largest number of open positions a buy can lead to: a limit below zero
      admits no buy at all. */
  function PositionBound(cfg: Config): nat {
    if cfg.positionLimit < 0 then 0 else cfg.positionLimit
  }

  const ObservationWidth: nat := 5

  /** The observation at row `i`: Open, High, Low, Close, Volume in that order. */
  function Observation(bars: seq<Bar>, i: nat): (obs: seq<real>)
    requires i < |bars|
    ensures |obs| == ObservationWidth
    ensures obs[3] == bars[i].close
  {
    var b := bars[i];
    [b.open, b.high, b.low, b.close, b.volume]
  }

  /** The observation returned once the episode is done. */
  function ZeroObservation(): (obs: seq<real>)
    ensures |obs| == ObservationWidth
    ensures forall k :: 0 <= k < |obs| ==> obs[k] == 0.0
  {
    [0.0, 0.0, 0.0, 0.0, 0.0]
  }
}
