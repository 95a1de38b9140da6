/** Settling one open position, and the ledger of all settled positions: the running
    profit-and-loss, the win count and the risk/reward samples are sums over it. */
module Settlement {
  import opened Market

  /** A settled position: its effective entry price (the entry close inflated by the
      commission) and the raw close at which it was settled. */
  datatype Trade = Trade(entry: real, exit: real)

  function Abs(x: real): (r: real)
    ensures r >= 0.0 && (r == x || r == -x)
  {
    if x < 0.0 then -x else x
  }

  /** The effective price recorded by a buy at close `close`: never below the close
      when the commission and the close are not negative, and the close itself
      without commission. */
  function EntryPrice(cfg: Config, close: real): (r: real)
    ensures cfg.commission >= 0.0 && close >= 0.0 ==> r >= close
    ensures cfg.commission == 0.0 ==> r == close
  {
    close * (1.0 + cfg.commission)
  }

  /** Realised profit-and-loss: the exit close deflated by the commission, less the
      entry. When the exit close is not negative, a commission that is not negative
      never improves on the raw price move, and without commission it is that move. */
  function Pnl(cfg: Config, t: Trade): (r: real)
    ensures cfg.commission >= 0.0 && t.exit >= 0.0 ==> r <= t.exit - t.entry
    ensures cfg.commission == 0.0 ==> r == t.exit - t.entry
  {
    t.exit * (1.0 - cfg.commission) - t.entry
  }

  /** The price move a risk/reward sample is divided by. */
  function Divisor(t: Trade): real {
    Abs(t.entry - t.exit)
  }

  /** The guard the source writes before computing a risk/reward sample: it only
      asks for a non-zero entry, and says nothing about the exit. */
  predicate GuardAsWritten(t: Trade): (ok: bool)
    ensures ok <==> t.entry != 0.0
  {
    t.entry != 0.0
  }

  /** The guard as written lets a zero divisor through: without commission, a buy
      and a sell at the same non-zero close pass it with a price move of zero, and
      the corrected rule records no sample for them. */
  lemma AsWrittenGuardAdmitsZeroDivisor(cfg: Config, c: real)
    requires cfg.commission == 0.0 && c != 0.0
    ensures var t := Trade(EntryPrice(cfg, c), c);
            GuardAsWritten(t) && Divisor(t) == 0.0 && SampleOf(cfg, t) == []
  {
  }

  /** The risk/reward sample a settlement records: none, or one ratio of the
      profit-and-loss to the price move. The source's guard is kept and a zero
      divisor is excluded as well. */
  function SampleOf(cfg: Config, t: Trade): (s: seq<real>)
    ensures |s| <= 1
    ensures s != [] ==> GuardAsWritten(t) && Divisor(t) != 0.0
  {
    if GuardAsWritten(t) && Divisor(t) != 0.0 then [Pnl(cfg, t) / Divisor(t)] else []
  }

  /** A trade yields at most one sample, exactly when the source's guard holds and the
      price move is not zero, and the sample times the price move is the trade's
      profit-and-loss. */
  lemma SampleIsRatio(cfg: Config, t: Trade)
    ensures |SampleOf(cfg, t)| <= 1
    ensures SampleOf(cfg, t) != [] <==> GuardAsWritten(t) && Divisor(t) != 0.0
    ensures SampleOf(cfg, t) != [] ==> SampleOf(cfg, t)[0] * Divisor(t) == Pnl(cfg, t)
  {
  }

  /** Sum of the profit-and-loss of every trade in `ts`. */
  function TotalPnl(cfg: Config, ts: seq<Trade>): real
    decreases |ts|
  {
    if ts == [] then 0.0 else TotalPnl(cfg, ts[..|ts| - 1]) + Pnl(cfg, ts[|ts| - 1])
  }

  /** Number of trades in `ts` with a strictly positive profit-and-loss. */
  function WinCount(cfg: Config, ts: seq<Trade>): nat
    decreases |ts|
  {
    if ts == [] then 0
    else WinCount(cfg, ts[..|ts| - 1]) + (if Pnl(cfg, ts[|ts| - 1]) > 0.0 then 1 else 0)
  }

  /** The risk/reward samples of the trades in `ts`, in settlement order. */
  function Samples(cfg: Config, ts: seq<Trade>): seq<real>
    decreases |ts|
  {
    if ts == [] then [] else Samples(cfg, ts[..|ts| - 1]) + SampleOf(cfg, ts[|ts| - 1])
  }

  /** The ledger of a single trade. */
  lemma LedgerSingle(cfg: Config, t: Trade)
    ensures TotalPnl(cfg, [t]) == Pnl(cfg, t)
    ensures WinCount(cfg, [t]) == if Pnl(cfg, t) > 0.0 then 1 else 0
    ensures Samples(cfg, [t]) == SampleOf(cfg, t)
  {
    assert [t][..0] == [];
  }

  /** The ledger of two runs of trades is the sum of their ledgers. */
  lemma {:induction false} LedgerConcat(cfg: Config, a: seq<Trade>, b: seq<Trade>)
    ensures TotalPnl(cfg, a + b) == TotalPnl(cfg, a) + TotalPnl(cfg, b)
    ensures WinCount(cfg, a + b) == WinCount(cfg, a) + WinCount(cfg, b)
    ensures Samples(cfg, a + b) == Samples(cfg, a) + Samples(cfg, b)
    decreases |b|
  {
    if b == [] {
      assert a + b == a;
    } else {
      var b' := b[..|b| - 1];
      assert (a + b)[..|a + b| - 1] == a + b';
      assert (a + b)[|a + b| - 1] == b[|b| - 1];
      LedgerConcat(cfg, a, b');
    }
  }

  /** Wins are counted among the trades: never more wins than trades. */
  lemma {:induction false} WinsAtMostTrades(cfg: Config, ts: seq<Trade>)
    ensures WinCount(cfg, ts) <= |ts|
    decreases |ts|
  {
    if ts != [] {
      WinsAtMostTrades(cfg, ts[..|ts| - 1]);
    }
  }

  /** Every trade yields at most one risk/reward sample. */
  lemma {:induction false} SamplesAtMostTrades(cfg: Config, ts: seq<Trade>)
    ensures |Samples(cfg, ts)| <= |ts|
    decreases |ts|
  {
    if ts != [] {
      SamplesAtMostTrades(cfg, ts[..|ts| - 1]);
      SampleIsRatio(cfg, ts[|ts| - 1]);
    }
  }
}
