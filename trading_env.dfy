/** The environment object: it keeps the episode's state in fields and updates them
    in place, one `Step` at a time. Each method is proved to leave exactly the state
    the pure transition of module Episodes describes. */
module Environment {
  import opened Market
  import opened Settlement
  import opened Episodes

  class TradingEnv {
    const bars: seq<Bar>
    const cfg: Config

    var index: nat
    var positions: seq<real>
    var totalTrades: nat
    var wins: nat
    var totalReward: real
    var riskRewards: seq<real>

    /** The fields as an episode value. */
    function State(): Episode
      reads this
    {
      Episode(index, positions, totalTrades, wins, totalReward, riskRewards)
    }

    /** The object invariant: the cursor is at most one past the last row, and the
        position bound and wins <= trades hold. */
    ghost predicate Valid()
      reads this
    {
      && |bars| > 0
      && index <= |bars|
      && Invariant(cfg, State())
    }

    /** Builds the environment over the rows of `df` and resets it. The data frame
        must have the OHLCV columns and at least one row (reset reads row 0). */
    constructor (df: Frame, cfg: Config)
      requires HasOhlcv(df)
      requires |df.bars| > 0
      ensures bars == df.bars && this.cfg == cfg
      ensures Valid() && State() == ResetEpisode()
    {
      bars := df.bars;
      this.cfg := cfg;
      new;
      var _ := Reset();
    }

    /** Starts a new episode at row 0 with no position and zeroed statistics. */
    method Reset() returns (obs: seq<real>)
      requires |bars| > 0
      modifies this
      ensures Valid() && State() == ResetEpisode()
      ensures obs == Observation(bars, 0)
    {
      index := 0;
      positions := [];
      totalTrades := 0;
      wins := 0;
      totalReward := 0.0;
      riskRewards := [];
      obs := GetObservation();
    }

    /** The row under the cursor. */
    method GetObservation() returns (obs: seq<real>)
      requires index < |bars|
      ensures obs == Observation(bars, index)
    {
      var row := bars[index];
      obs := [row.open, row.high, row.low, row.close, row.volume];
    }

    /** Pops the oldest position and settles it at `price`, returning its
        profit-and-loss. */
    method SettleOldest(price: real) returns (pnl: real)
      requires Valid() && positions != []
      modifies this
      ensures Valid()
      ensures State() == Settle(cfg, price, old(State()))
      ensures pnl == Pnl(cfg, Trade(old(positions)[0], price))
    {
      ghost var s0 := State();
      var buyPrice := positions[0];
      ghost var t := Trade(buyPrice, price);
      positions := positions[1..];
      totalTrades := totalTrades + 1;
      pnl := price * (1.0 - cfg.commission) - buyPrice;
      assert pnl == Pnl(cfg, t);
      totalReward := totalReward + pnl;
      if pnl > 0.0 {
        wins := wins + 1;
      }
      if buyPrice != 0.0 && Abs(buyPrice - price) != 0.0 {
        riskRewards := riskRewards + [pnl / Abs(buyPrice - price)];
      }
      assert riskRewards == s0.riskRewards + SampleOf(cfg, t);
      assert State() == Settle(cfg, price, s0) by {
        LedgerSingle(cfg, t);
      }
      SettleEffect(cfg, price, s0);
    }

    /** The buy or sell part of a step, at close `price`; returns its reward. */
    method Act(action: int, price: real) returns (reward: real)
      requires Valid()
      modifies this
      ensures Valid()
      ensures State() == ActOn(cfg, price, old(State()), action)
      ensures reward == ActionReward(cfg, price, old(State()), action)
    {
      ghost var e := State();
      reward := 0.0;
      if action == BUY && |positions| < cfg.positionLimit {
        positions := positions + [EntryPrice(cfg, price)];
        assert State() == e.(positions := e.positions + [EntryPrice(cfg, price)]);
      } else if action == SELL && positions != [] {
        var pnl := SettleOldest(price);
        reward := reward + pnl;
        assert State() == Settle(cfg, price, e);
      } else {
        assert State() == e;
      }
    }

    /** The terminal close-out: settles every open position, oldest first, at
        `price`; returns the sum of their profit-and-loss. */
    method CloseOut(price: real) returns (gained: real)
      requires Valid()
      modifies this
      ensures Valid()
      ensures State() == CloseAll(cfg, price, old(State()))
      ensures gained == TotalPnl(cfg, CloseOutTrades(price, old(positions)))
    {
      gained := 0.0;
      while positions != []
        invariant Valid()
        invariant CloseAll(cfg, price, State()) == CloseAll(cfg, price, old(State()))
        invariant gained + TotalPnl(cfg, CloseOutTrades(price, positions))
                  == TotalPnl(cfg, CloseOutTrades(price, old(positions)))
        decreases |positions|
      {
        CloseAllAfterSettle(cfg, price, State());
        var pnl := SettleOldest(price);
        gained := gained + pnl;
      }
    }

    /** The terminal trade-count penalties, applied to `reward`: one for each trade
        short of `minTrades`, one for each trade above `maxTrades`, each times
        `tradePenalty`. */
    method ApplyPenalties(reward: real) returns (r: real)
      ensures r == reward - Penalty(cfg, totalTrades)
    {
      r := reward;
      if totalTrades < cfg.minTrades {
        r := r - (cfg.minTrades - totalTrades) as real * cfg.tradePenalty;
      }
      if cfg.maxTrades.Some? && totalTrades > cfg.maxTrades.value {
        r := r - (totalTrades - cfg.maxTrades.value) as real * cfg.tradePenalty;
      }
    }

    /** Applies `action` (1 buy, 2 sell, anything else hold) at the close under the
        cursor, advances the cursor, and on reaching the last bar closes out every
        open position and applies the trade-count penalties. */
    method Step(action: int) returns (obs: seq<real>, reward: real, done: bool, truncated: bool, info: Stats)
      requires Valid() && index < |bars|
      modifies this
      ensures Valid()
      ensures var r := StepSpec(bars, cfg, old(State()), action);
              && State() == r.next
              && obs == r.obs && reward == r.reward && done == r.done
              && truncated == r.truncated && info == r.stats
      ensures index == old(index) + 1 && totalTrades >= old(totalTrades)
      ensures done ==> positions == []
    {
      ghost var e := State();
      StepCases(bars, cfg, e, action);
      done := false;
      var price := bars[index].close;
      reward := Act(action, price);
      index := index + 1;
      if index >= |bars| - 1 {
        done := true;
        var gained := CloseOut(price);
        reward := ApplyPenalties(reward + gained);
      }
      if !done {
        obs := GetObservation();
      } else {
        obs := ZeroObservation();
      }
      info := Stats(totalTrades, wins, Mean(riskRewards), totalReward);
      truncated := false;
    }
  }
}
