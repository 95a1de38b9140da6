/** The trading episode as a pure state-transition function: `StepSpec` maps the
    state before a step and the action to the state after it, the observation, the
    reward, the done flag and the statistics. The class in trading_env.dfy is proved
    to perform exactly this transition in place. */
module Episodes {
  import opened Market
  import opened Settlement

  const HOLD: int := 0
  const BUY: int := 1
  const SELL: int := 2

  /** The mutable state of the environment: the cursor, the FIFO queue of
      effective entry prices, and the cumulative statistics since the last reset. */
  datatype Episode = Episode(
    index: nat,
    positions: seq<real>,
    totalTrades: nat,
    wins: nat,
    totalReward: real,
    riskRewards: seq<real>)

  /** The info record every step returns. */
  datatype Stats = Stats(trades: nat, wins: nat, riskReward: real, pnl: real)

  /** What a step returns, together with the state it leaves behind. */
  datatype StepResult = StepResult(
    next: Episode,
    obs: seq<real>,
    reward: real,
    done: bool,
    truncated: bool,
    stats: Stats)

  /** The state `reset` establishes: cursor 0, an empty queue and zeroed
      statistics, which are the ledger of no trades. */
  function ResetEpisode(): (e: Episode)
    ensures e.index == 0 && e.positions == []
    ensures e.totalTrades == 0 && e.wins == 0 && e.totalReward == 0.0 && e.riskRewards == []
  {
    Episode(0, [], 0, 0, 0.0, [])
  }

  /** The bound on open positions, and wins counted among the trades. */
  predicate Invariant(cfg: Config, e: Episode) {
    |e.positions| <= PositionBound(cfg) && e.wins <= e.totalTrades
  }

  /** The statistics of `e` are exactly the ledger of the trades `ts`. */
  predicate Ledgered(cfg: Config, e: Episode, ts: seq<Trade>) {
    && e.totalTrades == |ts|
    && e.wins == WinCount(cfg, ts)
    && e.totalReward == TotalPnl(cfg, ts)
    && e.riskRewards == Samples(cfg, ts)
  }

  /** The statistics of `e` advanced by the trades `ts`; nothing else changes. */
  function Book(cfg: Config, e: Episode, ts: seq<Trade>): Episode {
    e.(totalTrades := e.totalTrades + |ts|,
       wins := e.wins + WinCount(cfg, ts),
       totalReward := e.totalReward + TotalPnl(cfg, ts),
       riskRewards := e.riskRewards + Samples(cfg, ts))
  }

  lemma BookConcat(cfg: Config, e: Episode, a: seq<Trade>, b: seq<Trade>)
    ensures Book(cfg, Book(cfg, e, a), b) == Book(cfg, e, a + b)
  {
    LedgerConcat(cfg, a, b);
    var sa, sb := Samples(cfg, a), Samples(cfg, b);
    assert (e.riskRewards + sa) + sb == e.riskRewards + (sa + sb);
  }

  /** Booking touches only the statistics: it commutes with moving the cursor and
      replacing the queue. */
  lemma BookFrame(cfg: Config, e: Episode, ts: seq<Trade>, i: nat, ps: seq<real>)
    ensures Book(cfg, e.(index := i, positions := ps), ts) == Book(cfg, e, ts).(index := i, positions := ps)
  {
  }

  /** Booking trades onto a ledgered state gives the ledger of the longer history. */
  lemma BookLedgered(cfg: Config, e: Episode, h: seq<Trade>, ts: seq<Trade>)
    requires Ledgered(cfg, e, h)
    ensures Ledgered(cfg, Book(cfg, e, ts), h + ts)
  {
    LedgerConcat(cfg, h, ts);
  }

  /** Settles the oldest open position at close `price`. */
  function Settle(cfg: Config, price: real, e: Episode): (r: Episode)
    requires e.positions != []
    ensures r.index == e.index && r.positions == e.positions[1..]
    ensures r.totalTrades == e.totalTrades + 1
  {
    Book(cfg, e.(positions := e.positions[1..]), [Trade(e.positions[0], price)])
  }

  /** One settlement: the oldest entry leaves the queue, one trade is counted, its
      profit-and-loss is added, and a win is counted exactly when it is positive. */
  lemma SettleEffect(cfg: Config, price: real, e: Episode)
    requires e.positions != []
    ensures var r := Settle(cfg, price, e);
            var t := Trade(e.positions[0], price);
            && r.index == e.index
            && r.positions == e.positions[1..]
            && r.totalTrades == e.totalTrades + 1
            && r.totalReward == e.totalReward + Pnl(cfg, t)
            && (r.wins == e.wins + 1 <==> Pnl(cfg, t) > 0.0)
            && (r.wins == e.wins <==> Pnl(cfg, t) <= 0.0)
            && r.riskRewards == e.riskRewards + SampleOf(cfg, t)
  {
    LedgerSingle(cfg, Trade(e.positions[0], price));
  }

  /** A settlement keeps the invariant and extends the ledger by its trade. */
  lemma SettleKeepsLedger(cfg: Config, price: real, e: Episode, h: seq<Trade>)
    requires e.positions != []
    requires Invariant(cfg, e) && Ledgered(cfg, e, h)
    ensures Invariant(cfg, Settle(cfg, price, e))
    ensures Ledgered(cfg, Settle(cfg, price, e), h + [Trade(e.positions[0], price)])
  {
    SettleEffect(cfg, price, e);
    BookLedgered(cfg, e.(positions := e.positions[1..]), h, [Trade(e.positions[0], price)]);
  }

  /** The action's effect on the statistics is the booking of the trade it settles. */
  lemma ActOnBooks(cfg: Config, price: real, e: Episode, action: int)
    ensures var acted := ActOn(cfg, price, e, action);
            acted == Book(cfg, e, ActionTrades(price, e, action)).(positions := acted.positions)
  {
    if action == SELL && e.positions != [] {
      SettleEffect(cfg, price, e);
    }
  }

  /** The trades the close-out produces: every open position, oldest first, at `price`. */
  function CloseOutTrades(price: real, ps: seq<real>): (ts: seq<Trade>)
    ensures |ts| == |ps|
    ensures forall i :: 0 <= i < |ps| ==> ts[i] == Trade(ps[i], price)
    decreases |ps|
  {
    if ps == [] then [] else [Trade(ps[0], price)] + CloseOutTrades(price, ps[1..])
  }

  /** The terminal close-out: settle the oldest position until none is left.
      Its result is the state with every open position booked as a trade at `price`
      and an empty queue. */
  function CloseAll(cfg: Config, price: real, e: Episode): (r: Episode)
    ensures r == Book(cfg, e, CloseOutTrades(price, e.positions)).(positions := [])
    decreases |e.positions|
  {
    if e.positions == [] then e
    else
      var rest := e.positions[1..];
      BookConcat(cfg, e.(positions := rest), [Trade(e.positions[0], price)], CloseOutTrades(price, rest));
      CloseAll(cfg, price, Settle(cfg, price, e))
  }

  /** Settling the oldest position leaves the close-out's result unchanged and
      removes the first of its trades. */
  lemma CloseAllAfterSettle(cfg: Config, price: real, e: Episode)
    requires e.positions != []
    ensures CloseAll(cfg, price, Settle(cfg, price, e)) == CloseAll(cfg, price, e)
    ensures CloseOutTrades(price, e.positions)
            == [Trade(e.positions[0], price)] + CloseOutTrades(price, e.positions[1..])
    ensures TotalPnl(cfg, CloseOutTrades(price, e.positions))
            == Pnl(cfg, Trade(e.positions[0], price)) + TotalPnl(cfg, CloseOutTrades(price, e.positions[1..]))
  {
    var t := Trade(e.positions[0], price);
    LedgerConcat(cfg, [t], CloseOutTrades(price, e.positions[1..]));
    LedgerSingle(cfg, t);
  }

  /** The effect of the action itself, before the cursor moves. */
  function ActOn(cfg: Config, price: real, e: Episode, action: int): (r: Episode)
    ensures r.index == e.index
    ensures r.totalTrades == e.totalTrades + |ActionTrades(price, e, action)|
    ensures |r.positions| <= |e.positions| + 1
  {
    if action == BUY && |e.positions| < cfg.positionLimit then
      e.(positions := e.positions + [EntryPrice(cfg, price)])
    else if action == SELL && e.positions != [] then
      Settle(cfg, price, e)
    else
      e
  }

  /** The trade an explicit sell settles, if any: exactly one, the oldest entry
      exiting at `price`, when the action is a sell and the queue is not empty. */
  function ActionTrades(price: real, e: Episode, action: int): (ts: seq<Trade>)
    ensures |ts| <= 1
    ensures ts != [] <==> action == SELL && e.positions != []
    ensures ts != [] ==> ts[0] == Trade(e.positions[0], price)
  {
    if action == SELL && e.positions != [] then [Trade(e.positions[0], price)] else []
  }

  /** The reward of an explicit sell: its profit-and-loss; zero for any other action.
      It is the total profit-and-loss of the trades the action settles. */
  function ActionReward(cfg: Config, price: real, e: Episode, action: int): (r: real)
    ensures r == TotalPnl(cfg, ActionTrades(price, e, action))
  {
    if action == SELL && e.positions != [] then
      LedgerSingle(cfg, Trade(e.positions[0], price));
      Pnl(cfg, Trade(e.positions[0], price))
    else 0.0
  }

  /** The terminal penalty for a final trade count of `n`. */
  function Penalty(cfg: Config, n: nat): (p: real)
    ensures cfg.tradePenalty >= 0.0 ==> p >= 0.0
    ensures cfg.tradePenalty == 0.0 ==> p == 0.0
  {
    (if n < cfg.minTrades then (cfg.minTrades - n) as real * cfg.tradePenalty else 0.0)
    + (if cfg.maxTrades.Some? && n > cfg.maxTrades.value
       then (n - cfg.maxTrades.value) as real * cfg.tradePenalty else 0.0)
  }

  function Sum(s: seq<real>): real
    decreases |s|
  {
    if s == [] then 0.0 else s[0] + Sum(s[1..])
  }

  /** The arithmetic mean, zero for the empty sequence. */
  function Mean(s: seq<real>): (m: real)
    ensures s == [] ==> m == 0.0
    ensures s != [] ==> m * (|s| as real) == Sum(s)
  {
    if s == [] then 0.0 else Sum(s) / (|s| as real)
  }

  function StatsOf(e: Episode): Stats {
    Stats(e.totalTrades, e.wins, Mean(e.riskRewards), e.totalReward)
  }

  /** One step: act at the close of the bar under the cursor, advance the cursor,
      and, when it reaches the last bar, close out every open position at that same
      close and apply the trade-count penalties. */
  function StepSpec(bars: seq<Bar>, cfg: Config, e: Episode, action: int): (r: StepResult)
    requires e.index < |bars|
    ensures r.next.index == e.index + 1
  {
    var price := bars[e.index].close;
    var acted := ActOn(cfg, price, e, action).(index := e.index + 1);
    var done := acted.index >= |bars| - 1;
    var next := if done then CloseAll(cfg, price, acted) else acted;
    var reward := ActionReward(cfg, price, e, action)
      + (if done then TotalPnl(cfg, CloseOutTrades(price, acted.positions)) - Penalty(cfg, next.totalTrades)
         else 0.0);
    StepResult(next, if done then ZeroObservation() else Observation(bars, acted.index),
               reward, done, false, StatsOf(next))
  }

  /** The two shapes of a step: without and with the terminal close-out. */
  lemma StepCases(bars: seq<Bar>, cfg: Config, e: Episode, action: int)
    requires e.index < |bars|
    ensures var price := bars[e.index].close;
            var acted := ActOn(cfg, price, e, action).(index := e.index + 1);
            var r := StepSpec(bars, cfg, e, action);
            && r.done == (e.index + 1 >= |bars| - 1)
            && r.stats == StatsOf(r.next) && !r.truncated
            && (!r.done ==>
                  && r.next == acted
                  && r.reward == ActionReward(cfg, price, e, action)
                  && StepTrades(bars, cfg, e, action) == ActionTrades(price, e, action)
                  && r.obs == Observation(bars, e.index + 1))
            && (r.done ==>
                  && r.next == CloseAll(cfg, price, acted)
                  && r.reward == ActionReward(cfg, price, e, action)
                                 + TotalPnl(cfg, CloseOutTrades(price, acted.positions))
                                 - Penalty(cfg, r.next.totalTrades)
                  && StepTrades(bars, cfg, e, action)
                     == ActionTrades(price, e, action) + CloseOutTrades(price, acted.positions)
                  && r.obs == ZeroObservation())
  {
    if e.index + 1 < |bars| - 1 {
      assert ActionTrades(bars[e.index].close, e, action) + [] == ActionTrades(bars[e.index].close, e, action);
    }
  }

  /** The trades one step settles, in settlement order: the explicit sell's, then the
      close-out's. */
  function StepTrades(bars: seq<Bar>, cfg: Config, e: Episode, action: int): seq<Trade>
    requires e.index < |bars|
  {
    var price := bars[e.index].close;
    ActionTrades(price, e, action)
    + (if e.index + 1 >= |bars| - 1 then CloseOutTrades(price, ActOn(cfg, price, e, action).positions) else [])
  }

  // ---------------------------------------------------------------------------
  // Properties of one step

  /** A buy on a step that does not end the episode appends exactly one entry,
      the close inflated by the commission, when the queue has room, and changes
      nothing else; without room it changes nothing but the cursor. */
  lemma BuyStep(bars: seq<Bar>, cfg: Config, e: Episode)
    requires e.index < |bars|
    ensures var r := StepSpec(bars, cfg, e, BUY);
            var price := bars[e.index].close;
            !r.done ==>
              && r.reward == 0.0
              && r.next.(index := e.index, positions := e.positions) == e
              && (|e.positions| < cfg.positionLimit ==>
                    |r.next.positions| == |e.positions| + 1
                    && r.next.positions[..|e.positions|] == e.positions
                    && r.next.positions[|e.positions|] == EntryPrice(cfg, price))
              && (|e.positions| >= cfg.positionLimit ==> r.next.positions == e.positions)
  {
  }

  /** A sell on a step that does not end the episode: with no open position nothing
      but the cursor changes and the reward is zero; otherwise the oldest entry is
      settled at the close, its profit-and-loss is the reward and is added to the
      running total, one trade is counted, and a win exactly when it is positive. */
  lemma SellStep(bars: seq<Bar>, cfg: Config, e: Episode)
    requires e.index < |bars|
    ensures var r := StepSpec(bars, cfg, e, SELL);
            var price := bars[e.index].close;
            !r.done ==>
              && (e.positions == [] ==> r.next == e.(index := e.index + 1) && r.reward == 0.0)
              && (e.positions != [] ==>
                    var pnl := price * (1.0 - cfg.commission) - e.positions[0];
                    && r.next.positions == e.positions[1..]
                    && r.next.totalTrades == e.totalTrades + 1
                    && r.next.totalReward == e.totalReward + pnl
                    && r.reward == pnl
                    && r.next.wins == (if pnl > 0.0 then e.wins + 1 else e.wins))
  {
    if e.positions != [] {
      SettleEffect(cfg, bars[e.index].close, e);
    }
  }

  /** Any action other than buy or sell moves only the cursor (before the end). */
  lemma HoldStep(bars: seq<Bar>, cfg: Config, e: Episode, action: int)
    requires e.index < |bars|
    requires action != BUY && action != SELL
    ensures var r := StepSpec(bars, cfg, e, action);
            !r.done ==> r.next == e.(index := e.index + 1) && r.reward == 0.0
  {
  }

  /** The cursor advances by exactly one, and the step is terminal exactly when the
      new cursor reaches the last bar. */
  lemma StepCursor(bars: seq<Bar>, cfg: Config, e: Episode, action: int)
    requires e.index < |bars|
    ensures var r := StepSpec(bars, cfg, e, action);
            r.next.index == e.index + 1 && (r.done <==> e.index + 1 >= |bars| - 1)
  {
  }

  /** On the terminal step every position still open after the action is settled
      at the close of the bar just acted on: the queue ends empty and the trade
      count grows by the number of positions that were open. Starting before the
      end, that bar is the second-to-last one, not the last. */
  lemma TerminalCloseOut(bars: seq<Bar>, cfg: Config, e: Episode, action: int)
    requires e.index < |bars|
    ensures var r := StepSpec(bars, cfg, e, action);
            var price := bars[e.index].close;
            var acted := ActOn(cfg, price, e, action);
            r.done ==>
              && r.next.positions == []
              && r.next.totalTrades == acted.totalTrades + |acted.positions|
              && r.next.totalReward == acted.totalReward + TotalPnl(cfg, CloseOutTrades(price, acted.positions))
              && r.next.wins == acted.wins + WinCount(cfg, CloseOutTrades(price, acted.positions))
              && (forall t :: t in StepTrades(bars, cfg, e, action) ==> t.exit == price)
              && (e.index < |bars| - 1 ==> e.index == |bars| - 2)
  {
  }

  /** Every step keeps the position bound and wins <= trades, and never lowers the
      trade count. */
  lemma StepPreservesInvariant(bars: seq<Bar>, cfg: Config, e: Episode, action: int)
    requires e.index < |bars|
    requires Invariant(cfg, e)
    ensures var r := StepSpec(bars, cfg, e, action);
            Invariant(cfg, r.next) && r.next.totalTrades >= e.totalTrades
  {
    var price := bars[e.index].close;
    var acted := ActOn(cfg, price, e, action).(index := e.index + 1);
    if action == SELL && e.positions != [] {
      SettleEffect(cfg, price, e);
    }
    assert Invariant(cfg, acted);
    WinsAtMostTrades(cfg, CloseOutTrades(price, acted.positions));
  }

  /** The statistics after a step are those before it advanced by exactly the trades
      the step settles. */
  lemma StepBooksItsTrades(bars: seq<Bar>, cfg: Config, e: Episode, action: int)
    requires e.index < |bars|
    ensures var r := StepSpec(bars, cfg, e, action);
            r.next == Book(cfg, e, StepTrades(bars, cfg, e, action)).(index := r.next.index, positions := r.next.positions)
  {
    var price := bars[e.index].close;
    var a := ActionTrades(price, e, action);
    var acted := ActOn(cfg, price, e, action).(index := e.index + 1);
    ActOnBooks(cfg, price, e, action);
    if e.index + 1 >= |bars| - 1 {
      var c := CloseOutTrades(price, acted.positions);
      assert StepTrades(bars, cfg, e, action) == a + c;
      BookConcat(cfg, e, a, c);
      BookFrame(cfg, Book(cfg, e, a), c, acted.index, acted.positions);
    } else {
      assert StepTrades(bars, cfg, e, action) == a + [];
    }
  }

  /** The ledger of a history grows by exactly the trades a step settles. */
  lemma StepKeepsLedger(bars: seq<Bar>, cfg: Config, e: Episode, action: int, h: seq<Trade>)
    requires e.index < |bars|
    requires Ledgered(cfg, e, h)
    ensures Ledgered(cfg, StepSpec(bars, cfg, e, action).next, h + StepTrades(bars, cfg, e, action))
  {
    StepBooksItsTrades(bars, cfg, e, action);
    BookLedgered(cfg, e, h, StepTrades(bars, cfg, e, action));
  }

  /** The reward is the profit-and-loss of the trades the step settles, less the
      trade-count penalty on the terminal step only. */
  lemma StepReward(bars: seq<Bar>, cfg: Config, e: Episode, action: int)
    requires e.index < |bars|
    ensures var r := StepSpec(bars, cfg, e, action);
            && r.reward == TotalPnl(cfg, StepTrades(bars, cfg, e, action))
                           - (if r.done then Penalty(cfg, r.next.totalTrades) else 0.0)
            && r.reward == r.next.totalReward - e.totalReward
                           - (if r.done then Penalty(cfg, r.next.totalTrades) else 0.0)
  {
    var price := bars[e.index].close;
    var a := ActionTrades(price, e, action);
    var acted := ActOn(cfg, price, e, action);
    assert ActionReward(cfg, price, e, action) == TotalPnl(cfg, a) by {
      if a != [] {
        LedgerSingle(cfg, a[0]);
      }
    }
    LedgerConcat(cfg, a, CloseOutTrades(price, acted.positions));
    StepBooksItsTrades(bars, cfg, e, action);
  }

  /** The terminal penalty: the shortfall below `minTrades` and the excess above
      `maxTrades`, each times `tradePenalty`. */
  lemma PenaltyCases(cfg: Config, n: nat)
    ensures cfg.minTrades <= n && (cfg.maxTrades.None? || n <= cfg.maxTrades.value)
            ==> Penalty(cfg, n) == 0.0
    ensures n < cfg.minTrades && (cfg.maxTrades.None? || n <= cfg.maxTrades.value)
            ==> Penalty(cfg, n) == (cfg.minTrades - n) as real * cfg.tradePenalty
    ensures cfg.minTrades <= n && cfg.maxTrades.Some? && n > cfg.maxTrades.value
            ==> Penalty(cfg, n) == (n - cfg.maxTrades.value) as real * cfg.tradePenalty
    ensures n < cfg.minTrades && cfg.maxTrades.Some? && n > cfg.maxTrades.value
            ==> Penalty(cfg, n) == (cfg.minTrades - n) as real * cfg.tradePenalty
                                   + (n - cfg.maxTrades.value) as real * cfg.tradePenalty
  {
  }

  /** The observation is the zero vector on the terminal step and the row under the
      new cursor otherwise; the statistics are the cumulative ones after the step. */
  lemma StepReport(bars: seq<Bar>, cfg: Config, e: Episode, action: int)
    requires e.index < |bars|
    ensures var r := StepSpec(bars, cfg, e, action);
            && (r.done ==> r.obs == ZeroObservation())
            && (!r.done ==> r.next.index < |bars| && r.obs == Observation(bars, r.next.index))
            && r.stats == Stats(r.next.totalTrades, r.next.wins, Mean(r.next.riskRewards), r.next.totalReward)
            && !r.truncated
  {
  }

  // ---------------------------------------------------------------------------
  // Runs of several steps

  /** The state after stepping through `actions` in order. */
  function Run(bars: seq<Bar>, cfg: Config, e: Episode, actions: seq<int>): (r: Episode)
    requires e.index + |actions| <= |bars|
    ensures r.index == e.index + |actions|
    decreases |actions|
  {
    if actions == [] then e
    else Run(bars, cfg, StepSpec(bars, cfg, e, actions[0]).next, actions[1..])
  }

  /** Every trade settled while stepping through `actions`, in settlement order. */
  function RunTrades(bars: seq<Bar>, cfg: Config, e: Episode, actions: seq<int>): seq<Trade>
    requires e.index + |actions| <= |bars|
    decreases |actions|
  {
    if actions == [] then []
    else StepTrades(bars, cfg, e, actions[0])
         + RunTrades(bars, cfg, StepSpec(bars, cfg, e, actions[0]).next, actions[1..])
  }

  /** One step of a run. */
  lemma RunUnfold(bars: seq<Bar>, cfg: Config, e: Episode, actions: seq<int>)
    requires e.index + |actions| <= |bars|
    requires actions != []
    ensures var next := StepSpec(bars, cfg, e, actions[0]).next;
            && Run(bars, cfg, e, actions) == Run(bars, cfg, next, actions[1..])
            && RunTrades(bars, cfg, e, actions)
               == StepTrades(bars, cfg, e, actions[0]) + RunTrades(bars, cfg, next, actions[1..])
  {
  }

  /** Along a run the position bound and wins <= trades keep holding. */
  lemma {:induction false} RunKeepsInvariant(bars: seq<Bar>, cfg: Config, e: Episode, actions: seq<int>)
    requires e.index + |actions| <= |bars|
    requires Invariant(cfg, e)
    ensures Invariant(cfg, Run(bars, cfg, e, actions))
    decreases |actions|
  {
    if actions != [] {
      StepPreservesInvariant(bars, cfg, e, actions[0]);
      RunKeepsInvariant(bars, cfg, StepSpec(bars, cfg, e, actions[0]).next, actions[1..]);
    }
  }

  /** The statistics after a run are those before it advanced by exactly the trades
      the run settles. */
  lemma {:induction false} RunBooksItsTrades(bars: seq<Bar>, cfg: Config, e: Episode, actions: seq<int>)
    requires e.index + |actions| <= |bars|
    ensures var r := Run(bars, cfg, e, actions);
            r == Book(cfg, e, RunTrades(bars, cfg, e, actions)).(index := r.index, positions := r.positions)
    decreases |actions|
  {
    if actions != [] {
      var next := StepSpec(bars, cfg, e, actions[0]).next;
      var ts := StepTrades(bars, cfg, e, actions[0]);
      var rest := RunTrades(bars, cfg, next, actions[1..]);
      RunUnfold(bars, cfg, e, actions);
      StepBooksItsTrades(bars, cfg, e, actions[0]);
      RunBooksItsTrades(bars, cfg, next, actions[1..]);
      BookConcat(cfg, e, ts, rest);
      BookFrame(cfg, Book(cfg, e, ts), rest, next.index, next.positions);
    }
  }

  /** A run adds exactly one to the trade count per settled trade. */
  lemma RunTradeCount(bars: seq<Bar>, cfg: Config, e: Episode, actions: seq<int>)
    requires e.index + |actions| <= |bars|
    ensures Run(bars, cfg, e, actions).totalTrades == e.totalTrades + |RunTrades(bars, cfg, e, actions)|
  {
    RunBooksItsTrades(bars, cfg, e, actions);
  }

  /** From a reset, the running profit-and-loss is the sum of the settled trades'
      profit-and-loss, the trade and win counts are theirs, and the bounds hold. */
  lemma EpisodeLedger(bars: seq<Bar>, cfg: Config, actions: seq<int>)
    requires |actions| <= |bars|
    ensures var r := Run(bars, cfg, ResetEpisode(), actions);
            var ts := RunTrades(bars, cfg, ResetEpisode(), actions);
            && Invariant(cfg, r)
            && r.totalReward == TotalPnl(cfg, ts)
            && r.totalTrades == |ts|
            && r.wins == WinCount(cfg, ts)
            && r.riskRewards == Samples(cfg, ts)
  {
    RunKeepsInvariant(bars, cfg, ResetEpisode(), actions);
    RunBooksItsTrades(bars, cfg, ResetEpisode(), actions);
  }

  /** Running a prefix and then the rest equals running the whole. */
  lemma {:induction false} RunSplit(bars: seq<Bar>, cfg: Config, e: Episode, actions: seq<int>, i: nat)
    requires e.index + |actions| <= |bars|
    requires i <= |actions|
    ensures Run(bars, cfg, Run(bars, cfg, e, actions[..i]), actions[i..]) == Run(bars, cfg, e, actions)
    decreases i
  {
    if i > 0 {
      var next := StepSpec(bars, cfg, e, actions[0]).next;
      assert actions[..i][0] == actions[0];
      assert actions[..i][1..] == actions[1..][..i - 1];
      assert actions[1..][i - 1..] == actions[i..];
      RunSplit(bars, cfg, next, actions[1..], i - 1);
    } else {
      assert actions[i..] == actions;
    }
  }

  /** The trade count never decreases along an episode: the count after any prefix
      of the actions is at most the count after any longer prefix. */
  lemma TradesNeverDecrease(bars: seq<Bar>, cfg: Config, e: Episode, actions: seq<int>, i: nat, j: nat)
    requires e.index + |actions| <= |bars|
    requires i <= j <= |actions|
    ensures Run(bars, cfg, e, actions[..i]).totalTrades <= Run(bars, cfg, e, actions[..j]).totalTrades
  {
    var p := actions[..j];
    assert p[..i] == actions[..i];
    RunSplit(bars, cfg, e, p, i);
    RunTradeCount(bars, cfg, Run(bars, cfg, e, actions[..i]), p[i..]);
  }

  /** `k` hold actions. */
  function Holds(k: nat): (s: seq<int>)
    ensures |s| == k && forall i :: 0 <= i < k ==> s[i] == HOLD
  {
    seq(k, _ => HOLD)
  }

  /** Holds that do not reach the last bar only move the cursor. */
  lemma {:induction false} HoldsOnlyAdvance(bars: seq<Bar>, cfg: Config, e: Episode, k: nat)
    requires e.index + k < |bars| - 1
    ensures Run(bars, cfg, e, Holds(k)) == e.(index := e.index + k)
    decreases k
  {
    if k > 0 {
      var next := StepSpec(bars, cfg, e, HOLD).next;
      assert next == e.(index := e.index + 1);
      assert Holds(k)[1..] == Holds(k - 1);
      HoldsOnlyAdvance(bars, cfg, next, k - 1);
    }
  }

  /** An all-hold episode over N >= 2 bars: after k < N - 1 holds only the cursor has
      moved, and the next hold ends the episode exactly when k = N - 2, i.e. on
      step N - 1, with no trade settled and reward `-Penalty(cfg, 0)`. */
  lemma AllHoldEpisode(bars: seq<Bar>, cfg: Config, k: nat)
    requires 2 <= |bars| && k <= |bars| - 2
    ensures var e := Run(bars, cfg, ResetEpisode(), Holds(k));
            var r := StepSpec(bars, cfg, e, HOLD);
            && e == ResetEpisode().(index := k)
            && (r.done <==> k == |bars| - 2)
            && (r.done ==> r.next.totalTrades == 0 && r.reward == -Penalty(cfg, 0))
  {
    HoldsOnlyAdvance(bars, cfg, ResetEpisode(), k);
  }

  // ---------------------------------------------------------------------------
  // Worked scenarios

  function ScenarioBars(): seq<Bar> {
    [Bar(100.0, 100.0, 100.0, 100.0, 1.0),
     Bar(110.0, 110.0, 110.0, 110.0, 1.0),
     Bar(90.0, 90.0, 90.0, 90.0, 1.0)]
  }

  function ScenarioConfig(minTrades: int): Config {
    Config(0.0, minTrades, None, 1, 1.0)
  }

  /** Closes 100, 110, 90 with no commission and room for one position: a buy at
      100 opens one position. */
  lemma ScenarioBuy(minTrades: int)
    ensures var s1 := StepSpec(ScenarioBars(), ScenarioConfig(minTrades), ResetEpisode(), BUY);
            !s1.done && s1.next == Episode(1, [100.0], 0, 0, 0.0, [])
  {
  }

  /** Then a sell at 110. It is already the terminal step (the cursor reaches bar 2),
      one trade with profit 10 is settled, and with a minimum of two trades the
      reward is 10 less a penalty of 1. */
  lemma ScenarioSell(minTrades: int)
    requires minTrades == 1 || minTrades == 2
    ensures var s2 := StepSpec(ScenarioBars(), ScenarioConfig(minTrades), Episode(1, [100.0], 0, 0, 0.0, []), SELL);
            && s2.done && s2.next.positions == [] && s2.next.totalTrades == 1 && s2.next.wins == 1
            && s2.next.totalReward == 10.0
            && s2.reward == (if minTrades == 1 then 10.0 else 9.0)
  {
    var cfg := ScenarioConfig(minTrades);
    var e1 := Episode(1, [100.0], 0, 0, 0.0, []);
    SettleEffect(cfg, 110.0, e1);
    var e2 := Settle(cfg, 110.0, e1);
    assert Pnl(cfg, Trade(100.0, 110.0)) == 10.0;
    assert e1.positions[1..] == [];
    assert e2.positions == [] && e2.totalTrades == 1 && e2.totalReward == 10.0 && e2.wins == 1;
    assert CloseAll(cfg, 110.0, e2.(index := 2)) == e2.(index := 2);
    assert Penalty(cfg, 1) == (if minTrades == 1 then 0.0 else 1.0);
    assert ActionReward(cfg, 110.0, e1, SELL) == 10.0;
  }

  function FourBars(): seq<Bar> {
    ScenarioBars() + [Bar(0.0, 0.0, 0.0, 0.0, 0.0)]
  }

  /** On four bars with room for one position, the first buy opens one at 100. */
  lemma FirstBuyOfFour()
    ensures StepSpec(FourBars(), ScenarioConfig(1), ResetEpisode(), BUY).next
            == Episode(1, [100.0], 0, 0, 0.0, [])
  {
    assert FourBars()[0].close == 100.0;
  }

  /** With that position open, the next buy (at 110) finds the queue full. */
  lemma SecondBuyOfFour()
    ensures var r := StepSpec(FourBars(), ScenarioConfig(1), Episode(1, [100.0], 0, 0, 0.0, []), BUY);
            !r.done && r.next.positions == [100.0]
  {
    assert FourBars()[1].close == 110.0 && |FourBars()| == 4;
  }

  /** With room for one position a second buy is ignored. */
  lemma ScenarioSecondBuyIgnored()
    ensures var bars := FourBars();
            var cfg := ScenarioConfig(1);
            var s1 := StepSpec(bars, cfg, ResetEpisode(), BUY);
            var s2 := StepSpec(bars, cfg, s1.next, BUY);
            !s2.done && s2.next.positions == [100.0]
  {
    FirstBuyOfFour();
    SecondBuyOfFour();
  }
}
