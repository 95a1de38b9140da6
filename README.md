# TradingEnv — a verified model of the trading episode

This project models `TradingEnv` from `dqn_trader/trading_env.py`, the environment
that a DQN trading agent is trained in. The environment walks a cursor over a fixed
sequence of OHLCV bars. At each step it turns an action (0 hold, 1 buy, 2 sell) into a
reward at the close of the bar under the cursor. Buys open positions in a FIFO queue
of effective entry prices, bounded by `position_limit`. Sells settle the oldest
position. When the cursor reaches the last bar, the episode ends: every open position
is closed out at the same close, and trade-count penalties are applied.

The project has four modules:

- `Market` (market.dfy) holds the bar data, the data frame as the constructor sees it
  (its column names and rows), the configuration with its defaults, and the
  observation row lookup.
- `Settlement` (settlement.dfy) covers one settled trade: its profit-and-loss and its
  risk/reward sample. It also defines the *ledger* of a sequence of trades: the sum of
  their profit-and-loss, their win count and their samples.
- `Episodes` (episodes.dfy) gives the pure reference transition `StepSpec`, the
  close-out `CloseAll`, and runs of several steps. It holds the lemmas for every
  property of a step and of an episode.
- `Environment` (trading_env.dfy) is the class `TradingEnv`:
  - The fields `index`, `positions`, `totalTrades`, `wins`, `totalReward` and
    `riskRewards` are updated in place.
  - Its methods are `Reset`, `GetObservation` and `Step`, plus `Act`, `SettleOldest`,
    `CloseOut` and `ApplyPenalties`, which split `step`'s body.
  - `CloseOut` is the terminal `while` loop that drains the queue. Its invariant
    says that the close-out of the current state equals the close-out of the state
    on entry.
  - `Step` is proved to leave exactly the state and to return exactly the
    observation, reward, done flag and statistics that `StepSpec` gives.

Prices are exact reals. Integers are unbounded, as Python's are.

Three points of the code's behaviour are easy to misread:

- **Close-out price.** The close-out settles at the close of the bar just acted on.
  That price is read before the cursor advances, so for an episode that starts
  before the end it is bar N-2, not the last bar N-1 (`TerminalCloseOut`).
- **Episode length.** With closes 100, 110, 90 the episode ends on the second step,
  the sell at 110 (`ScenarioSell`). An all-hold episode on N >= 2 bars ends
  after exactly N-1 steps (`AllHoldEpisode`).
- **Unsupported parameters.** The constructor takes no `trade_bonus` and has no
  multi-pass or forced-minimum-trades mode, although `dqn_trader/test.py:35`
  passes `trade_bonus`.

## Model

| member | source | states |
|---|---|---|
| `Market.HasOhlcv` | dqn_trader/trading_env.py:22 | The constructor's assertion holds iff each of Open, High, Low, Close and Volume is a column of the frame. |
| `Market.DefaultConfig` | dqn_trader/trading_env.py:18-20 | The defaults: a commission strictly between 0 and 1, at least one trade, no maximum, at most five open positions, penalty 1. |
| `Settlement.EntryPrice` | dqn_trader/trading_env.py:54 | The recorded entry is never below the close for a non-negative commission and close, and is the close itself without commission. |
| `Settlement.Pnl` | dqn_trader/trading_env.py:58 | When the exit close is not negative, a non-negative commission never makes the pnl better than the raw move `exit - entry`; without commission it is that move. |
| `Settlement.SampleOf` | dqn_trader/trading_env.py:63-64 | The corrected sample rule: at most one sample, and only when the source's guard holds and the divisor is non-zero. |
| `Settlement.GuardAsWritten` | dqn_trader/trading_env.py:63 | The source's guard before a sample, also at line 78: it holds iff the entry price is non-zero. |
| `Episodes.ResetEpisode` | dqn_trader/trading_env.py:35-40 | The reset state: cursor 0, empty queue, zero trades, wins and running PnL, no samples. |
| `Episodes.ActionTrades` | dqn_trader/trading_env.py:55-58 | The action settles at most one trade, one exactly when it is a sell on a non-empty queue, and that trade is the oldest entry exiting at the close. |
| `Episodes.ActionReward` | dqn_trader/trading_env.py:59 | The action's reward is the total profit-and-loss of the trades it settles: the sell's pnl, or 0. |
| `Episodes.Settle` | dqn_trader/trading_env.py:56-64 | Settling the oldest position keeps the cursor, leaves the old tail as the queue and adds exactly one trade. |
| `Episodes.ActOn` | dqn_trader/trading_env.py:53-64 | The action keeps the cursor, adds one trade per trade it settles (one for a sell on a non-empty queue, none otherwise), and grows the queue by at most one. |
| `Episodes.Penalty` | dqn_trader/trading_env.py:80-83 | The terminal penalty is never negative for a non-negative `trade_penalty` and vanishes when `trade_penalty` is 0; its exact cases are `PenaltyCases`. |
| `Episodes.StepSpec` | dqn_trader/trading_env.py:48-91 | The reference step: act at the close under the cursor, advance the cursor by one, and on reaching bar N-1 close out at that close and apply the penalties; its shapes are `StepCases`, its properties the step lemmas below. |
| `Environment.TradingEnv.constructor` | dqn_trader/trading_env.py:18-31 | Needs a frame with every OHLCV column and at least one row. Keeps the rows and the parameters, and leaves the reset state. |
| `Environment.TradingEnv.Reset` | dqn_trader/trading_env.py:33-41 | Cursor 0, empty queue, zero trades, wins and running PnL, no samples. Returns the observation of row 0. |
| `Environment.TradingEnv.GetObservation` | dqn_trader/trading_env.py:43-46 | Returns the Open, High, Low, Close, Volume of the row under the cursor. |
| `Environment.TradingEnv.SettleOldest` | dqn_trader/trading_env.py:56-64 | Pops the oldest entry and leaves exactly the state `Settle` describes. Returns that trade's profit-and-loss. Keeps the object invariant. |
| `Environment.TradingEnv.Act` | dqn_trader/trading_env.py:53-64 | The buy or sell branch. Leaves exactly `ActOn` of the old state and returns the sell's profit-and-loss, or 0. Keeps the invariant. |
| `Environment.TradingEnv.CloseOut` | dqn_trader/trading_env.py:69-79 | The draining loop. Ends in `CloseAll` of the entry state: empty queue, every entry booked at `price`. Returns the sum of their profit-and-loss. |
| `Environment.TradingEnv.ApplyPenalties` | dqn_trader/trading_env.py:80-83 | Lowers the reward by exactly `Penalty` of the current trade count. |
| `Environment.TradingEnv.Step` | dqn_trader/trading_env.py:48-91 | New state, observation, reward, done, truncated and info are exactly `StepSpec` of the old state. The cursor advances by one, trades never decrease, the queue is empty when done, and the invariant holds. |
| `Market.Observation` | dqn_trader/trading_env.py:43-46 | The observation has five entries, and its fourth is the bar's close. |
| `Market.ZeroObservation` | dqn_trader/trading_env.py:84 | The terminal observation has five entries, all zero. |
| `Settlement.SampleIsRatio` | dqn_trader/trading_env.py:63-64 | A settlement records at most one risk/reward sample. It records one exactly when the entry is non-zero and the price moved, and that sample times the price move is the trade's profit-and-loss. |
| `Settlement.AsWrittenGuardAdmitsZeroDivisor` | dqn_trader/trading_env.py:63-64 | Without commission, every buy and sell at the same non-zero close passes the source's guard `entry != 0` with a zero divisor; the corrected rule records no sample for it. |
| `Settlement.LedgerSingle` | dqn_trader/trading_env.py:57-64 | The ledger of one trade is its profit-and-loss, one win iff that is positive, and its sample. |
| `Settlement.LedgerConcat` | dqn_trader/trading_env.py:57-64 | The profit-and-loss total, win count and samples of two consecutive runs of trades are the sums of theirs. |
| `Settlement.WinsAtMostTrades` | dqn_trader/trading_env.py:61-62 | Never more wins than trades in any ledger. |
| `Settlement.SamplesAtMostTrades` | dqn_trader/trading_env.py:63-64 | Never more risk/reward samples than trades. |
| `Episodes.BookConcat` | dqn_trader/trading_env.py:57-79 | Booking two runs of trades one after the other is booking their concatenation. |
| `Episodes.BookLedgered` | dqn_trader/trading_env.py:57-79 | Booking trades onto a state whose statistics are the ledger of `h` gives the ledger of `h` followed by those trades. |
| `Episodes.SettleEffect` | dqn_trader/trading_env.py:56-64 | One FIFO settlement. The queue loses its head, trades grow by one, and the running PnL grows by the pnl. Wins grow by one iff pnl > 0, else stay. The sample is appended. The cursor is unchanged. |
| `Episodes.SettleKeepsLedger` | dqn_trader/trading_env.py:56-64 | A settlement keeps the bound and wins <= trades, and extends the ledger by the settled trade. |
| `Episodes.ActOnBooks` | dqn_trader/trading_env.py:53-64 | The action changes the statistics by exactly the booking of the trade it settles. |
| `Episodes.CloseOutTrades` | dqn_trader/trading_env.py:70-72 | One trade per open position, in queue order, each settled at `price`. |
| `Episodes.CloseAll` | dqn_trader/trading_env.py:69-79 | Settling the oldest position until none is left books every position at `price` and empties the queue. |
| `Episodes.CloseAllAfterSettle` | dqn_trader/trading_env.py:70-79 | One settlement leaves the result of the close-out unchanged and removes the first close-out trade. |
| `Episodes.StepCases` | dqn_trader/trading_env.py:48-91 | Both shapes of a step written out: the non-terminal one (obs of the next row, reward of the action) and the terminal one (close-out, penalty, zero obs). |
| `Episodes.BuyStep` | dqn_trader/trading_env.py:53-54 | Before the end, a buy gives reward 0 and touches only the queue. It appends exactly `close * (1 + commission)` iff the queue is below `position_limit`, and otherwise leaves the queue alone. |
| `Episodes.SellStep` | dqn_trader/trading_env.py:55-62 | Before the end, a sell on an empty queue changes only the cursor, with reward 0. Otherwise it removes the oldest entry and leaves the old tail. Trades grow by one, the reward and the PnL gain `close*(1-commission) - entry`, and wins grow iff that is positive. |
| `Episodes.HoldStep` | dqn_trader/trading_env.py:53-55 | Before the end, any action other than 1 or 2 moves only the cursor, with reward 0. |
| `Episodes.StepCursor` | dqn_trader/trading_env.py:66-68 | The cursor advances by exactly one, and done holds iff the new cursor is >= N-1. |
| `Episodes.TerminalCloseOut` | dqn_trader/trading_env.py:69-79 | On the terminal step the queue ends empty. Trades grow by the number of positions still open, and PnL and wins by their ledger. Every trade of the step exits at the acted bar's close, which is bar N-2 when the step started before the end. |
| `Episodes.StepPreservesInvariant` | dqn_trader/trading_env.py:53-79 | Every step keeps `len(positions) <= position_limit` and wins <= trades, and never lowers the trade count. |
| `Episodes.StepBooksItsTrades` | dqn_trader/trading_env.py:55-79 | A step changes the statistics by exactly the booking of the trades it settles. |
| `Episodes.StepKeepsLedger` | dqn_trader/trading_env.py:55-79 | If the statistics are the ledger of a history, then after a step they are the ledger of that history plus the step's trades. |
| `Episodes.StepReward` | dqn_trader/trading_env.py:59-83 | The reward is the total pnl of the step's trades, which equals the growth of the running PnL, less `Penalty(trades)` on the terminal step only. |
| `Episodes.PenaltyCases` | dqn_trader/trading_env.py:80-83 | No penalty when min <= trades and trades is not above a set max. Below the minimum and not above a set maximum, the penalty is exactly `(min - trades) * trade_penalty`; at or above the minimum and above a set maximum, `(trades - max) * trade_penalty`; below the minimum and above a set maximum (a maximum smaller than the minimum), the sum of both amounts. |
| `Episodes.StepReport` | dqn_trader/trading_env.py:84-91 | The obs is zero when done and the next row otherwise. The info holds the cumulative trades, wins and PnL, with the mean of the samples (0 if there are none). Truncated is false. |
| `Episodes.Mean` | dqn_trader/trading_env.py:88 | 0 for no samples; otherwise the mean times the count is the sum. |
| `Episodes.RunKeepsInvariant` | dqn_trader/trading_env.py:53-79 | Along any run of steps the position bound and wins <= trades hold. |
| `Episodes.RunBooksItsTrades` | dqn_trader/trading_env.py:55-79 | After any run the statistics are those before it, advanced by exactly the trades the run settles. |
| `Episodes.RunTradeCount` | dqn_trader/trading_env.py:57-73 | A run adds to the trade count exactly the number of trades it settles. |
| `Episodes.EpisodeLedger` | dqn_trader/trading_env.py:33-79 | From a reset, the running PnL equals the sum of the settled trades' pnl. The trade count, win count and samples are theirs, and the invariant holds. |
| `Episodes.RunSplit` | dqn_trader/trading_env.py:48-91 | Running a prefix of the actions and then the rest is running them all. |
| `Episodes.TradesNeverDecrease` | dqn_trader/trading_env.py:57-73 | The trade count after a prefix of an episode is at most the count after any longer prefix. |
| `Episodes.HoldsOnlyAdvance` | dqn_trader/trading_env.py:66-68 | Holds that do not reach the last bar only move the cursor. |
| `Episodes.AllHoldEpisode` | dqn_trader/trading_env.py:66-83 | On N >= 2 bars, k holds from reset leave the reset state at cursor k. The next hold ends the episode iff k = N-2, that is on step N-1, with no trades and reward `-Penalty(0)`. |
| `Episodes.ScenarioBuy` | dqn_trader/trading_env.py:53-54 | Closes 100/110/90 with no commission: the first buy opens one position at 100 and does not end the episode. |
| `Episodes.ScenarioSell` | dqn_trader/trading_env.py:55-83 | Then the sell at 110 ends the episode. It settles one winning trade worth 10, and the reward is 10, or 9 with a minimum of two trades. |
| `Episodes.ScenarioSecondBuyIgnored` | dqn_trader/trading_env.py:53 | On four bars with a limit of one position, a second buy does not end the episode and leaves the queue at the one entry of 100. |

## Left out

- The gym declarations (`action_space`, `observation_space`) and `super().reset(seed=...)` are library plumbing.
- `reset` also returns an empty info dict. The model returns only the observation.
- The float32 conversion of observations and numpy float rounding are not modelled: prices, volumes and rewards are exact reals.
- `render` only prints.
- The info keys `max_win` and `max_loss`, read by `dqn_trader/test.py`, are never produced by `step`, so they are not modelled.
- `trade_bonus`, `force_min_trades` and `max_passes` do not exist in this class.
- Environment.TradingEnv.constructor: requires at least one row, because the constructor resets the environment and the reset reads row 0, which raises on an empty frame.
- Environment.TradingEnv.Step: requires `index < |bars|`, the row its price is read from. The source raises a lookup error past the last row. One step from cursor N-1, after the episode is done, is allowed, because the source handles it.
- `df.reset_index(drop=True)` is modelled by taking the frame's rows as a sequence indexed from 0.
- A negative `position_limit` admits no buy, so the bound on the queue is `max(position_limit, 0)`.
- The training and evaluation scripts (`dqn_trader/train.py`, `dqn_trader/test.py`, `trading_dqn/train.py`) are not part of this model: they are CSV reading, stable_baselines3 training and plotting.
- `trading_dqn/train.py` imports a `trading_env` module that is not part of this model.
- The class does not carry the ledger as a ghost field. That the statistics are the ledger of the settled trades is proved about the reference transition instead (`EpisodeLedger`, `StepKeepsLedger`), and `Step` is proved equal to that transition.

## Findings

| source | as written | input that shows it | evidently intended | confidence | as-written member | corrected member |
|---|---|---|---|---|---|---|
| dqn_trader/trading_env.py:63-64 | Records a risk/reward sample only when `buy_price != 0`, dividing by `abs(buy_price - price)`. The guard does not exclude a zero divisor. Numpy float division then yields an infinite or NaN sample, which makes the mean in `info` non-finite. | commission 0, buy at close 100, then sell (or close out) at close 100: entry 100, exit 100, divisor 0 | A sample only when the divisor `abs(buy_price - price)` is non-zero | not executed | `Settlement.AsWrittenGuardAdmitsZeroDivisor` | `Settlement.SampleIsRatio` |
