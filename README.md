# Binance futures order strategies, modelled in Dafny

This project models the order-strategy core of a small Binance USDT-M futures trading bot. The core is four command-line scripts:
- a market order;
- a stop-limit order;
- a TWAP (time-weighted average price) order, which splits a total quantity into equal MARKET slices paced by a fixed interval;
- a grid, a ladder of BUY and SELL LIMIT orders 1% apart around a base price.

Each script validates its arguments, checks that both API credentials are set, and then calls the exchange client's `futures_create_order` one or more times.

## How the model is built

- **Gateway.** The exchange client is a scripted `Gateway`: a function from the index of a call within a run to that call's `Outcome`. An outcome is one of three:
  - `Accepted`: an order acknowledgement.
  - `ApiError`: a `BinanceAPIException`, which every script catches and reports.
  - `Unhandled`: any other exception, which no script catches, so it ends the run.
- **Run.** A run is a `Run(status, trace)`. The trace lists every call made, with its request and outcome, and every `time.sleep` pause, in order.
- **Aborted runs.** The status is `Finished` or `Aborted(reason)`. The reasons are:
  - an uncaught client exception;
  - `ZeroDivisionError` from `total_quantity / num_orders`;
  - the `OverflowError` ("int too large to convert to float") from the same division when `num_orders` is 2^1024 - 2^970 or more in magnitude;
  - the `ValueError` that `time.sleep` raises for a negative length;
  - the `OverflowError` that CPython's `time.sleep` raises for a length it cannot convert to its signed 64-bit count of nanoseconds (beyond 9223372036 seconds either way).
- **Strategies.**
  - Each strategy is a method that does what the script does step by step. Its contract ties its result to a recursive specification function (`TwapFrom`, `GridFrom`).
  - The loops keep the invariant "events so far, followed by the rest of the specification run, is the whole run".
  - The properties are lemmas about the specification functions: call order, counts, prices, failure isolation and the worked examples.
- **Validators.** Each validator is a function that mirrors the source's two layers. The inner `raise ValueError` (a non-positive number) is caught by the validator's own `except ValueError` and replaced by a single message. So a non-positive number and text that does not parse end with the same error.
- **Entry points.** Each script's `main` is a function `Decide` plus a method `RunScript`:
  - `Decide` works on already-parsed arguments and two booleans saying whether `BINANCE_API_KEY` and `BINANCE_API_SECRET` are set.
  - `RunScript` makes no call at all unless `Decide` says proceed.
  - A parsed number is `Option<real>` or `Option<int>`; `None` stands for text that `float()` or `int()` rejects.
- **Arithmetic.** All arithmetic is exact (`real`).

Six behaviours of the code worth knowing, all modelled as written:
- **Grid: a failed buy skips its sell.** The buy and the sell of a grid level share one `try` block in `src/advanced/grid.py:38-64`. When the buy fails with an API error, that level's sell is never sent. So a finished grid run makes `2 * grid_levels` calls minus one per failed buy (`Grid.GridCallCount`, `Grid.GridFailedBuySkipsSell`).
- **TWAP and grid: an uncaught exception ends the run.** Only `BinanceAPIException` is caught. Any other client exception ends a TWAP or grid run at that call (`Twap.TwapAbortsAtRaise`, `Grid.GridStatus`), so not every later slice or level is still attempted.
- **Grid: the level count gets its own checks.** `src/advanced/grid.py:78-80` does not use `validate_positive_int`. A non-integer level count raises `int()`'s own `ValueError`, and a non-positive one raises "Grid levels must be positive." (`Validation.ValidateGridLevels`).
- **Grid: nothing bounds the level count.** Levels 100 and beyond get a buy price of zero or below (`Grid.BuyPriceSign`, `Grid.NonPositiveBuyAdmitted`).
- **TWAP: the interval must be positive, but has no upper bound.** The interval goes through `validate_positive_int` (`src/advanced/twap.py:66`), so an interval of 0 is rejected (`Twap.Decide`). An interval above 9223372036 seconds passes, and with two or more slices the first `time.sleep` (`src/advanced/twap.py:49-50`) then raises an uncaught `OverflowError` right after the first call (`Twap.TwapOverflowAtFirstPause`, `Twap.TwapHugeIntervalAdmitted`).
- **TWAP: the slice count has no upper bound.** A slice count of 2^1024 - 2^970 or more passes `validate_positive_int`, and the division at `src/advanced/twap.py:35` then raises an uncaught `OverflowError` before any call, because CPython cannot convert that int to a float (`Twap.TwapHugeCountAdmitted`).

Modules:
- `Orders` (`orders.dfy`): shared vocabulary for requests, outcomes, events and runs; ASCII `str.upper`; trace measures.
- `Validation` (`validation.dfy`): the validators and the entry-point decision types.
- `MarketOrders` (`market.dfy`): `src/market_orders.py`.
- `StopLimit` (`stop_limit.dfy`): `src/advanced/stop_limit.py`.
- `Twap` (`twap.dfy`): `src/advanced/twap.py`.
- `Grid` (`grid.dfy`): `src/advanced/grid.py`.

The four scripts carry textually identical copies of `validate_symbol` and `validate_quantity`, and two of them of `validate_price`: `src/market_orders.py:10-21`, `src/advanced/stop_limit.py:10-30` and `src/advanced/twap.py:11-22`. Each validator is modelled once, in `Validation`, and cited below at the grid's or the TWAP script's copy.

## Model

| member | source | states |
|---|---|---|
| Orders.ToUpper | src/market_orders.py:28 | `side.upper()` on ASCII: same length, every lower-case letter becomes its upper-case counterpart (code point less 32), every other character unchanged |
| Orders.SideNameIsUpper | src/market_orders.py:41 | the sides the command line allows (`BUY`, `SELL`) are unchanged by `upper()` |
| Validation.ValidateSymbol | src/advanced/grid.py:11-13 | on success the symbol itself; every failure is the "Invalid symbol" error |
| Validation.SymbolAcceptedIff | src/advanced/grid.py:11-13 | a symbol passes exactly when it has no lower-case letter and ends with `USDT` (the suffix supplies the cased letter `isupper` needs) |
| Validation.SymbolsAccepted | src/advanced/grid.py:11-13 | `BTCUSDT` and `1000PEPEUSDT` pass |
| Validation.SymbolsRejected | src/advanced/grid.py:11-13 | `btcusdt`, `BTCUSD` and `BTCusdt` fail |
| Validation.ValidateQuantity | src/advanced/grid.py:15-22 | succeeds exactly on a parsed number > 0 and returns it; non-numeric and non-positive input both give "Invalid quantity" |
| Validation.ValidatePrice | src/advanced/grid.py:24-31 | succeeds exactly on a parsed number > 0 and returns it; every failure is "Invalid price" |
| Validation.ValidatePositiveInt | src/advanced/twap.py:24-31 | succeeds exactly on a parsed integer > 0 and returns it; every failure is "Invalid integer" |
| Validation.ValidateGridLevels | src/advanced/grid.py:78-80 | succeeds exactly on a parsed integer > 0; an unparsable count is int()'s own error, a non-positive one "Grid levels must be positive." |
| MarketOrders.PlaceMarketOrder | src/market_orders.py:23-36 | exactly one call: a MARKET request for the whole quantity, upper-cased side, no price, stop price or time in force; the run finishes unless that call raises a non-API exception |
| MarketOrders.Decide | src/market_orders.py:47-55 | proceeds exactly when symbol and quantity validate and both credentials are set; the first failing validator's error otherwise |
| MarketOrders.RunScript | src/market_orders.py:38-57 | no call when validation fails or a credential is missing; otherwise exactly the single market order with the validated values |
| StopLimit.PlaceStopLimitOrder | src/advanced/stop_limit.py:32-48 | exactly one call: a STOP request with price = limit price, stopPrice = stop price, GTC, upper-cased side; finishes unless a non-API exception escapes |
| StopLimit.Decide | src/advanced/stop_limit.py:61-73 | checks symbol, quantity, stop price, limit price, then credentials, in that order; proceeds exactly when all pass |
| StopLimit.AnyPositivePricesAccepted | src/advanced/stop_limit.py:61-64 | any two positive prices are accepted, with no ordering between stop and limit and whatever the side |
| StopLimit.RunScript | src/advanced/stop_limit.py:50-73 | no call unless every check passes; otherwise exactly the single stop-limit order |
| Twap.PlaceSlice | src/advanced/twap.py:37-50 | one pass of the loop: the call, and the pause unless it is the last slice; the rest of the run follows, or the exception that ends it |
| Twap.PlaceTwapOrder | src/advanced/twap.py:33-50 | the loop's status and trace equal the specification run `TwapRun` (a slice count too large for a float: the conversion overflow before any call; zero slices: division error before any call) |
| Twap.TwapShape | src/advanced/twap.py:35-50 | for a positive slice count a float can hold and no uncaught exception: 2n-1 events, slice j at position 2j with the j-th answer, a pause between consecutive slices and none after the last, every slice MARKET total/n |
| Twap.TwapTotals | src/advanced/twap.py:35-50 | for a positive slice count a float can hold and no uncaught exception: exactly n submissions and n-1 pauses, and the slices add up to the total quantity |
| Twap.TwapIsolation | src/advanced/twap.py:37-50 | changing one slice's outcome between accepted and API error changes nothing else: same status, same length, every other event equal |
| Twap.TwapAbortsAtRaise | src/advanced/twap.py:36-48 | an uncaught exception on slice j ends the run right after that call |
| Twap.SleepError | src/advanced/twap.py:49-50 | `time.sleep(interval)` succeeds exactly for 0..9223372036 seconds; below that down to -9223372036 it is the negative-length error, anything further out the overflow |
| Twap.TwapAbortsOnlyOnGatewayException | src/advanced/twap.py:36-50 | with an interval `time.sleep` accepts, only an uncaught gateway exception stops a run early |
| Twap.TwapOverflowAtFirstPause | src/advanced/twap.py:49-50 | an interval above 9223372036 seconds ends a run of two or more slices with the overflow right after the first call, unless that call raised |
| Twap.TwapHugeIntervalAdmitted | src/advanced/twap.py:63-75 | 2 slices 10^10 seconds apart pass every check, and, when that order does not raise an uncaught exception, the run stops with the overflow right after it (one MARKET order of 0.5) |
| Twap.TwapHugeCountAdmitted | src/advanced/twap.py:35 | a slice count of 2^1024 - 2^970 passes every check, and the run stops with the conversion overflow before any call |
| Twap.TwapExample | src/advanced/twap.py:33-50 | 10 units in 4 slices one second apart: four MARKET orders of 2.5 with three one-second pauses, whatever each call's accepted or API-error outcome |
| Twap.Decide | src/advanced/twap.py:63-73 | checks symbol, quantity, slice count, interval, then credentials: rejects exactly when a validator fails, with the first failing one's error; proceeds exactly when all pass and both credentials are set; an interval of 0 is rejected |
| Twap.RunScript | src/advanced/twap.py:52-75 | no call unless every check passes; otherwise the TWAP run, which ends finished, on an uncaught gateway exception, with the sleep overflow (only for an interval above 9223372036 seconds), or with the conversion overflow (exactly when the slice count is 2^1024 - 2^970 or more) |
| Grid.GridFromUnfold | src/advanced/grid.py:38-64 | one level: buy first; an API error on the buy skips the sell and goes on with the next level; an uncaught exception ends the run |
| Grid.PlaceLevel | src/advanced/grid.py:38-64 | the `try` block of one level, tied to the specification run from that level on |
| Grid.PlaceGridOrders | src/advanced/grid.py:33-64 | the loop's status and trace equal the specification run `GridRun` |
| Grid.LadderAroundBase | src/advanced/grid.py:36-37 | the ladder prices `BuyPrice` (`base * (1 - 0.01 * (i + 1))`) and `SellPrice` (`base * (1 + 0.01 * (i + 1))`): for a positive base every level buys below and sells above it, symmetrically |
| Grid.LadderMonotone | src/advanced/grid.py:36-37 | higher levels buy strictly lower and sell strictly higher |
| Grid.BuyPriceSign | src/advanced/grid.py:36 | the buy price is positive exactly below loop index 99, zero at 99 and negative beyond |
| Grid.GridCalls | src/advanced/grid.py:35-64 | no pauses; the k-th event is a GTC LIMIT order for the per-level quantity on the grid's symbol that got the k-th answer |
| Grid.GridStatus | src/advanced/grid.py:35-64 | the run finishes exactly when no call raised an uncaught exception; otherwise the raising call is the last and the only one |
| Grid.GridCallCount | src/advanced/grid.py:38-64 | a finished run makes 2 calls per level, less one per buy that failed with an API error |
| Grid.GridAllAccepted | src/advanced/grid.py:35-64 | when every order is accepted the run finishes with exactly 2 * grid_levels calls |
| Grid.GridAllAcceptedAt | src/advanced/grid.py:35-64 | when every order is accepted, level j is the BUY at call 2j and the SELL at call 2j+1 |
| Grid.LevelStarts | src/advanced/grid.py:38-64 | each level starts where the previous one ended: two calls later after an accepted buy, one after a failed one |
| Grid.GridShape | src/advanced/grid.py:35-64 | in a finished run every level appears in ascending order: its BUY at its start, and its SELL right after if the buy was accepted |
| Grid.GridFailedBuySkipsSell | src/advanced/grid.py:38-64 | in a finished run, after a failed buy the next call is the next level's buy (or there is none after the last level) |
| Grid.GridSellIsolation | src/advanced/grid.py:52-64 | a sell's outcome (accepted or API error) affects nothing else in the run |
| Grid.GridExample | src/advanced/grid.py:33-64 | base 100, 3 levels, all accepted: buy 99 / sell 101, buy 98 / sell 102, buy 97 / sell 103, in that order |
| Grid.Decide | src/advanced/grid.py:76-88 | checks symbol, base price, `int(grid_levels)`, `grid_levels > 0`, quantity, then credentials: rejects exactly when a check fails, with the first failing one's error; proceeds exactly when all pass and both credentials are set; no upper bound on levels |
| Grid.NonPositiveBuyAdmitted | src/advanced/grid.py:76-90 | validated inputs with more than 100 levels, all accepted, send a buy at price 0 (level 100) and one at a negative price (level 101) |
| Grid.RunScript | src/advanced/grid.py:66-90 | no call unless every check passes; otherwise exactly the grid run |

## Left out

- Argument parsing: `argparse` and the `float()`/`int()` conversions are represented by a parsed value or `None`. The `choices` restriction on the side becomes the two-valued `Side`.
- `float()` text forms: `nan` and `inf` pass the validators in the source (a NaN is not `<= 0`). The model's numbers are exact reals, so it has neither.
- Floating-point rounding: `total_quantity / num_orders` and the ladder prices are exact reals, not IEEE doubles. The one float exception modelled is the `OverflowError` from converting `num_orders` at `src/advanced/twap.py:35`. The grid's `0.01 * (i + 1)` (`src/advanced/grid.py:36-37`) performs the same conversion, but it overflows only for a level index of 2^1024 - 2^970 - 1 or more, that is, after more than 10^308 levels have been placed. It is not modelled.
- `Client(api_key, api_secret)`: construction, HTTP transport, request signing and the exchange's own checks are not modelled. Failures are represented only as the gateway's per-call outcome. The constructor's exceptions are not modelled.
- `time.sleep` timing: a pause is an event in the trace carrying its length. Wall-clock time is not modelled. What is modelled is the exception `time.sleep` raises for a length it refuses: the `ValueError` for a negative one and the `OverflowError` for one out of range. The 9223372036-second bound is CPython's on a 64-bit nanosecond clock type.
- Logging and printing: `logging` to `bot.log` and `print` have no effect on the orders and are not modelled.
- Environment variables: `os.getenv` is reduced to two booleans saying whether each credential is set and non-empty.
- Unicode case rules: `str.upper` and `str.isupper` are modelled on ASCII letters only.
- Error messages: each validation failure is its own `ValidationError` constructor. The text a failed check prints in its traceback is not modelled.
