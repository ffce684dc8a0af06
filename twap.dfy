/** The TWAP script: the total quantity split into num_orders equal MARKET slices,
    with a pause of interval_seconds between consecutive slices. */
module Twap {
  import opened Orders
  import opened Validation

  /** The longest pause, in whole seconds, that CPython's time.sleep can convert to its
      signed 64-bit count of nanoseconds: 9223372036 * 10^9 <= 2^63 - 1 < 9223372037 * 10^9. */
  const MaxSleepSeconds: int := 9223372036

  /** The exception time.sleep(interval) raises for a whole number of seconds, if any. The
      conversion comes before the sign check, so a length beyond the range overflows
      whatever its sign. */
  function SleepError(interval: int): (e: Option<AbortReason>)
    ensures e.None? <==> 0 <= interval <= MaxSleepSeconds
    ensures e == Some(NegativeSleep) <==> -MaxSleepSeconds <= interval < 0
    ensures e == Some(SleepOverflow) <==> interval < -MaxSleepSeconds || MaxSleepSeconds < interval
  {
    if interval < -MaxSleepSeconds || MaxSleepSeconds < interval then Some(SleepOverflow)
    else if interval < 0 then Some(NegativeSleep)
    else None
  }

  /** A pause time.sleep carries out; by the contract of SleepError, exactly 0..MaxSleepSeconds. */
  predicate Sleepable(interval: int) {
    SleepError(interval).None?
  }

  /** The loop of place_twap_order from slice i on, every slice being `slice`: submit,
      catch an API error, and pause unless this was the last slice. */
  function TwapFrom(slice: OrderRequest, n: int, interval: int, gw: Gateway, i: nat): Run
    decreases n - i
  {
    if i >= n then Run(Finished, [])
    else if gw(i).Unhandled? then Run(Aborted(GatewayException), [Submit(slice, gw(i))])
    else if i == n - 1 then Run(Finished, [Submit(slice, gw(i))])
    else if SleepError(interval).Some? then Run(Aborted(SleepError(interval).value), [Submit(slice, gw(i))])
    else Then([Submit(slice, gw(i)), Sleep(interval)], TwapFrom(slice, n, interval, gw, i + 1))
  }

  /** One slice of TwapFrom, case by case. */
  lemma TwapFromUnfold(slice: OrderRequest, n: int, interval: int, gw: Gateway, i: nat)
    requires i < n
    ensures var r, submit := TwapFrom(slice, n, interval, gw, i), Submit(slice, gw(i));
      (gw(i).Unhandled? ==> r == Run(Aborted(GatewayException), [submit])) &&
      (!gw(i).Unhandled? && i == n - 1 ==>
        r == Then([submit], TwapFrom(slice, n, interval, gw, i + 1)) &&
        TwapFrom(slice, n, interval, gw, i + 1) == Run(Finished, [])) &&
      (!gw(i).Unhandled? && i < n - 1 && !Sleepable(interval) ==>
        r == Run(Aborted(SleepError(interval).value), [submit])) &&
      (!gw(i).Unhandled? && i < n - 1 && Sleepable(interval) ==>
        r == Then([submit, Sleep(interval)], TwapFrom(slice, n, interval, gw, i + 1)))
  {
    assert [Submit(slice, gw(i))] + [] == [Submit(slice, gw(i))];
  }

  /** The least magnitude of an int that CPython cannot convert to a float: 2^1024 - 2^970,
      that is 2^970 * (2^54 - 1), the hexadecimal digits FFFFFFFFFFFFFC followed by 242 zeros.
      The conversion rounds to 53 significant bits, half to even, and this value and every
      larger one would round to 2^1024, beyond the largest double. */
  const FloatIntBound: int := 0xFFFF_FFFF_FFFF_FC00_0000_0000_0000_0000_0000_0000_0000_0000_0000_0000_0000_0000_0000_0000_0000_0000_0000_0000_0000_0000_0000_0000_0000_0000_0000_0000_0000_0000_0000_0000_0000_0000_0000_0000_0000_0000_0000_0000_0000_0000_0000_0000_0000_0000_0000_0000_0000_0000_0000_0000_0000_0000_0000_0000_0000_0000_0000_0000_0000_0000

  /** An int that `float / int` converts without raising OverflowError. */
  predicate FloatConvertible(n: int) {
    -FloatIntBound < n < FloatIntBound
  }

  /** The slice request: a MARKET order for total / n with the upper-cased side. */
  function Slice(symbol: string, side: string, total: real, n: int): OrderRequest
    requires n != 0
  {
    MarketRequest(symbol, ToUpper(side), total / n as real)
  }

  /** place_twap_order as a function of its inputs and the gateway's answers. The division
      comes first: it converts num_orders to a float, which overflows for a count of 2^1024 - 2^970
      or more in magnitude, and then raises on num_orders == 0, both before any call; a negative
      count is an empty range. */
  function TwapRun(symbol: string, side: string, total: real, n: int, interval: int, gw: Gateway): Run {
    if !FloatConvertible(n) then Run(Aborted(FloatOverflow), [])
    else if n == 0 then Run(Aborted(ZeroDivision), [])
    else TwapFrom(Slice(symbol, side, total, n), n, interval, gw, 0)
  }

  /** One pass of the loop: the `try` around the call, then the pause unless this was the
      last slice. `stop` is the exception that ends the run, if any. */
  method PlaceSlice(slice: OrderRequest, n: int, interval: int, gw: Gateway, i: nat)
    returns (events: seq<Event>, stop: Option<AbortReason>)
    requires i < n
    ensures stop.Some? ==> TwapFrom(slice, n, interval, gw, i) == Run(Aborted(stop.value), events)
    ensures stop.None? ==> TwapFrom(slice, n, interval, gw, i) == Then(events, TwapFrom(slice, n, interval, gw, i + 1))
  {
    TwapFromUnfold(slice, n, interval, gw, i);
    var outcome := gw(i);
    events := [Submit(slice, outcome)];
    stop := None;
    if outcome.Unhandled? {
      stop := Some(GatewayException);
    } else if i < n - 1 {
      var sleepError := SleepError(interval);
      if sleepError.Some? {
        stop := sleepError;
      } else {
        events := events + [Sleep(interval)];
      }
    }
  }

  method PlaceTwapOrder(symbol: string, side: string, total: real, n: int, interval: int, gw: Gateway)
    returns (status: RunStatus, trace: seq<Event>)
    ensures Run(status, trace) == TwapRun(symbol, side, total, n, interval, gw)
  {
    if !FloatConvertible(n) {
      return Aborted(FloatOverflow), [];
    }
    if n == 0 {
      return Aborted(ZeroDivision), [];
    }
    var slice := Slice(symbol, side, total, n);
    ghost var whole := TwapFrom(slice, n, interval, gw, 0);
    trace := [];
    var i: nat := 0;
    while i < n
      invariant i == 0 || i <= n
      invariant Then(trace, TwapFrom(slice, n, interval, gw, i)) == whole
    {
      var events, stop := PlaceSlice(slice, n, interval, gw, i);
      if stop.Some? {
        return Aborted(stop.value), trace + events;
      }
      ThenThen(trace, events, TwapFrom(slice, n, interval, gw, i + 1));
      trace := trace + events;
      i := i + 1;
    }
    assert TwapFrom(slice, n, interval, gw, i) == Run(Finished, []);
    assert trace + [] == trace;
    status := Finished;
  }

  /** No gateway call of slices lo..hi-1 raises an exception the script does not catch. */
  ghost predicate Caught(gw: Gateway, lo: int, hi: int) {
    forall k: nat :: lo <= k < hi ==> !gw(k).Unhandled?
  }

  lemma {:induction false} TwapFromShape(slice: OrderRequest, n: int, interval: int, gw: Gateway, i: nat)
    requires i < n && Sleepable(interval) && Caught(gw, i, n)
    ensures var r := TwapFrom(slice, n, interval, gw, i);
      r.status == Finished && |r.trace| == 2 * (n - i) - 1 &&
      forall k :: 0 <= k < |r.trace| ==>
        r.trace[k] == if k % 2 == 0 then Submit(slice, gw(i + k / 2)) else Sleep(interval)
    decreases n - i
  {
    if i < n - 1 {
      TwapFromShape(slice, n, interval, gw, i + 1);
      var r := TwapFrom(slice, n, interval, gw, i);
      var rest := TwapFrom(slice, n, interval, gw, i + 1);
      assert r.trace == [Submit(slice, gw(i)), Sleep(interval)] + rest.trace;
      forall k | 2 <= k < |r.trace|
        ensures r.trace[k] == if k % 2 == 0 then Submit(slice, gw(i + k / 2)) else Sleep(interval)
      {
        assert r.trace[k] == rest.trace[k - 2];
        assert (k - 2) % 2 == k % 2 && i + 1 + (k - 2) / 2 == i + k / 2;
      }
    }
  }

  /** When no slice raises an uncaught exception and the interval is not negative, the run
      finishes and alternates Submit and Sleep: slice j at position 2j with the j-th answer,
      a Sleep(interval) between consecutive slices and none after the last. Every slice is a
      MARKET order for total / n with the upper-cased side, whatever earlier slices returned. */
  lemma TwapShape(symbol: string, side: string, total: real, n: int, interval: int, gw: Gateway)
    requires 0 < n < FloatIntBound && Sleepable(interval) && Caught(gw, 0, n)
    ensures var r := TwapRun(symbol, side, total, n, interval, gw);
      r.status == Finished && |r.trace| == 2 * n - 1 &&
      (forall j :: 0 <= j < n ==> r.trace[2 * j] == Submit(Slice(symbol, side, total, n), gw(j))) &&
      (forall j :: 0 <= j < n - 1 ==> r.trace[2 * j + 1] == Sleep(interval))
    ensures Slice(symbol, side, total, n).orderType == Market
    ensures Slice(symbol, side, total, n).quantity == total / n as real
    ensures Slice(symbol, side, total, n).side == ToUpper(side)
  {
    var r := TwapRun(symbol, side, total, n, interval, gw);
    TwapFromShape(Slice(symbol, side, total, n), n, interval, gw, 0);
    forall j | 0 <= j < n ensures r.trace[2 * j] == Submit(Slice(symbol, side, total, n), gw(j)) {
      assert (2 * j) % 2 == 0 && (2 * j) / 2 == j;
    }
    forall j | 0 <= j < n - 1 ensures r.trace[2 * j + 1] == Sleep(interval) {
      assert (2 * j + 1) % 2 == 1;
    }
  }

  lemma {:induction false} TwapFromMeasures(slice: OrderRequest, n: int, interval: int, gw: Gateway, i: nat)
    requires i < n && Sleepable(interval) && Caught(gw, i, n)
    ensures var t := TwapFrom(slice, n, interval, gw, i).trace;
      Submissions(t) == n - i && Sleeps(t) == n - i - 1 &&
      SubmittedQuantity(t) == (n - i) as real * slice.quantity
    decreases n - i
  {
    if i < n - 1 {
      var prefix := [Submit(slice, gw(i)), Sleep(interval)];
      var rest := TwapFrom(slice, n, interval, gw, i + 1).trace;
      TwapFromMeasures(slice, n, interval, gw, i + 1);
      MeasuresAppend(prefix, rest);
      assert prefix[1..][1..] == [];
    }
  }

  /** Exactly num_orders submissions and num_orders - 1 sleeps, and in exact arithmetic the
      slices add up to the total quantity. */
  lemma TwapTotals(symbol: string, side: string, total: real, n: int, interval: int, gw: Gateway)
    requires 0 < n < FloatIntBound && Sleepable(interval) && Caught(gw, 0, n)
    ensures var t := TwapRun(symbol, side, total, n, interval, gw).trace;
      Submissions(t) == n && Sleeps(t) == n - 1 && SubmittedQuantity(t) == total
  {
    TwapFromMeasures(Slice(symbol, side, total, n), n, interval, gw, 0);
    assert n as real * (total / n as real) == total;
  }

  lemma {:induction false} TwapFromIsolation(slice: OrderRequest, n: int, interval: int,
                                             gw1: Gateway, gw2: Gateway, j: nat, i: nat)
    requires forall k: nat :: k != j ==> gw1(k) == gw2(k)
    requires !gw1(j).Unhandled? && !gw2(j).Unhandled?
    ensures var r1, r2 := TwapFrom(slice, n, interval, gw1, i), TwapFrom(slice, n, interval, gw2, i);
      r1.status == r2.status && |r1.trace| == |r2.trace| &&
      forall k :: 0 <= k < |r1.trace| && k != 2 * (j - i) ==> r1.trace[k] == r2.trace[k]
    decreases n - i
  {
    if i < n && !gw1(i).Unhandled? && i < n - 1 && Sleepable(interval) {
      TwapFromIsolation(slice, n, interval, gw1, gw2, j, i + 1);
      var r1, r2 := TwapFrom(slice, n, interval, gw1, i), TwapFrom(slice, n, interval, gw2, i);
      var s1, s2 := TwapFrom(slice, n, interval, gw1, i + 1), TwapFrom(slice, n, interval, gw2, i + 1);
      assert r1.trace == [Submit(slice, gw1(i)), Sleep(interval)] + s1.trace;
      assert r2.trace == [Submit(slice, gw2(i)), Sleep(interval)] + s2.trace;
      forall k | 2 <= k < |r1.trace| && k != 2 * (j - i) ensures r1.trace[k] == r2.trace[k] {
        assert r1.trace[k] == s1.trace[k - 2] && r2.trace[k] == s2.trace[k - 2];
      }
    }
  }

  /** Failure isolation: two gateways that answer alike except on slice j, where neither
      raises an uncaught exception (say one accepts and the other returns an API error),
      give runs that end alike and differ at most in slice j's own outcome: the sleep after
      slice j and every later slice happen all the same. */
  lemma TwapIsolation(symbol: string, side: string, total: real, n: int, interval: int,
                      gw1: Gateway, gw2: Gateway, j: nat)
    requires forall k: nat :: k != j ==> gw1(k) == gw2(k)
    requires !gw1(j).Unhandled? && !gw2(j).Unhandled?
    ensures var r1, r2 := TwapRun(symbol, side, total, n, interval, gw1), TwapRun(symbol, side, total, n, interval, gw2);
      r1.status == r2.status && |r1.trace| == |r2.trace| &&
      forall k :: 0 <= k < |r1.trace| && k != 2 * j ==> r1.trace[k] == r2.trace[k]
  {
    if FloatConvertible(n) && n != 0 {
      TwapFromIsolation(Slice(symbol, side, total, n), n, interval, gw1, gw2, j, 0);
    }
  }

  /** An uncaught exception on slice j ends the run right there: nothing after slice j's call. */
  lemma TwapAbortsAtRaise(symbol: string, side: string, total: real, n: int, interval: int, gw: Gateway, j: nat)
    requires 0 <= j < n < FloatIntBound && Sleepable(interval) && Caught(gw, 0, j) && gw(j).Unhandled?
    ensures var r := TwapRun(symbol, side, total, n, interval, gw);
      r.status == Aborted(GatewayException) && |r.trace| == 2 * j + 1 &&
      r.trace[2 * j] == Submit(Slice(symbol, side, total, n), gw(j))
  {
    TwapFromAbort(Slice(symbol, side, total, n), n, interval, gw, j, 0);
  }

  lemma {:induction false} TwapFromAbort(slice: OrderRequest, n: int, interval: int, gw: Gateway, j: nat, i: nat)
    requires i <= j < n && Sleepable(interval) && Caught(gw, i, j) && gw(j).Unhandled?
    ensures var r := TwapFrom(slice, n, interval, gw, i);
      r.status == Aborted(GatewayException) && |r.trace| == 2 * (j - i) + 1 &&
      r.trace[2 * (j - i)] == Submit(slice, gw(j))
    decreases j - i
  {
    if i < j {
      TwapFromAbort(slice, n, interval, gw, j, i + 1);
    }
  }

  /** The run of 10 units in 4 slices one second apart: four MARKET orders of 2.5 with
      three one-second pauses between them, whatever the individual outcomes. */
  lemma TwapExample(gw: Gateway)
    requires Caught(gw, 0, 4)
    ensures var s := MarketRequest("BTCUSDT", "BUY", 2.5);
      TwapRun("BTCUSDT", "buy", 10.0, 4, 1, gw) ==
      Run(Finished, [Submit(s, gw(0)), Sleep(1), Submit(s, gw(1)), Sleep(1),
                     Submit(s, gw(2)), Sleep(1), Submit(s, gw(3))])
  {
    assert ToUpper("buy") == "BUY";
    TwapShape("BTCUSDT", "buy", 10.0, 4, 1, gw);
  }

  datatype TwapArgs = TwapArgs(
    symbol: string, side: Side, totalQuantity: Option<real>, numOrders: Option<int>, intervalSeconds: Option<int>)

  datatype TwapIntent = TwapIntent(
    symbol: string, side: Side, totalQuantity: real, numOrders: int, intervalSeconds: int)

  /** main's checks, in order: symbol, total quantity, slice count, interval, credentials.
      Both the slice count and the interval must be positive integers, so an interval of 0
      is rejected. */
  function Decide(args: TwapArgs, hasKey: bool, hasSecret: bool): (d: Decision<TwapIntent>)
    ensures d.Proceed? <==>
      ValidateSymbol(args.symbol).Ok? && ValidateQuantity(args.totalQuantity).Ok? &&
      ValidatePositiveInt(args.numOrders).Ok? && ValidatePositiveInt(args.intervalSeconds).Ok? &&
      hasKey && hasSecret
    ensures d.Proceed? ==>
      d.intent == TwapIntent(args.symbol, args.side, args.totalQuantity.value,
                             args.numOrders.value, args.intervalSeconds.value) &&
      d.intent.numOrders > 0 && d.intent.intervalSeconds > 0 && d.intent.totalQuantity > 0.0
    ensures d.Reject? ==>
      d.error == if ValidateSymbol(args.symbol).Err? then InvalidSymbol
                 else if ValidateQuantity(args.totalQuantity).Err? then InvalidQuantity
                 else InvalidInteger
    ensures d.Reject? <==>
      ValidateSymbol(args.symbol).Err? || ValidateQuantity(args.totalQuantity).Err? ||
      ValidatePositiveInt(args.numOrders).Err? || ValidatePositiveInt(args.intervalSeconds).Err?
    ensures args.intervalSeconds == Some(0) ==> d.Reject?
  {
    match ValidateSymbol(args.symbol)
    case Err(e) => Reject(e)
    case Ok(_) =>
      match ValidateQuantity(args.totalQuantity)
      case Err(e) => Reject(e)
      case Ok(q) =>
        match ValidatePositiveInt(args.numOrders)
        case Err(e) => Reject(e)
        case Ok(n) =>
          match ValidatePositiveInt(args.intervalSeconds)
          case Err(e) => Reject(e)
          case Ok(s) =>
            if !hasKey || !hasSecret then NoCredentials
            else Proceed(TwapIntent(args.symbol, args.side, q, n, s))
  }

  /** main: no call at all unless every check passes; otherwise the TWAP run. The checks
      rule out a division by zero and a negative pause, but not a slice count too large for
      a float, which stops the run before any call, nor an interval too long for time.sleep,
      which stops it with an overflow at the first pause. */
  method RunScript(args: TwapArgs, hasKey: bool, hasSecret: bool, gw: Gateway)
    returns (exit: Exit, trace: seq<Event>)
    ensures Decide(args, hasKey, hasSecret).Reject? ==>
      exit == Rejected(Decide(args, hasKey, hasSecret).error) && trace == []
    ensures Decide(args, hasKey, hasSecret).NoCredentials? ==> exit == MissingCredentials && trace == []
    ensures Decide(args, hasKey, hasSecret).Proceed? ==>
      var it := Decide(args, hasKey, hasSecret).intent;
      Ran(TwapRun(it.symbol, it.side.Name(), it.totalQuantity, it.numOrders, it.intervalSeconds, gw).status) == exit &&
      TwapRun(it.symbol, it.side.Name(), it.totalQuantity, it.numOrders, it.intervalSeconds, gw).trace == trace
    ensures exit.Ran? ==>
      exit.status == Finished || exit.status == Aborted(GatewayException) ||
      exit.status == Aborted(SleepOverflow) || exit.status == Aborted(FloatOverflow)
    ensures exit.Ran? ==>
      (exit.status == Aborted(FloatOverflow) <==> Decide(args, hasKey, hasSecret).intent.numOrders >= FloatIntBound)
    ensures exit.Ran? && Decide(args, hasKey, hasSecret).intent.numOrders < FloatIntBound &&
                         Decide(args, hasKey, hasSecret).intent.intervalSeconds <= MaxSleepSeconds ==>
      exit.status == Finished || exit.status == Aborted(GatewayException)
  {
    match Decide(args, hasKey, hasSecret)
    case Reject(e) =>
      exit, trace := Rejected(e), [];
    case NoCredentials =>
      exit, trace := MissingCredentials, [];
    case Proceed(it) =>
      var status;
      status, trace := PlaceTwapOrder(it.symbol, it.side.Name(), it.totalQuantity, it.numOrders, it.intervalSeconds, gw);
      if FloatConvertible(it.numOrders) {
        var slice := Slice(it.symbol, it.side.Name(), it.totalQuantity, it.numOrders);
        if it.intervalSeconds <= MaxSleepSeconds {
          TwapAbortsOnlyOnGatewayException(slice, it.numOrders, it.intervalSeconds, gw, 0);
        } else {
          TwapOverflowAtFirstPause(slice, it.numOrders, it.intervalSeconds, gw);
        }
      }
      exit := Ran(status);
  }

  /** Nothing bounds the interval from above: 2 slices 10^10 seconds apart pass every check,
      and the run stops with an overflow after the first call. */
  lemma TwapHugeIntervalAdmitted(gw: Gateway)
    requires !gw(0).Unhandled?
    ensures var d := Decide(TwapArgs("BTCUSDT", Buy, Some(1.0), Some(2), Some(10000000000)), true, true);
      d.Proceed? &&
      TwapRun(d.intent.symbol, d.intent.side.Name(), d.intent.totalQuantity, d.intent.numOrders,
              d.intent.intervalSeconds, gw) ==
      Run(Aborted(SleepOverflow), [Submit(MarketRequest("BTCUSDT", "BUY", 0.5), gw(0))])
  {
    SymbolsAccepted();
    SideNameIsUpper(Buy);
    TwapOverflowAtFirstPause(Slice("BTCUSDT", "BUY", 1.0, 2), 2, 10000000000, gw);
  }

  /** Nothing bounds the slice count from above either: 2^1024 - 2^970 slices pass every
      check, and the division overflows before the first call. */
  lemma TwapHugeCountAdmitted(gw: Gateway)
    ensures var d := Decide(TwapArgs("BTCUSDT", Buy, Some(1.0), Some(FloatIntBound), Some(1)), true, true);
      d.Proceed? &&
      TwapRun(d.intent.symbol, d.intent.side.Name(), d.intent.totalQuantity, d.intent.numOrders,
              d.intent.intervalSeconds, gw) ==
      Run(Aborted(FloatOverflow), [])
  {
    SymbolsAccepted();
  }

  /** An interval beyond what time.sleep converts stops a run of two or more slices at the
      first pause, right after the first call, unless that call already raised. */
  lemma TwapOverflowAtFirstPause(slice: OrderRequest, n: int, interval: int, gw: Gateway)
    requires interval > MaxSleepSeconds
    ensures var r := TwapFrom(slice, n, interval, gw, 0);
      (n >= 2 && !gw(0).Unhandled? ==> r == Run(Aborted(SleepOverflow), [Submit(slice, gw(0))])) &&
      (r.status == Finished || r.status == Aborted(GatewayException) || r.status == Aborted(SleepOverflow))
  {
    if 0 < n {
      TwapFromUnfold(slice, n, interval, gw, 0);
    }
  }

  /** With an interval time.sleep carries out, the only way a run stops early is an uncaught
      gateway exception. */
  lemma {:induction false} TwapAbortsOnlyOnGatewayException(slice: OrderRequest, n: int, interval: int, gw: Gateway, i: nat)
    requires Sleepable(interval)
    ensures var r := TwapFrom(slice, n, interval, gw, i);
      r.status == Finished || r.status == Aborted(GatewayException)
    decreases n - i
  {
    if i < n - 1 && !gw(i).Unhandled? {
      TwapAbortsOnlyOnGatewayException(slice, n, interval, gw, i + 1);
    }
  }
}
