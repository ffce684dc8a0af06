/** The grid script: for each level a BUY LIMIT order below the base price, then a SELL
    LIMIT order above it, on a ladder of 1% per level. */
module Grid {
  import opened Orders
  import opened Validation

  datatype GridIntent = GridIntent(symbol: string, basePrice: real, levels: int, quantityPerLevel: real)

  /** Prices for loop index i (level i + 1), in exact arithmetic. */
  function BuyPrice(base: real, i: int): real {
    base * (1.0 - 0.01 * (i + 1) as real)
  }

  function SellPrice(base: real, i: int): real {
    base * (1.0 + 0.01 * (i + 1) as real)
  }

  function BuyOrder(g: GridIntent, i: int): OrderRequest {
    OrderRequest(g.symbol, "BUY", Limit, g.quantityPerLevel, Some(BuyPrice(g.basePrice, i)), None, Some(GoodTillCancelled))
  }

  function SellOrder(g: GridIntent, i: int): OrderRequest {
    OrderRequest(g.symbol, "SELL", Limit, g.quantityPerLevel, Some(SellPrice(g.basePrice, i)), None, Some(GoodTillCancelled))
  }

  /** The loop of place_grid_orders from level index i on, the next call being call c.
      The buy and the sell of a level share one `try`: an API error on the buy skips
      that level's sell, and the loop goes on with the next level. */
  function GridFrom(g: GridIntent, gw: Gateway, i: nat, c: nat): Run
    decreases g.levels - i
  {
    if i >= g.levels then Run(Finished, [])
    else
      var buy := Submit(BuyOrder(g, i), gw(c));
      if gw(c).Unhandled? then Run(Aborted(GatewayException), [buy])
      else if gw(c).ApiError? then Then([buy], GridFrom(g, gw, i + 1, c + 1))
      else
        var sell := Submit(SellOrder(g, i), gw(c + 1));
        if gw(c + 1).Unhandled? then Run(Aborted(GatewayException), [buy, sell])
        else Then([buy, sell], GridFrom(g, gw, i + 1, c + 2))
  }

  /** One level of GridFrom, case by case. */
  lemma GridFromUnfold(g: GridIntent, gw: Gateway, i: nat, c: nat)
    requires i < g.levels
    ensures var r := GridFrom(g, gw, i, c);
      var buy, sell := Submit(BuyOrder(g, i), gw(c)), Submit(SellOrder(g, i), gw(c + 1));
      (gw(c).Unhandled? ==> r == Run(Aborted(GatewayException), [buy])) &&
      (gw(c).ApiError? ==> r == Then([buy], GridFrom(g, gw, i + 1, c + 1))) &&
      (gw(c).Accepted? && gw(c + 1).Unhandled? ==> r == Run(Aborted(GatewayException), [buy, sell])) &&
      (gw(c).Accepted? && !gw(c + 1).Unhandled? ==> r == Then([buy, sell], GridFrom(g, gw, i + 1, c + 2)))
  {
  }

  function GridRun(g: GridIntent, gw: Gateway): Run {
    GridFrom(g, gw, 0, 0)
  }

  /** The `try` block of one level: the buy, then, only if the buy was accepted, the sell. */
  method PlaceLevel(g: GridIntent, gw: Gateway, i: nat, c: nat) returns (events: seq<Event>, raised: bool)
    requires i < g.levels
    ensures raised ==> GridFrom(g, gw, i, c) == Run(Aborted(GatewayException), events)
    ensures !raised ==> GridFrom(g, gw, i, c) == Then(events, GridFrom(g, gw, i + 1, c + |events|))
  {
    GridFromUnfold(g, gw, i, c);
    var buyOutcome := gw(c);
    events := [Submit(BuyOrder(g, i), buyOutcome)];
    raised := buyOutcome.Unhandled?;
    if buyOutcome.Accepted? {
      var sellOutcome := gw(c + 1);
      events := events + [Submit(SellOrder(g, i), sellOutcome)];
      raised := sellOutcome.Unhandled?;
    }
  }

  method PlaceGridOrders(symbol: string, basePrice: real, gridLevels: int, quantityPerLevel: real, gw: Gateway)
    returns (status: RunStatus, trace: seq<Event>)
    ensures Run(status, trace) == GridRun(GridIntent(symbol, basePrice, gridLevels, quantityPerLevel), gw)
  {
    var g := GridIntent(symbol, basePrice, gridLevels, quantityPerLevel);
    ghost var whole := GridRun(g, gw);
    trace := [];
    var calls: nat := 0;
    var i: nat := 0;
    while i < gridLevels
      invariant i == 0 || i <= gridLevels
      invariant Then(trace, GridFrom(g, gw, i, calls)) == whole
    {
      var events, raised := PlaceLevel(g, gw, i, calls);
      if raised {
        assert whole == Run(Aborted(GatewayException), trace + events);
        return Aborted(GatewayException), trace + events;
      }
      ghost var rest := GridFrom(g, gw, i + 1, calls + |events|);
      ThenThen(trace, events, rest);
      trace := trace + events;
      calls := calls + |events|;
      i := i + 1;
    }
    assert GridFrom(g, gw, i, calls) == Run(Finished, []);
    assert trace + [] == trace;
    status := Finished;
  }

  // The price ladder.

  /** For a positive base price every level buys below it and sells above it, symmetrically. */
  lemma LadderAroundBase(base: real, i: nat)
    requires base > 0.0
    ensures BuyPrice(base, i) < base < SellPrice(base, i)
    ensures BuyPrice(base, i) + SellPrice(base, i) == 2.0 * base
  {
    var d := 0.01 * (i + 1) as real;
    assert d > 0.0;
    assert base * d > 0.0;
    assert BuyPrice(base, i) == base - base * d;
    assert SellPrice(base, i) == base + base * d;
  }

  /** Higher levels buy strictly lower and sell strictly higher. */
  lemma LadderMonotone(base: real, i: nat, j: nat)
    requires base > 0.0 && i < j
    ensures BuyPrice(base, j) < BuyPrice(base, i)
    ensures SellPrice(base, i) < SellPrice(base, j)
  {
    var d := 0.01 * (j - i) as real;
    assert d > 0.0;
    assert base * d > 0.0;
    assert BuyPrice(base, j) == BuyPrice(base, i) - base * d;
    assert SellPrice(base, j) == SellPrice(base, i) + base * d;
  }

  /** Nothing bounds the number of levels: the buy price is positive only below loop
      index 99, zero at level 100 and negative beyond. */
  lemma BuyPriceSign(base: real, i: nat)
    requires base > 0.0
    ensures BuyPrice(base, i) > 0.0 <==> i < 99
    ensures i == 99 ==> BuyPrice(base, i) == 0.0
    ensures i > 99 ==> BuyPrice(base, i) < 0.0
  {
    var f := 1.0 - 0.01 * (i + 1) as real;
    assert BuyPrice(base, i) == base * f;
    if i < 99 {
      assert f > 0.0;
    } else if i == 99 {
      assert f == 0.0;
    } else {
      assert f < 0.0;
    }
  }

  // The calls a run makes.

  /** Remaining levels from loop index i; a non-positive count is an empty range. */
  function Remaining(g: GridIntent, i: nat): nat {
    if g.levels <= i then 0 else g.levels - i
  }

  /** The event is a call that got `outcome`: a good-till-cancelled LIMIT order for the
      per-level quantity on the grid's symbol, with a price and without a stop price. */
  predicate IsGridCall(g: GridIntent, e: Event, outcome: Outcome) {
    e.Submit? && e.outcome == outcome &&
    e.request.orderType == Limit && e.request.symbol == g.symbol &&
    e.request.quantity == g.quantityPerLevel &&
    e.request.timeInForce == Some(GoodTillCancelled) &&
    e.request.stopPrice.None? && e.request.price.Some?
  }

  /** Every event of t is a grid call, the k-th one getting the gateway's answer to call c + k. */
  ghost predicate CallsFrom(g: GridIntent, gw: Gateway, t: seq<Event>, c: nat) {
    forall k :: 0 <= k < |t| ==> IsGridCall(g, t[k], gw(c + k))
  }

  lemma CallsThen(g: GridIntent, gw: Gateway, p: seq<Event>, t: seq<Event>, c: nat)
    requires CallsFrom(g, gw, p, c) && CallsFrom(g, gw, t, c + |p|)
    ensures CallsFrom(g, gw, p + t, c)
  {
    forall k | 0 <= k < |p + t| ensures IsGridCall(g, (p + t)[k], gw(c + k)) {
      if k >= |p| {
        assert (p + t)[k] == t[k - |p|] && c + k == c + |p| + (k - |p|);
      }
    }
  }

  lemma {:induction false} GridFromCalls(g: GridIntent, gw: Gateway, i: nat, c: nat)
    ensures CallsFrom(g, gw, GridFrom(g, gw, i, c).trace, c)
    decreases g.levels - i
  {
    if i < g.levels {
      GridFromUnfold(g, gw, i, c);
      var buy, sell := Submit(BuyOrder(g, i), gw(c)), Submit(SellOrder(g, i), gw(c + 1));
      assert CallsFrom(g, gw, [buy], c);
      assert CallsFrom(g, gw, [buy, sell], c) by {
        assert IsGridCall(g, [buy, sell][1], gw(c + 1));
      }
      if gw(c).ApiError? {
        GridFromCalls(g, gw, i + 1, c + 1);
        CallsThen(g, gw, [buy], GridFrom(g, gw, i + 1, c + 1).trace, c);
      } else if gw(c).Accepted? && !gw(c + 1).Unhandled? {
        GridFromCalls(g, gw, i + 1, c + 2);
        CallsThen(g, gw, [buy, sell], GridFrom(g, gw, i + 1, c + 2).trace, c);
      }
    } else {
      assert GridFrom(g, gw, i, c).trace == [];
    }
  }

  lemma GridFromCallAt(g: GridIntent, gw: Gateway, i: nat, c: nat, k: nat)
    requires k < |GridFrom(g, gw, i, c).trace|
    ensures IsGridCall(g, GridFrom(g, gw, i, c).trace[k], gw(c + k))
  {
    GridFromCalls(g, gw, i, c);
  }

  /** The grid never sleeps: every event is a call, and the k-th event is a LIMIT order
      (good till cancelled, per-level quantity, the grid's symbol) that got the gateway's
      k-th answer. */
  lemma GridCalls(g: GridIntent, gw: Gateway)
    ensures var t := GridRun(g, gw).trace;
      Sleeps(t) == 0 && forall k :: 0 <= k < |t| ==> IsGridCall(g, t[k], gw(k))
  {
    var t := GridFrom(g, gw, 0, 0).trace;
    forall k | 0 <= k < |t| ensures IsGridCall(g, t[k], gw(k)) {
      GridFromCallAt(g, gw, 0, 0, k);
    }
    NoSleeps(t);
  }

  lemma {:induction false} NoSleeps(t: seq<Event>)
    requires forall k :: 0 <= k < |t| ==> t[k].Submit?
    ensures Sleeps(t) == 0
  {
    if t != [] {
      assert forall k :: 0 <= k < |t[1..]| ==> t[1..][k] == t[k + 1];
      NoSleeps(t[1..]);
    }
  }

  /** How a run ended, read off its trace. */
  ghost predicate StatusMatchesTrace(r: Run) {
    (r.status == Finished <==> forall k :: 0 <= k < |r.trace| ==> !Raised(r.trace[k])) &&
    (r.status.Aborted? ==>
      r.status.reason == GatewayException && |r.trace| > 0 && Raised(r.trace[|r.trace| - 1]) &&
      forall k :: 0 <= k < |r.trace| - 1 ==> !Raised(r.trace[k]))
  }

  /** Calls that raised nothing, put in front of a run, leave its status read off its trace. */
  lemma StatusThen(p: seq<Event>, r: Run)
    requires forall k :: 0 <= k < |p| ==> !Raised(p[k])
    requires StatusMatchesTrace(r)
    ensures StatusMatchesTrace(Then(p, r))
  {
    var t := p + r.trace;
    assert forall k :: |p| <= k < |t| ==> t[k] == r.trace[k - |p|];
    assert forall k :: 0 <= k < |p| ==> t[k] == p[k];
    if forall k :: 0 <= k < |r.trace| ==> !Raised(r.trace[k]) {
      forall k | 0 <= k < |t| ensures !Raised(t[k]) {
        if k >= |p| {
          assert t[k] == r.trace[k - |p|];
        }
      }
    } else {
      var k :| 0 <= k < |r.trace| && Raised(r.trace[k]);
      assert Raised(t[|p| + k]);
    }
    if r.status.Aborted? {
      assert t[|t| - 1] == r.trace[|r.trace| - 1];
      forall k | 0 <= k < |t| - 1 ensures !Raised(t[k]) {
        if k >= |p| {
          assert t[k] == r.trace[k - |p|];
        }
      }
    }
  }

  /** A run that aborts on its last call, after calls that raised nothing. */
  lemma StatusOfRaise(p: seq<Event>, e: Event)
    requires forall k :: 0 <= k < |p| ==> !Raised(p[k])
    requires Raised(e)
    ensures StatusMatchesTrace(Run(Aborted(GatewayException), p + [e]))
  {
    var t := p + [e];
    assert t[|t| - 1] == e;
    assert forall k :: 0 <= k < |p| ==> t[k] == p[k];
  }

  lemma {:induction false} GridFromStatus(g: GridIntent, gw: Gateway, i: nat, c: nat)
    ensures StatusMatchesTrace(GridFrom(g, gw, i, c))
    decreases g.levels - i
  {
    if i < g.levels {
      GridFromUnfold(g, gw, i, c);
      var buy, sell := Submit(BuyOrder(g, i), gw(c)), Submit(SellOrder(g, i), gw(c + 1));
      if gw(c).Unhandled? {
        StatusOfRaise([], buy);
        assert [] + [buy] == [buy];
      } else if gw(c).ApiError? {
        GridFromStatus(g, gw, i + 1, c + 1);
        StatusThen([buy], GridFrom(g, gw, i + 1, c + 1));
      } else if gw(c + 1).Unhandled? {
        StatusOfRaise([buy], sell);
        assert [buy] + [sell] == [buy, sell];
      } else {
        GridFromStatus(g, gw, i + 1, c + 2);
        StatusThen([buy, sell], GridFrom(g, gw, i + 1, c + 2));
      }
    } else {
      assert GridFrom(g, gw, i, c) == Run(Finished, []);
    }
  }

  /** The run finishes exactly when no call raised an uncaught exception; otherwise the
      call that raised is the last one made and the only one that raised. */
  lemma GridStatus(g: GridIntent, gw: Gateway)
    ensures var r := GridRun(g, gw);
      (r.status == Finished <==> forall k :: 0 <= k < |r.trace| ==> !Raised(r.trace[k])) &&
      (r.status.Aborted? ==>
        r.status.reason == GatewayException && |r.trace| > 0 && Raised(r.trace[|r.trace| - 1]) &&
        forall k :: 0 <= k < |r.trace| - 1 ==> !Raised(r.trace[k]))
  {
    GridFromStatus(g, gw, 0, 0);
  }

  /** The number of buy calls the exchange answered with an API error. */
  function FailedBuys(t: seq<Event>): nat {
    if t == [] then 0
    else (if t[0].Submit? && t[0].request.side == "BUY" && t[0].outcome.ApiError? then 1 else 0) + FailedBuys(t[1..])
  }

  lemma {:induction false} FailedBuysAppend(a: seq<Event>, b: seq<Event>)
    ensures FailedBuys(a + b) == FailedBuys(a) + FailedBuys(b)
  {
    if a == [] {
      assert a + b == b;
    } else {
      assert (a + b)[1..] == a[1..] + b;
      FailedBuysAppend(a[1..], b);
    }
  }

  lemma {:induction false} GridFromCount(g: GridIntent, gw: Gateway, i: nat, c: nat)
    requires GridFrom(g, gw, i, c).status == Finished
    ensures var t := GridFrom(g, gw, i, c).trace; |t| == 2 * Remaining(g, i) - FailedBuys(t)
    decreases g.levels - i
  {
    if i < g.levels {
      GridFromUnfold(g, gw, i, c);
      var buy := Submit(BuyOrder(g, i), gw(c));
      if gw(c).ApiError? {
        GridFromCount(g, gw, i + 1, c + 1);
        FailedBuysAppend([buy], GridFrom(g, gw, i + 1, c + 1).trace);
        assert FailedBuys([buy]) == 1;
      } else {
        var sell := Submit(SellOrder(g, i), gw(c + 1));
        GridFromCount(g, gw, i + 1, c + 2);
        FailedBuysAppend([buy, sell], GridFrom(g, gw, i + 1, c + 2).trace);
        assert [buy, sell][1..] == [sell];
        assert FailedBuys([buy, sell]) == 0;
      }
    }
  }

  /** A finished run makes two calls per level, less one for every buy that failed with an
      API error (its level's sell is skipped). */
  lemma GridCallCount(g: GridIntent, gw: Gateway)
    requires GridRun(g, gw).status == Finished
    ensures var t := GridRun(g, gw).trace; |t| == 2 * Remaining(g, 0) - FailedBuys(t)
  {
    GridFromCount(g, gw, 0, 0);
  }

  lemma {:induction false} GridFromAllAccepted(g: GridIntent, gw: Gateway, i: nat, c: nat)
    requires forall k: nat :: c <= k < c + 2 * Remaining(g, i) ==> gw(k).Accepted?
    ensures var r := GridFrom(g, gw, i, c);
      r.status == Finished && |r.trace| == 2 * Remaining(g, i)
    decreases g.levels - i
  {
    if i < g.levels {
      GridFromUnfold(g, gw, i, c);
      assert gw(c).Accepted? && gw(c + 1).Accepted?;
      GridFromAllAccepted(g, gw, i + 1, c + 2);
    }
  }

  /** When the exchange accepts every order the run makes exactly 2 * grid_levels calls. */
  lemma GridAllAccepted(g: GridIntent, gw: Gateway)
    requires g.levels > 0
    requires forall k: nat :: k < 2 * g.levels ==> gw(k).Accepted?
    ensures GridRun(g, gw).status == Finished && |GridRun(g, gw).trace| == 2 * g.levels
  {
    GridFromAllAccepted(g, gw, 0, 0);
  }

  // The order of the calls.

  /** How many calls a level starting at call s makes when it does not abort: two after an
      accepted buy, one after a buy that failed with an API error. */
  function Width(gw: Gateway, s: nat): nat {
    if gw(s).Accepted? then 2 else 1
  }

  /** The call at which the j-th level after one starting at call c starts. */
  function LevelStart(gw: Gateway, c: nat, j: nat): (s: nat)
    ensures c + j <= s <= c + 2 * j
    decreases j
  {
    if j == 0 then c else LevelStart(gw, c + Width(gw, c), j - 1)
  }

  lemma {:induction false} LevelStartStep(gw: Gateway, c: nat, j: nat)
    ensures LevelStart(gw, c, j + 1) == LevelStart(gw, c, j) + Width(gw, LevelStart(gw, c, j))
    decreases j
  {
    if j > 0 {
      LevelStartStep(gw, c + Width(gw, c), j - 1);
    }
  }

  /** Level `level`, whose buy is call s, appears in trace t, whose first event is call
      `first`: its BUY at position s - first and, if that buy was accepted, its SELL right after. */
  ghost predicate LevelPlaced(g: GridIntent, gw: Gateway, t: seq<Event>, first: nat, level: nat, s: nat) {
    first <= s && s - first < |t| &&
    t[s - first] == Submit(BuyOrder(g, level), gw(s)) &&
    (gw(s).Accepted? ==>
      s + 1 - first < |t| && t[s + 1 - first] == Submit(SellOrder(g, level), gw(s + 1)))
  }

  /** A level of a finished run: its own calls first, then the finished rest of the run. */
  lemma GridFromLevel(g: GridIntent, gw: Gateway, i: nat, c: nat)
    requires i < g.levels && GridFrom(g, gw, i, c).status == Finished
    ensures var t, w := GridFrom(g, gw, i, c).trace, Width(gw, c);
      w <= |t| && t[w..] == GridFrom(g, gw, i + 1, c + w).trace &&
      GridFrom(g, gw, i + 1, c + w).status == Finished &&
      LevelPlaced(g, gw, t, c, i, c)
  {
    GridFromUnfold(g, gw, i, c);
  }

  lemma {:induction false} GridFromShape(g: GridIntent, gw: Gateway, i: nat, c: nat)
    requires GridFrom(g, gw, i, c).status == Finished
    ensures var t := GridFrom(g, gw, i, c).trace;
      |t| == LevelStart(gw, c, Remaining(g, i)) - c &&
      forall j :: 0 <= j < Remaining(g, i) ==> LevelPlaced(g, gw, t, c, i + j, LevelStart(gw, c, j))
    decreases g.levels - i
  {
    if i < g.levels {
      GridFromLevel(g, gw, i, c);
      GridFromShape(g, gw, i + 1, c + Width(gw, c));
      ShapeStep(g, gw, GridFrom(g, gw, i, c).trace, i, c);
    }
  }

  /** A first level placed at the head of t, followed by the shape of the rest of the
      run, gives the shape of the whole. */
  lemma ShapeStep(g: GridIntent, gw: Gateway, t: seq<Event>, i: nat, c: nat)
    requires i < g.levels && Width(gw, c) <= |t| && LevelPlaced(g, gw, t, c, i, c)
    requires var t', c' := t[Width(gw, c)..], c + Width(gw, c);
      |t'| == LevelStart(gw, c', Remaining(g, i + 1)) - c' &&
      forall j :: 0 <= j < Remaining(g, i + 1) ==> LevelPlaced(g, gw, t', c', i + 1 + j, LevelStart(gw, c', j))
    ensures |t| == LevelStart(gw, c, Remaining(g, i)) - c
    ensures forall j :: 0 <= j < Remaining(g, i) ==> LevelPlaced(g, gw, t, c, i + j, LevelStart(gw, c, j))
  {
    assert Remaining(g, i) == Remaining(g, i + 1) + 1;
    assert LevelStart(gw, c, Remaining(g, i)) == LevelStart(gw, c + Width(gw, c), Remaining(g, i + 1));
    LevelsPlacedShift(g, gw, t, i, c);
    assert LevelPlaced(g, gw, t, c, i + 0, LevelStart(gw, c, 0));
  }

  /** The levels after the first, placed in the rest t' of the trace, are placed in the whole. */
  lemma LevelsPlacedShift(g: GridIntent, gw: Gateway, t: seq<Event>, i: nat, c: nat)
    requires i < g.levels && Width(gw, c) <= |t|
    requires var t', c' := t[Width(gw, c)..], c + Width(gw, c);
      forall j :: 0 <= j < Remaining(g, i + 1) ==> LevelPlaced(g, gw, t', c', i + 1 + j, LevelStart(gw, c', j))
    ensures forall j :: 1 <= j < Remaining(g, i) ==> LevelPlaced(g, gw, t, c, i + j, LevelStart(gw, c, j))
  {
    var w := Width(gw, c);
    forall j | 1 <= j < Remaining(g, i) ensures LevelPlaced(g, gw, t, c, i + j, LevelStart(gw, c, j)) {
      assert LevelStart(gw, c, j) == LevelStart(gw, c + w, j - 1);
      assert LevelPlaced(g, gw, t[w..], c + w, i + 1 + (j - 1), LevelStart(gw, c + w, j - 1));
      LevelPlacedShift(g, gw, t, w, c, i + j, LevelStart(gw, c, j));
    }
  }

  lemma LevelPlacedShift(g: GridIntent, gw: Gateway, t: seq<Event>, w: nat, first: nat, level: nat, s: nat)
    requires w <= |t| && LevelPlaced(g, gw, t[w..], first + w, level, s)
    ensures LevelPlaced(g, gw, t, first, level, s)
  {
    assert t[s - first] == t[w..][s - (first + w)];
    if gw(s).Accepted? {
      assert t[s + 1 - first] == t[w..][s + 1 - (first + w)];
    }
  }

  /** The calls of a finished run, level by level: level j (loop index j) starts at call
      LevelStart(gw, 0, j) with its BUY at BuyPrice(base, j); if that buy was accepted the
      very next call is the same level's SELL at SellPrice(base, j) and the next level
      starts two calls later, otherwise the sell is skipped and the next level's buy is the
      very next call. Levels come in ascending order and every one of them is attempted. */
  lemma GridShape(g: GridIntent, gw: Gateway)
    requires GridRun(g, gw).status == Finished
    ensures |GridRun(g, gw).trace| == LevelStart(gw, 0, Remaining(g, 0))
    ensures forall j :: 0 <= j < Remaining(g, 0) ==>
      LevelPlaced(g, gw, GridRun(g, gw).trace, 0, j, LevelStart(gw, 0, j))
  {
    GridFromShape(g, gw, 0, 0);
    var t := GridRun(g, gw).trace;
    forall j | 0 <= j < Remaining(g, 0) ensures LevelPlaced(g, gw, t, 0, j, LevelStart(gw, 0, j)) {
      assert LevelPlaced(g, gw, t, 0, 0 + j, LevelStart(gw, 0, j));
    }
  }

  /** Each level starts where the previous one ended. */
  lemma LevelStarts(gw: Gateway)
    ensures forall j: nat :: LevelStart(gw, 0, j + 1) == LevelStart(gw, 0, j) + Width(gw, LevelStart(gw, 0, j))
  {
    forall j: nat ensures LevelStart(gw, 0, j + 1) == LevelStart(gw, 0, j) + Width(gw, LevelStart(gw, 0, j)) {
      LevelStartStep(gw, 0, j);
    }
  }

  /** A failed buy skips its own sell, and the next level is still attempted: when the buy
      of a level fails with an API error, the next call is the next level's buy (or, after
      the last level, there is no next call). */
  lemma GridFailedBuySkipsSell(g: GridIntent, gw: Gateway, j: nat)
    requires GridRun(g, gw).status == Finished
    requires j < Remaining(g, 0) && gw(LevelStart(gw, 0, j)).ApiError?
    ensures var t := GridRun(g, gw).trace; var s := LevelStart(gw, 0, j);
      s < |t| && t[s] == Submit(BuyOrder(g, j), gw(s)) &&
      (j + 1 < Remaining(g, 0) ==> s + 1 < |t| && t[s + 1] == Submit(BuyOrder(g, j + 1), gw(s + 1))) &&
      (j + 1 == Remaining(g, 0) ==> s + 1 == |t|)
  {
    GridShape(g, gw);
    LevelStartStep(gw, 0, j);
    if j + 1 < Remaining(g, 0) {
      assert LevelPlaced(g, gw, GridRun(g, gw).trace, 0, j + 1, LevelStart(gw, 0, j + 1));
    }
  }

  /** Two traces of the same length that agree everywhere except possibly at position d. */
  ghost predicate AgreeExcept(t1: seq<Event>, t2: seq<Event>, d: int) {
    |t1| == |t2| && forall k :: 0 <= k < |t1| && k != d ==> t1[k] == t2[k]
  }

  lemma AgreeExceptThen(p1: seq<Event>, p2: seq<Event>, r1: Run, r2: Run, d: int)
    requires AgreeExcept(p1, p2, d) && r1.status == r2.status
    requires AgreeExcept(r1.trace, r2.trace, d - |p1|)
    ensures Then(p1, r1).status == Then(p2, r2).status
    ensures AgreeExcept(Then(p1, r1).trace, Then(p2, r2).trace, d)
  {
    var t1, t2 := p1 + r1.trace, p2 + r2.trace;
    forall k | 0 <= k < |t1| && k != d ensures t1[k] == t2[k] {
      if k >= |p1| {
        assert t1[k] == r1.trace[k - |p1|] && t2[k] == r2.trace[k - |p1|];
      }
    }
  }

  lemma {:induction false} GridFromSellIsolation(g: GridIntent, gw1: Gateway, gw2: Gateway, x: nat, i: nat, c: nat)
    requires forall k: nat :: k != x ==> gw1(k) == gw2(k)
    requires !gw1(x).Unhandled? && !gw2(x).Unhandled?
    requires var t1 := GridFrom(g, gw1, i, c).trace;
      c <= x < c + |t1| ==> t1[x - c].Submit? && t1[x - c].request.side == "SELL"
    ensures var r1, r2 := GridFrom(g, gw1, i, c), GridFrom(g, gw2, i, c);
      r1.status == r2.status && AgreeExcept(r1.trace, r2.trace, x - c)
    decreases g.levels - i, 1
  {
    if i < g.levels {
      GridFromUnfold(g, gw1, i, c);
      assert GridFrom(g, gw1, i, c).trace[0].request.side == "BUY";
      assert x != c;
      if gw1(c).ApiError? {
        SellIsolationAfterFailedBuy(g, gw1, gw2, x, i, c);
      } else if gw1(c).Accepted? {
        SellIsolationAfterAcceptedBuy(g, gw1, gw2, x, i, c);
      } else {
        GridFromUnfold(g, gw2, i, c);
      }
    }
  }

  lemma {:induction false} SellIsolationAfterFailedBuy(g: GridIntent, gw1: Gateway, gw2: Gateway, x: nat, i: nat, c: nat)
    requires i < g.levels && x != c && gw1(c).ApiError?
    requires forall k: nat :: k != x ==> gw1(k) == gw2(k)
    requires !gw1(x).Unhandled? && !gw2(x).Unhandled?
    requires var t1 := GridFrom(g, gw1, i, c).trace;
      c <= x < c + |t1| ==> t1[x - c].Submit? && t1[x - c].request.side == "SELL"
    ensures var r1, r2 := GridFrom(g, gw1, i, c), GridFrom(g, gw2, i, c);
      r1.status == r2.status && AgreeExcept(r1.trace, r2.trace, x - c)
    decreases g.levels - i, 0
  {
    GridFromUnfold(g, gw1, i, c);
    GridFromUnfold(g, gw2, i, c);
    var buy := Submit(BuyOrder(g, i), gw1(c));
    var t1, s1 := GridFrom(g, gw1, i, c).trace, GridFrom(g, gw1, i + 1, c + 1).trace;
    assert c + 1 <= x < c + 1 + |s1| ==> s1[x - (c + 1)] == t1[x - c];
    GridFromSellIsolation(g, gw1, gw2, x, i + 1, c + 1);
    AgreeExceptThen([buy], [buy], GridFrom(g, gw1, i + 1, c + 1), GridFrom(g, gw2, i + 1, c + 1), x - c);
  }

  lemma {:induction false} SellIsolationAfterAcceptedBuy(g: GridIntent, gw1: Gateway, gw2: Gateway, x: nat, i: nat, c: nat)
    requires i < g.levels && x != c && gw1(c).Accepted?
    requires forall k: nat :: k != x ==> gw1(k) == gw2(k)
    requires !gw1(x).Unhandled? && !gw2(x).Unhandled?
    requires var t1 := GridFrom(g, gw1, i, c).trace;
      c <= x < c + |t1| ==> t1[x - c].Submit? && t1[x - c].request.side == "SELL"
    ensures var r1, r2 := GridFrom(g, gw1, i, c), GridFrom(g, gw2, i, c);
      r1.status == r2.status && AgreeExcept(r1.trace, r2.trace, x - c)
    decreases g.levels - i, 0
  {
    GridFromUnfold(g, gw1, i, c);
    GridFromUnfold(g, gw2, i, c);
    var buy := Submit(BuyOrder(g, i), gw1(c));
    var sell1, sell2 := Submit(SellOrder(g, i), gw1(c + 1)), Submit(SellOrder(g, i), gw2(c + 1));
    assert AgreeExcept([buy, sell1], [buy, sell2], x - c);
    if !gw1(c + 1).Unhandled? {
      var t1, s1 := GridFrom(g, gw1, i, c).trace, GridFrom(g, gw1, i + 1, c + 2).trace;
      assert c + 2 <= x < c + 2 + |s1| ==> s1[x - (c + 2)] == t1[x - c];
      GridFromSellIsolation(g, gw1, gw2, x, i + 1, c + 2);
      AgreeExceptThen([buy, sell1], [buy, sell2], GridFrom(g, gw1, i + 1, c + 2), GridFrom(g, gw2, i + 1, c + 2), x - c);
    }
  }

  /** A sell's outcome never affects later levels: two gateways that answer alike except on
      call x, which is a SELL and raises no uncaught exception under either, give runs that
      end alike and differ at most in that sell's own outcome. */
  lemma GridSellIsolation(g: GridIntent, gw1: Gateway, gw2: Gateway, x: nat)
    requires forall k: nat :: k != x ==> gw1(k) == gw2(k)
    requires !gw1(x).Unhandled? && !gw2(x).Unhandled?
    requires x < |GridRun(g, gw1).trace| && GridRun(g, gw1).trace[x].Submit?
    requires GridRun(g, gw1).trace[x].request.side == "SELL"
    ensures var r1, r2 := GridRun(g, gw1), GridRun(g, gw2);
      r1.status == r2.status && |r1.trace| == |r2.trace| &&
      forall k :: 0 <= k < |r1.trace| && k != x ==> r1.trace[k] == r2.trace[k]
  {
    GridFromSellIsolation(g, gw1, gw2, x, 0, 0);
  }

  /** The ladder of base 100, three levels, one unit each, all accepted: six LIMIT orders,
      buy 99 / sell 101, buy 98 / sell 102, buy 97 / sell 103, in that order. */
  lemma GridExample(gw: Gateway)
    requires forall k: nat :: k < 6 ==> gw(k).Accepted?
    ensures var t := GridRun(GridIntent("BTCUSDT", 100.0, 3, 1.0), gw).trace;
      |t| == 6 &&
      (forall k :: 0 <= k < 6 ==> t[k].request.side == (if k % 2 == 0 then "BUY" else "SELL")) &&
      t[0].request.price == Some(99.0) && t[1].request.price == Some(101.0) &&
      t[2].request.price == Some(98.0) && t[3].request.price == Some(102.0) &&
      t[4].request.price == Some(97.0) && t[5].request.price == Some(103.0)
  {
    var g := GridIntent("BTCUSDT", 100.0, 3, 1.0);
    assert gw(0).Accepted? && gw(1).Accepted? && gw(2).Accepted? && gw(3).Accepted? && gw(4).Accepted? && gw(5).Accepted?;
    var t := GridRun(g, gw).trace;
    assert t == [Submit(BuyOrder(g, 0), gw(0)), Submit(SellOrder(g, 0), gw(1)),
                 Submit(BuyOrder(g, 1), gw(2)), Submit(SellOrder(g, 1), gw(3)),
                 Submit(BuyOrder(g, 2), gw(4)), Submit(SellOrder(g, 2), gw(5))];
  }

  datatype GridArgs = GridArgs(
    symbol: string, basePrice: Option<real>, gridLevels: Option<int>, quantityPerLevel: Option<real>)

  /** main's checks, in order: symbol, base price, int(grid_levels), grid_levels > 0,
      quantity per level, credentials. No upper bound on the level count is checked. */
  function Decide(args: GridArgs, hasKey: bool, hasSecret: bool): (d: Decision<GridIntent>)
    ensures d.Proceed? <==>
      ValidateSymbol(args.symbol).Ok? && ValidatePrice(args.basePrice).Ok? &&
      ValidateGridLevels(args.gridLevels).Ok? && ValidateQuantity(args.quantityPerLevel).Ok? &&
      hasKey && hasSecret
    ensures d.Proceed? ==>
      d.intent == GridIntent(args.symbol, args.basePrice.value, args.gridLevels.value, args.quantityPerLevel.value) &&
      d.intent.levels > 0 && d.intent.basePrice > 0.0 && d.intent.quantityPerLevel > 0.0
    ensures d.Reject? <==>
      ValidateSymbol(args.symbol).Err? || ValidatePrice(args.basePrice).Err? ||
      ValidateGridLevels(args.gridLevels).Err? || ValidateQuantity(args.quantityPerLevel).Err?
    ensures d.Reject? ==>
      d.error == if ValidateSymbol(args.symbol).Err? then InvalidSymbol
                 else if ValidatePrice(args.basePrice).Err? then InvalidPrice
                 else if args.gridLevels.None? then UnparsableInteger
                 else if args.gridLevels.value <= 0 then NonPositiveGridLevels
                 else InvalidQuantity
  {
    match ValidateSymbol(args.symbol)
    case Err(e) => Reject(e)
    case Ok(_) =>
      match ValidatePrice(args.basePrice)
      case Err(e) => Reject(e)
      case Ok(base) =>
        match ValidateGridLevels(args.gridLevels)
        case Err(e) => Reject(e)
        case Ok(levels) =>
          match ValidateQuantity(args.quantityPerLevel)
          case Err(e) => Reject(e)
          case Ok(q) =>
            if !hasKey || !hasSecret then NoCredentials
            else Proceed(GridIntent(args.symbol, base, levels, q))
  }

  /** Main's checks put no upper bound on the level count: with more than 100 levels and a
      gateway that accepts everything, the buy of level 100 is submitted at price 0 and the
      buy of level 101 at a negative price. */
  lemma NonPositiveBuyAdmitted(symbol: string, base: real, levels: int, quantity: real, gw: Gateway)
    requires ValidateSymbol(symbol).Ok? && base > 0.0 && quantity > 0.0 && levels > 100
    requires forall k: nat :: k < 2 * levels ==> gw(k).Accepted?
    ensures var d := Decide(GridArgs(symbol, Some(base), Some(levels), Some(quantity)), true, true);
      d.Proceed? && |GridRun(d.intent, gw).trace| == 2 * levels &&
      GridRun(d.intent, gw).trace[198] == Submit(BuyOrder(d.intent, 99), gw(198)) &&
      BuyOrder(d.intent, 99).price == Some(0.0) &&
      GridRun(d.intent, gw).trace[200] == Submit(BuyOrder(d.intent, 100), gw(200)) &&
      BuyOrder(d.intent, 100).price.value < 0.0
  {
    var g := GridIntent(symbol, base, levels, quantity);
    GridAllAcceptedAt(g, gw, 99);
    GridAllAcceptedAt(g, gw, 100);
    BuyPriceSign(base, 99);
    BuyPriceSign(base, 100);
  }

  /** When every order is accepted, level j is the pair of calls 2j and 2j + 1. */
  lemma GridAllAcceptedAt(g: GridIntent, gw: Gateway, j: nat)
    requires j < g.levels
    requires forall k: nat :: k < 2 * g.levels ==> gw(k).Accepted?
    ensures var t := GridRun(g, gw).trace;
      |t| == 2 * g.levels &&
      t[2 * j] == Submit(BuyOrder(g, j), gw(2 * j)) &&
      t[2 * j + 1] == Submit(SellOrder(g, j), gw(2 * j + 1))
  {
    GridAllAccepted(g, gw);
    GridShape(g, gw);
    LevelStartAllAccepted(gw, j);
    assert LevelPlaced(g, gw, GridRun(g, gw).trace, 0, j, LevelStart(gw, 0, j));
  }

  lemma {:induction false} LevelStartAllAccepted(gw: Gateway, j: nat)
    requires forall k: nat :: k < 2 * j ==> gw(k).Accepted?
    ensures LevelStart(gw, 0, j) == 2 * j
  {
    if j > 0 {
      LevelStartAllAccepted(gw, j - 1);
      LevelStartStep(gw, 0, j - 1);
    }
  }

  /** main: no call at all unless every check passes; otherwise the grid run. */
  method RunScript(args: GridArgs, hasKey: bool, hasSecret: bool, gw: Gateway)
    returns (exit: Exit, trace: seq<Event>)
    ensures Decide(args, hasKey, hasSecret).Reject? ==>
      exit == Rejected(Decide(args, hasKey, hasSecret).error) && trace == []
    ensures Decide(args, hasKey, hasSecret).NoCredentials? ==> exit == MissingCredentials && trace == []
    ensures Decide(args, hasKey, hasSecret).Proceed? ==>
      exit == Ran(GridRun(Decide(args, hasKey, hasSecret).intent, gw).status) &&
      trace == GridRun(Decide(args, hasKey, hasSecret).intent, gw).trace
  {
    match Decide(args, hasKey, hasSecret)
    case Reject(e) =>
      exit, trace := Rejected(e), [];
    case NoCredentials =>
      exit, trace := MissingCredentials, [];
    case Proceed(g) =>
      var status;
      status, trace := PlaceGridOrders(g.symbol, g.basePrice, g.levels, g.quantityPerLevel, gw);
      exit := Ran(status);
  }
}
