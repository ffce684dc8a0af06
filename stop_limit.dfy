/** The stop-limit script: one STOP order carrying both a stop price and a limit price. */
module StopLimit {
  import opened Orders
  import opened Validation

  /** The request of place_stop_limit_order: type STOP, price = the limit price,
      stopPrice = the stop price, good till cancelled. */
  function StopLimitRequest(symbol: string, side: string, quantity: real, stopPrice: real, limitPrice: real)
    : OrderRequest
  {
    OrderRequest(symbol, side, Stop, quantity, Some(limitPrice), Some(stopPrice), Some(GoodTillCancelled))
  }

  /** place_stop_limit_order: exactly one call with the fields above; an API error is
      caught, so exactly one outcome is recorded. */
  method PlaceStopLimitOrder(symbol: string, side: string, quantity: real, stopPrice: real,
                             limitPrice: real, gw: Gateway)
    returns (status: RunStatus, trace: seq<Event>)
    ensures |trace| == 1 && trace[0].Submit? && trace[0].outcome == gw(0)
    ensures trace[0].request.orderType == Stop
    ensures trace[0].request.symbol == symbol
    ensures trace[0].request.side == ToUpper(side)
    ensures trace[0].request.quantity == quantity
    ensures trace[0].request.stopPrice == Some(stopPrice)
    ensures trace[0].request.price == Some(limitPrice)
    ensures trace[0].request.timeInForce == Some(GoodTillCancelled)
    ensures status == Finished <==> !gw(0).Unhandled?
    ensures status.Aborted? ==> status.reason == GatewayException
  {
    var request := StopLimitRequest(symbol, ToUpper(side), quantity, stopPrice, limitPrice);
    var outcome := gw(0);
    trace := [Submit(request, outcome)];
    if outcome.Unhandled? {
      status := Aborted(GatewayException);
    } else {
      status := Finished;
    }
  }

  datatype StopLimitArgs = StopLimitArgs(
    symbol: string, side: Side, quantity: Option<real>, stopPrice: Option<real>, limitPrice: Option<real>)

  datatype StopLimitIntent = StopLimitIntent(
    symbol: string, side: Side, quantity: real, stopPrice: real, limitPrice: real)

  /** main's checks, in order: symbol, quantity, stop price, limit price, credentials.
      Nothing relates the stop price to the limit price. */
  function Decide(args: StopLimitArgs, hasKey: bool, hasSecret: bool): (d: Decision<StopLimitIntent>)
    ensures d.Proceed? <==>
      ValidateSymbol(args.symbol).Ok? && ValidateQuantity(args.quantity).Ok? &&
      ValidatePrice(args.stopPrice).Ok? && ValidatePrice(args.limitPrice).Ok? && hasKey && hasSecret
    ensures d.Proceed? ==>
      d.intent == StopLimitIntent(args.symbol, args.side, args.quantity.value,
                                  args.stopPrice.value, args.limitPrice.value)
    ensures d.Reject? ==>
      d.error == if ValidateSymbol(args.symbol).Err? then InvalidSymbol
                 else if ValidateQuantity(args.quantity).Err? then InvalidQuantity
                 else InvalidPrice
    ensures d.NoCredentials? <==>
      ValidateSymbol(args.symbol).Ok? && ValidateQuantity(args.quantity).Ok? &&
      ValidatePrice(args.stopPrice).Ok? && ValidatePrice(args.limitPrice).Ok? && !(hasKey && hasSecret)
  {
    match ValidateSymbol(args.symbol)
    case Err(e) => Reject(e)
    case Ok(_) =>
      match ValidateQuantity(args.quantity)
      case Err(e) => Reject(e)
      case Ok(q) =>
        match ValidatePrice(args.stopPrice)
        case Err(e) => Reject(e)
        case Ok(sp) =>
          match ValidatePrice(args.limitPrice)
          case Err(e) => Reject(e)
          case Ok(lp) =>
            if !hasKey || !hasSecret then NoCredentials
            else Proceed(StopLimitIntent(args.symbol, args.side, q, sp, lp))
  }

  /** Any two positive prices are accepted, whichever is larger and whatever the side. */
  lemma AnyPositivePricesAccepted(symbol: string, side: Side, quantity: real, stopPrice: real, limitPrice: real)
    requires ValidateSymbol(symbol).Ok? && quantity > 0.0 && stopPrice > 0.0 && limitPrice > 0.0
    ensures Decide(StopLimitArgs(symbol, side, Some(quantity), Some(stopPrice), Some(limitPrice)), true, true)
         == Proceed(StopLimitIntent(symbol, side, quantity, stopPrice, limitPrice))
  {
  }

  /** main: no call at all unless every check passes; otherwise the single stop-limit order. */
  method RunScript(args: StopLimitArgs, hasKey: bool, hasSecret: bool, gw: Gateway)
    returns (exit: Exit, trace: seq<Event>)
    ensures Decide(args, hasKey, hasSecret).Reject? ==>
      exit == Rejected(Decide(args, hasKey, hasSecret).error) && trace == []
    ensures Decide(args, hasKey, hasSecret).NoCredentials? ==> exit == MissingCredentials && trace == []
    ensures Decide(args, hasKey, hasSecret).Proceed? ==>
      var it := Decide(args, hasKey, hasSecret).intent;
      trace == [Submit(StopLimitRequest(it.symbol, it.side.Name(), it.quantity, it.stopPrice, it.limitPrice), gw(0))] &&
      exit == Ran(if gw(0).Unhandled? then Aborted(GatewayException) else Finished)
  {
    match Decide(args, hasKey, hasSecret)
    case Reject(e) =>
      exit, trace := Rejected(e), [];
    case NoCredentials =>
      exit, trace := MissingCredentials, [];
    case Proceed(it) =>
      SideNameIsUpper(it.side);
      var status;
      status, trace := PlaceStopLimitOrder(it.symbol, it.side.Name(), it.quantity, it.stopPrice, it.limitPrice, gw);
      exit := Ran(status);
  }
}
