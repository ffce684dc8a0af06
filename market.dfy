/** The market-order script: one MARKET order for the full quantity. */
module MarketOrders {
  import opened Orders
  import opened Validation

  /** place_market_order: exactly one call, a MARKET request for the whole quantity with
      the upper-cased side and no price keywords; an API error is caught, so the run
      always records exactly one outcome and ends normally unless another exception escapes. */
  method PlaceMarketOrder(symbol: string, side: string, quantity: real, gw: Gateway)
    returns (status: RunStatus, trace: seq<Event>)
    ensures |trace| == 1 && trace[0].Submit? && trace[0].outcome == gw(0)
    ensures trace[0].request.orderType == Market
    ensures trace[0].request.symbol == symbol
    ensures trace[0].request.side == ToUpper(side)
    ensures trace[0].request.quantity == quantity
    ensures trace[0].request.price.None? && trace[0].request.stopPrice.None?
    ensures trace[0].request.timeInForce.None?
    ensures status == Finished <==> !gw(0).Unhandled?
    ensures status.Aborted? ==> status.reason == GatewayException
  {
    var request := MarketRequest(symbol, ToUpper(side), quantity);
    var outcome := gw(0);
    trace := [Submit(request, outcome)];
    if outcome.Unhandled? {
      status := Aborted(GatewayException);
    } else {
      status := Finished;
    }
  }

  /** The command-line arguments once parsed; None stands for a quantity float() rejects. */
  datatype MarketArgs = MarketArgs(symbol: string, side: Side, quantity: Option<real>)

  datatype MarketIntent = MarketIntent(symbol: string, side: Side, quantity: real)

  /** main's checks, in order: symbol, quantity, then both credentials. */
  function Decide(args: MarketArgs, hasKey: bool, hasSecret: bool): (d: Decision<MarketIntent>)
    ensures d.Proceed? <==>
      ValidateSymbol(args.symbol).Ok? && ValidateQuantity(args.quantity).Ok? && hasKey && hasSecret
    ensures d.Proceed? ==>
      d.intent == MarketIntent(args.symbol, args.side, args.quantity.value) && d.intent.quantity > 0.0
    ensures d.Reject? <==> ValidateSymbol(args.symbol).Err? || ValidateQuantity(args.quantity).Err?
    ensures d.Reject? ==>
      d.error == if ValidateSymbol(args.symbol).Err? then InvalidSymbol else InvalidQuantity
  {
    match ValidateSymbol(args.symbol)
    case Err(e) => Reject(e)
    case Ok(_) =>
      match ValidateQuantity(args.quantity)
      case Err(e) => Reject(e)
      case Ok(q) =>
        if !hasKey || !hasSecret then NoCredentials
        else Proceed(MarketIntent(args.symbol, args.side, q))
  }

  /** main: no call at all unless every check passes; otherwise the single market order. */
  method RunScript(args: MarketArgs, hasKey: bool, hasSecret: bool, gw: Gateway)
    returns (exit: Exit, trace: seq<Event>)
    ensures Decide(args, hasKey, hasSecret).Reject? ==>
      exit == Rejected(Decide(args, hasKey, hasSecret).error) && trace == []
    ensures Decide(args, hasKey, hasSecret).NoCredentials? ==> exit == MissingCredentials && trace == []
    ensures Decide(args, hasKey, hasSecret).Proceed? ==>
      var it := Decide(args, hasKey, hasSecret).intent;
      trace == [Submit(MarketRequest(it.symbol, it.side.Name(), it.quantity), gw(0))] &&
      exit == Ran(if gw(0).Unhandled? then Aborted(GatewayException) else Finished)
  {
    match Decide(args, hasKey, hasSecret)
    case Reject(e) =>
      exit, trace := Rejected(e), [];
    case NoCredentials =>
      exit, trace := MissingCredentials, [];
    case Proceed(it) =>
      SideNameIsUpper(it.side);
      var status;
      status, trace := PlaceMarketOrder(it.symbol, it.side.Name(), it.quantity, gw);
      exit := Ran(status);
  }
}
