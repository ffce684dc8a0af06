/** Shared vocabulary of the four order scripts: the request each script hands to
    the exchange client's futures_create_order, the scripted gateway that answers
    it, and the trace of events a run leaves behind. */
module Orders {

  datatype Option<T> = None | Some(value: T)

  /** The side accepted on the command line (the argument parser allows only these two). */
  datatype Side = Buy | Sell {
    function Name(): string {
      if Buy? then "BUY" else "SELL"
    }
  }

  datatype OrderType = Market | Limit | Stop

  datatype TimeInForce = GoodTillCancelled

  /** The keyword arguments of one futures_create_order call; an absent keyword is None. */
  datatype OrderRequest = OrderRequest(
    symbol: string,
    side: string,
    orderType: OrderType,
    quantity: real,
    price: Option<real>,
    stopPrice: Option<real>,
    timeInForce: Option<TimeInForce>)

  /** What one call of the exchange client does. */
  datatype Outcome =
    | Accepted(orderId: int)  // returns an order acknowledgement
    | ApiError(code: int)     // raises BinanceAPIException, which every script catches
    | Unhandled               // raises any other exception, which no script catches

  /** A gateway scripted in advance: the outcome of the k-th call of a run, counting from 0. */
  type Gateway = nat -> Outcome

  /** One interaction with the outside world: an order submission with its outcome, or a pause. */
  datatype Event = Submit(request: OrderRequest, outcome: Outcome) | Sleep(seconds: int)

  /** Why a run ended early: an exception escaped the script. */
  datatype AbortReason =
    | GatewayException  // a client exception other than BinanceAPIException
    | ZeroDivision      // total_quantity / num_orders with num_orders == 0
    | FloatOverflow     // total_quantity / num_orders with num_orders too large for a float
    | NegativeSleep     // time.sleep rejects a negative length
    | SleepOverflow     // time.sleep cannot convert the length to its nanosecond clock type

  datatype RunStatus = Finished | Aborted(reason: AbortReason)

  /** The result of running one strategy: how it ended and every call it made, in order. */
  datatype Run = Run(status: RunStatus, trace: seq<Event>)

  /** The run `r` with `prefix` made before it. */
  function Then(prefix: seq<Event>, r: Run): Run {
    Run(r.status, prefix + r.trace)
  }

  lemma ThenThen(a: seq<Event>, b: seq<Event>, r: Run)
    ensures Then(a, Then(b, r)) == Then(a + b, r)
  {
    assert a + (b + r.trace) == (a + b) + r.trace;
  }

  /** The event is a call that raised an exception no script catches. */
  predicate Raised(e: Event) {
    e.Submit? && e.outcome.Unhandled?
  }

  // ASCII case, the part of Python's str.upper / str.isupper this model covers.

  predicate IsLowerChar(c: char) { 'a' <= c <= 'z' }

  predicate IsUpperChar(c: char) { 'A' <= c <= 'Z' }

  function UpperChar(c: char): char {
    if IsLowerChar(c) then (c as int - 32) as char else c
  }

  /** str.upper() on ASCII text. */
  function ToUpper(s: string): (u: string)
    ensures |u| == |s|
    ensures forall i :: 0 <= i < |u| ==> !IsLowerChar(u[i])
    ensures forall i :: 0 <= i < |u| ==> IsLowerChar(s[i]) || u[i] == s[i]
    ensures forall i :: 0 <= i < |s| && IsLowerChar(s[i]) ==> IsUpperChar(u[i]) && u[i] as int == s[i] as int - 32
  {
    seq(|s|, i requires 0 <= i < |s| => UpperChar(s[i]))
  }

  /** Upper-casing the side the command line allows leaves it unchanged. */
  lemma SideNameIsUpper(side: Side)
    ensures ToUpper(side.Name()) == side.Name()
  {
    var n := side.Name();
    assert forall i :: 0 <= i < |n| ==> !IsLowerChar(n[i]);
  }

  /** A MARKET order: no price, no stop price, no time in force. */
  function MarketRequest(symbol: string, side: string, quantity: real): OrderRequest {
    OrderRequest(symbol, side, Market, quantity, None, None, None)
  }

  // Measures of a trace.

  function Submissions(t: seq<Event>): nat {
    if t == [] then 0 else (if t[0].Submit? then 1 else 0) + Submissions(t[1..])
  }

  function Sleeps(t: seq<Event>): nat {
    if t == [] then 0 else (if t[0].Sleep? then 1 else 0) + Sleeps(t[1..])
  }

  /** The total quantity of all submitted requests, whatever their outcome. */
  function SubmittedQuantity(t: seq<Event>): real {
    if t == [] then 0.0 else (if t[0].Submit? then t[0].request.quantity else 0.0) + SubmittedQuantity(t[1..])
  }

  lemma {:induction false} MeasuresAppend(a: seq<Event>, b: seq<Event>)
    ensures Submissions(a + b) == Submissions(a) + Submissions(b)
    ensures Sleeps(a + b) == Sleeps(a) + Sleeps(b)
    ensures SubmittedQuantity(a + b) == SubmittedQuantity(a) + SubmittedQuantity(b)
  {
    if a == [] {
      assert a + b == b;
    } else {
      assert (a + b)[1..] == a[1..] + b;
      MeasuresAppend(a[1..], b);
    }
  }
}
