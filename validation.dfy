/** The input validators the scripts run before they contact the exchange, and the
    decision each script's entry point takes over validated inputs and credentials.
    validate_symbol and validate_quantity appear, word for word, in all four scripts,
    validate_price in the stop-limit and grid scripts, validate_positive_int in the TWAP
    script only; the grid's level-count check is inline code in its entry point. */
module Validation {
  import opened Orders

  /** The ValueError a validator lets escape; each one ends the script before any call. */
  datatype ValidationError =
    | InvalidSymbol          // validate_symbol
    | InvalidQuantity        // validate_quantity
    | InvalidPrice           // validate_price
    | InvalidInteger         // validate_positive_int (twap)
    | UnparsableInteger      // int(grid_levels) itself (grid)
    | NonPositiveGridLevels  // the grid_levels <= 0 check (grid)

  datatype Result<T> = Ok(value: T) | Err(error: ValidationError)

  /** What the body of a validator's `try` block does: return a value or raise ValueError.
      The message is documentation only: it records the text the body raises, and nothing
      reads it, just as the `except` clause discards it. */
  datatype Attempt<T> = Returned(value: T) | RaisedValueError(message: string)

  /** The validator's `except ValueError` clause: every ValueError becomes the same error. */
  function CatchValueError<T>(a: Attempt<T>, error: ValidationError): Result<T> {
    match a
    case Returned(v) => Ok(v)
    case RaisedValueError(_) => Err(error)
  }

  /** `x = float(s)` (None when float() raises), then `if x <= 0: raise ValueError(message)`. */
  function PositiveReal(parsed: Option<real>, message: string): Attempt<real> {
    match parsed
    case None => RaisedValueError("could not convert string to float")
    case Some(x) => if x <= 0.0 then RaisedValueError(message) else Returned(x)
  }

  /** `v = int(s)` (None when int() raises), then `if v <= 0: raise ValueError(message)`. */
  function PositiveInt(parsed: Option<int>, message: string): Attempt<int> {
    match parsed
    case None => RaisedValueError("invalid literal for int() with base 10")
    case Some(v) => if v <= 0 then RaisedValueError(message) else Returned(v)
  }

  predicate EndsWith(s: string, suffix: string) {
    |suffix| <= |s| && s[|s| - |suffix|..] == suffix
  }

  /** str.isupper() on ASCII: some cased character, and no lower-case one. */
  predicate IsUpper(s: string) {
    (exists i :: 0 <= i < |s| && IsUpperChar(s[i])) &&
    forall i :: 0 <= i < |s| ==> !IsLowerChar(s[i])
  }

  /** validate_symbol: returns normally exactly when the symbol passes both tests. */
  function ValidateSymbol(symbol: string): (r: Result<string>)
    ensures r.Ok? ==> r.value == symbol
    ensures r.Err? ==> r.error == InvalidSymbol
  {
    if !IsUpper(symbol) || !EndsWith(symbol, "USDT") then Err(InvalidSymbol) else Ok(symbol)
  }

  /** The "USDT" suffix supplies the cased character isupper() needs, so the symbols
      accepted are exactly those without a lower-case letter that end in "USDT". */
  lemma SymbolAcceptedIff(symbol: string)
    ensures ValidateSymbol(symbol).Ok? <==>
      (forall i :: 0 <= i < |symbol| ==> !IsLowerChar(symbol[i])) && EndsWith(symbol, "USDT")
  {
    if EndsWith(symbol, "USDT") {
      var k := |symbol| - 4;
      assert symbol[k] == symbol[k..][0] == 'U';
      assert IsUpperChar(symbol[k]);
    }
  }

  lemma SymbolsAccepted()
    ensures ValidateSymbol("BTCUSDT").Ok?
    ensures ValidateSymbol("1000PEPEUSDT").Ok?
  {
    assert IsUpperChar("BTCUSDT"[0]);
    assert "BTCUSDT"[3..] == "USDT";
    assert IsUpperChar("1000PEPEUSDT"[4]);
    assert "1000PEPEUSDT"[8..] == "USDT";
  }

  lemma SymbolsRejected()
    ensures ValidateSymbol("btcusdt").Err?
    ensures ValidateSymbol("BTCUSD").Err?
    ensures ValidateSymbol("BTCusdt").Err?
  {
    assert IsLowerChar("btcusdt"[0]);
    assert "BTCUSD"[2..] != "USDT" by { assert "BTCUSD"[2..][3] != "USDT"[3]; }
    assert IsLowerChar("BTCusdt"[3]);
  }

  /** validate_quantity: the value itself when positive; a non-positive value fails
      with the same error as an unparsable one, since the inner ValueError is re-caught. */
  function ValidateQuantity(quantity: Option<real>): (r: Result<real>)
    ensures r.Ok? <==> quantity.Some? && quantity.value > 0.0
    ensures r.Ok? ==> r.value == quantity.value
    ensures r.Err? ==> r.error == InvalidQuantity
  {
    CatchValueError(PositiveReal(quantity, "Quantity must be positive."), InvalidQuantity)
  }

  /** validate_price: as validate_quantity, with its own error. */
  function ValidatePrice(price: Option<real>): (r: Result<real>)
    ensures r.Ok? <==> price.Some? && price.value > 0.0
    ensures r.Ok? ==> r.value == price.value
    ensures r.Err? ==> r.error == InvalidPrice
  {
    CatchValueError(PositiveReal(price, "Price must be positive."), InvalidPrice)
  }

  /** validate_positive_int: n when n > 0; zero and negatives fail as a non-integer does. */
  function ValidatePositiveInt(value: Option<int>): (r: Result<int>)
    ensures r.Ok? <==> value.Some? && value.value > 0
    ensures r.Ok? ==> r.value == value.value
    ensures r.Err? ==> r.error == InvalidInteger
  {
    CatchValueError(PositiveInt(value, "Must be positive integer."), InvalidInteger)
  }

  /** The grid script's inline `int(grid_levels)` and `grid_levels <= 0` check: unlike
      validate_positive_int, the two failures raise different errors. */
  function ValidateGridLevels(levels: Option<int>): (r: Result<int>)
    ensures r.Ok? <==> levels.Some? && levels.value > 0
    ensures r.Ok? ==> r.value == levels.value
    ensures levels.None? ==> r == Err(UnparsableInteger)
    ensures levels.Some? && levels.value <= 0 ==> r == Err(NonPositiveGridLevels)
  {
    match levels
    case None => Err(UnparsableInteger)
    case Some(n) => if n <= 0 then Err(NonPositiveGridLevels) else Ok(n)
  }

  /** What a script's entry point decides before any call: stop on the first failed
      validator, stop when a credential is missing, or run the strategy. */
  datatype Decision<I> = Reject(error: ValidationError) | NoCredentials | Proceed(intent: I)

  /** How a script invocation ends. */
  datatype Exit = Rejected(error: ValidationError) | MissingCredentials | Ran(status: RunStatus)
}
