/**
 * Field-level validation of the perpetual-futures module's two inbound
 * messages: a request to open a position and a request to liquidate one.
 * Each check is a pure function of the message's fields that either passes
 * or names the field it rejects.
 *
 * Address validity rests on the chain's bech32 decoder, which is not part of
 * this model: every check takes it as the parameter `decodes` (true when the
 * string decodes as an account address). The empty string is rejected before
 * the decoder is consulted.
 */
module PerpMsgs {
  import opened Wrappers
  import opened Pair

  /** Go's `int32`, the wire type of the `Side` enumeration. */
  newtype Int32 = x: int | -0x8000_0000 <= x < 0x8000_0000

  /** The raw discriminants of the `Side` enumeration. */
  const SideUnspecified: Int32 := 0
  const SideBuy: Int32 := 1
  const SideSell: Int32 := 2

  /** The two trading sides a request may name. */
  datatype TradeSide = Buy | Sell

  /** `sdk.Dec`: a decimal held as an integer scaled by 10^18. */
  const DecOne: int := 1_000_000_000_000_000_000

  datatype Dec = Dec(scaled: int)
  {
    predicate IsPositive() { scaled > 0 }
  }

  const ZeroDec: Dec := Dec(0)

  /** The decimal with integer value `i` (`sdk.NewDec`). */
  function NewDec(i: int): (d: Dec)
    ensures d.scaled / DecOne == i && d.scaled % DecOne == 0
    ensures d.IsPositive() <==> i > 0
  {
    Dec(i * DecOne)
  }

  /** Request to open a position on a market. */
  datatype OpenPositionMsg = OpenPositionMsg(
    sender: string,
    tokenPair: string,
    side: Int32,
    quoteAssetAmount: int,
    leverage: Dec,
    baseAssetAmountLimit: int)

  /** Request to liquidate a trader's position on a market. */
  datatype LiquidateMsg = LiquidateMsg(
    sender: string,
    tokenPair: string,
    trader: string)

  /** The fields of the two requests that a check can reject. */
  datatype Field =
    | SideField | PairField | SenderField | TraderField
    | LeverageField | BaseLimitField | QuoteAmountField

  datatype ValidationError =
    | InvalidSide(raw: Int32)
    | InvalidTokenPair(reason: PairError)
    | InvalidAddress(field: Field)
    | NonPositiveLeverage
    | NonPositiveBaseAssetAmountLimit
    | NonPositiveQuoteAssetAmount

  /** The field an error is about. */
  function ErrorField(e: ValidationError): Field
  {
    match e
    case InvalidSide(_) => SideField
    case InvalidTokenPair(_) => PairField
    case InvalidAddress(f) => f
    case NonPositiveLeverage => LeverageField
    case NonPositiveBaseAssetAmountLimit => BaseLimitField
    case NonPositiveQuoteAssetAmount => QuoteAmountField
  }

  /**
   * Reads the side discriminant: BUY and SELL are trading sides; the
   * unspecified value and every out-of-range value are rejected.
   */
  function SideFromRaw(raw: Int32): (r: Result<TradeSide, ValidationError>)
    ensures r.Success? <==> raw == SideBuy || raw == SideSell
    ensures raw == SideBuy ==> r == Success(Buy)
    ensures raw == SideSell ==> r == Success(Sell)
    ensures r.Failure? ==> r.error == InvalidSide(raw)
  {
    if raw == SideBuy then Success(Buy)
    else if raw == SideSell then Success(Sell)
    else Failure(InvalidSide(raw))
  }

  /** The discriminant a trading side is sent as; reading it back gives the side. */
  function SideToRaw(s: TradeSide): (raw: Int32)
    ensures SideFromRaw(raw) == Success(s)
    ensures raw != SideUnspecified
  {
    match s
    case Buy => SideBuy
    case Sell => SideSell
  }

  /** Every accepted discriminant is the encoding of the side it was read as. */
  lemma SideFromRawInverse(raw: Int32)
    requires SideFromRaw(raw).Success?
    ensures SideToRaw(SideFromRaw(raw).value) == raw
  {
  }

  /** What an acceptable account address is: non-empty and decodable. */
  predicate AddressAccepted(addr: string, decodes: string -> bool)
  {
    |addr| > 0 && decodes(addr)
  }

  /** An account address check: the empty string is rejected before the decoder is asked. */
  function CheckAddress(addr: string, decodes: string -> bool, field: Field): (r: Outcome<ValidationError>)
    ensures r.Pass? <==> AddressAccepted(addr, decodes)
    ensures r.Fail? ==> r.error == InvalidAddress(field)
  {
    if addr == "" then Fail(InvalidAddress(field))
    else if decodes(addr) then Pass
    else Fail(InvalidAddress(field))
  }

  /** The constraint on one field of an open-position request; it has no trader field. */
  predicate OpenFieldOk(m: OpenPositionMsg, decodes: string -> bool, f: Field)
  {
    match f
    case SideField => m.side == SideBuy || m.side == SideSell
    case PairField => PairFormat(m.tokenPair)
    case SenderField => AddressAccepted(m.sender, decodes)
    case TraderField => true
    case LeverageField => m.leverage.IsPositive()
    case BaseLimitField => m.baseAssetAmountLimit > 0
    case QuoteAmountField => m.quoteAssetAmount > 0
  }

  /** The constraint on one field of a liquidate request; it has no side or amounts. */
  predicate LiquidateFieldOk(m: LiquidateMsg, decodes: string -> bool, f: Field)
  {
    match f
    case SenderField => AddressAccepted(m.sender, decodes)
    case TraderField => AddressAccepted(m.trader, decodes)
    case PairField => PairFormat(m.tokenPair)
    case _ => true
  }

  /** Every field constraint of an open-position request. */
  predicate OpenFieldsValid(m: OpenPositionMsg, decodes: string -> bool)
  {
    && OpenFieldOk(m, decodes, SideField)
    && OpenFieldOk(m, decodes, PairField)
    && OpenFieldOk(m, decodes, SenderField)
    && OpenFieldOk(m, decodes, LeverageField)
    && OpenFieldOk(m, decodes, BaseLimitField)
    && OpenFieldOk(m, decodes, QuoteAmountField)
  }

  /** Every field constraint of a liquidate request. */
  predicate LiquidateFieldsValid(m: LiquidateMsg, decodes: string -> bool)
  {
    && LiquidateFieldOk(m, decodes, SenderField)
    && LiquidateFieldOk(m, decodes, TraderField)
    && LiquidateFieldOk(m, decodes, PairField)
  }

  /**
   * The error names a field of `m` that really breaks its constraint; a side
   * error carries the side and a pair error carries the parser's reason.
   */
  predicate OpenErrorJustified(m: OpenPositionMsg, decodes: string -> bool, e: ValidationError)
  {
    && !OpenFieldOk(m, decodes, ErrorField(e))
    && (e.InvalidSide? ==> e.raw == m.side)
    && (e.InvalidTokenPair? ==> ParsePair(m.tokenPair) == Failure(e.reason))
  }

  /** The error names a field of `m` that really breaks its constraint; a pair error carries the parser's reason. */
  predicate LiquidateErrorJustified(m: LiquidateMsg, decodes: string -> bool, e: ValidationError)
  {
    && !LiquidateFieldOk(m, decodes, ErrorField(e))
    && (e.InvalidTokenPair? ==> ParsePair(m.tokenPair) == Failure(e.reason))
  }

  /**
   * `MsgOpenPosition.ValidateBasic`: the side must be BUY or SELL, the market
   * identifier must parse, the sender must be an account address, and the
   * leverage, base-asset amount limit and quote-asset amount must be positive.
   * The first failing check, in that order, is reported.
   */
  function ValidateOpen(m: OpenPositionMsg, decodes: string -> bool): (r: Outcome<ValidationError>)
    ensures r.Pass? <==> OpenFieldsValid(m, decodes)
    ensures r.Fail? ==> OpenErrorJustified(m, decodes, r.error)
  {
    ParsePairAccepts(m.tokenPair);
    var side := SideFromRaw(m.side);
    var pair := ParsePair(m.tokenPair);
    if side.Failure? then Fail(side.error)
    else if pair.Failure? then Fail(InvalidTokenPair(pair.error))
    else if CheckAddress(m.sender, decodes, SenderField).Fail? then Fail(InvalidAddress(SenderField))
    else if !m.leverage.IsPositive() then Fail(NonPositiveLeverage)
    else if m.baseAssetAmountLimit <= 0 then Fail(NonPositiveBaseAssetAmountLimit)
    else if m.quoteAssetAmount <= 0 then Fail(NonPositiveQuoteAssetAmount)
    else Pass
  }

  /**
   * `MsgLiquidate.ValidateBasic`: the sender (liquidator) and the trader must be
   * account addresses and the market identifier must parse, checked in that order.
   */
  function ValidateLiquidate(m: LiquidateMsg, decodes: string -> bool): (r: Outcome<ValidationError>)
    ensures r.Pass? <==> LiquidateFieldsValid(m, decodes)
    ensures r.Fail? ==> LiquidateErrorJustified(m, decodes, r.error)
  {
    ParsePairAccepts(m.tokenPair);
    var pair := ParsePair(m.tokenPair);
    if CheckAddress(m.sender, decodes, SenderField).Fail? then Fail(InvalidAddress(SenderField))
    else if CheckAddress(m.trader, decodes, TraderField).Fail? then Fail(InvalidAddress(TraderField))
    else if pair.Failure? then Fail(InvalidTokenPair(pair.error))
    else Pass
  }

  /**
   * An open request that breaks exactly one field constraint is rejected for
   * that field, whatever order the checks run in.
   */
  lemma OpenSingleDefect(m: OpenPositionMsg, decodes: string -> bool, f: Field)
    requires !OpenFieldOk(m, decodes, f)
    requires forall g :: g != f ==> OpenFieldOk(m, decodes, g)
    ensures ValidateOpen(m, decodes).Fail?
    ensures ErrorField(ValidateOpen(m, decodes).error) == f
  {
  }

  /**
   * A liquidate request that breaks exactly one field constraint is rejected
   * for that field, whatever order the checks run in.
   */
  lemma LiquidateSingleDefect(m: LiquidateMsg, decodes: string -> bool, f: Field)
    requires !LiquidateFieldOk(m, decodes, f)
    requires forall g :: g != f ==> LiquidateFieldOk(m, decodes, g)
    ensures ValidateLiquidate(m, decodes).Fail?
    ensures ErrorField(ValidateLiquidate(m, decodes).error) == f
  {
  }
}
