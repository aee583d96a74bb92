/**
 * The request-validation cases the module's tables pin down, one lemma each.
 * A well-formed sender or trader is any string the bech32 decoder accepts;
 * the empty string is rejected whatever the decoder does.
 */
module PerpMsgCases {
  import opened Wrappers
  import opened Pair
  import opened PerpMsgs

  /** The market every case uses unless it is the field under test. */
  const NibiUsdn: string := "NIBI:USDN"

  /** The market identifier used throughout is well-formed. */
  lemma NibiUsdnParses()
    ensures ParsePair(NibiUsdn) == Success(AssetPair("NIBI", "USDN"))
  {
    ParsePairString(AssetPair("NIBI", "USDN"));
    assert PairString(AssetPair("NIBI", "USDN")) == NibiUsdn;
  }

  /** Case "ok": BUY on NIBI:USDN, quote amount 100, leverage 10, base limit 100. */
  lemma OpenPositionOk(sender: string, decodes: string -> bool)
    requires decodes(sender) && sender != ""
    ensures ValidateOpen(OpenPositionMsg(sender, NibiUsdn, SideBuy, 100, NewDec(10), 100), decodes) == Pass
  {
    NibiUsdnParses();
  }

  /** Case "invalid side": raw discriminant 3 is not a side. */
  lemma OpenPositionSideOutOfRange(sender: string, decodes: string -> bool)
    requires decodes(sender) && sender != ""
    ensures ValidateOpen(OpenPositionMsg(sender, NibiUsdn, 3, 100, NewDec(10), 100), decodes)
            == Fail(InvalidSide(3))
  {
  }

  /** Case "invalid side 2": the unspecified side is rejected. */
  lemma OpenPositionSideUnspecified(sender: string, decodes: string -> bool)
    requires decodes(sender) && sender != ""
    ensures ValidateOpen(OpenPositionMsg(sender, NibiUsdn, SideUnspecified, 100, NewDec(10), 100), decodes)
            == Fail(InvalidSide(SideUnspecified))
  {
  }

  /** Case "invalid address": an empty sender is rejected, whatever the decoder says. */
  lemma OpenPositionEmptySender(decodes: string -> bool)
    ensures ValidateOpen(OpenPositionMsg("", NibiUsdn, SideSell, 100, NewDec(10), 100), decodes)
            == Fail(InvalidAddress(SenderField))
  {
    NibiUsdnParses();
  }

  /** Case "invalid leverage": zero leverage is rejected. */
  lemma OpenPositionZeroLeverage(sender: string, decodes: string -> bool)
    requires decodes(sender) && sender != ""
    ensures ValidateOpen(OpenPositionMsg(sender, NibiUsdn, SideBuy, 100, ZeroDec, 100), decodes)
            == Fail(NonPositiveLeverage)
  {
    NibiUsdnParses();
  }

  /** Case "invalid quote asset amount": a zero quote amount is rejected. */
  lemma OpenPositionZeroQuote(sender: string, decodes: string -> bool)
    requires decodes(sender) && sender != ""
    ensures ValidateOpen(OpenPositionMsg(sender, NibiUsdn, SideBuy, 0, NewDec(10), 100), decodes)
            == Fail(NonPositiveQuoteAssetAmount)
  {
    NibiUsdnParses();
  }

  /**
   * Case "invalid token pair": `NIBI-USDN` has no separator. The case also has
   * a zero quote amount, so only the rejection is stated, not its reason.
   */
  lemma OpenPositionHyphenatedPair(sender: string, decodes: string -> bool)
    requires decodes(sender) && sender != ""
    ensures ValidateOpen(OpenPositionMsg(sender, "NIBI-USDN", SideBuy, 0, NewDec(10), 100), decodes).Fail?
  {
  }

  /**
   * Case "invalid base asset amount limit": a zero limit. The case also has a
   * zero quote amount, so only the rejection is stated, not its reason.
   */
  lemma OpenPositionZeroBaseLimit(sender: string, decodes: string -> bool)
    requires decodes(sender) && sender != ""
    ensures ValidateOpen(OpenPositionMsg(sender, NibiUsdn, SideBuy, 0, NewDec(10), 0), decodes).Fail?
  {
  }

  /** The hyphenated identifier fails for want of a separator, independently of other fields. */
  lemma HyphenatedPairRejected()
    ensures ParsePair("NIBI-USDN") == Failure(WrongSegmentCount(1))
  {
    var s := "NIBI-USDN";
    assert Count(s, Separator) == 0;
    SplitCount(s, Separator);
  }

  /** Case "ok" of liquidation: valid liquidator and trader on NIBI:USDN. */
  lemma LiquidateOk(sender: string, trader: string, decodes: string -> bool)
    requires decodes(sender) && sender != ""
    requires decodes(trader) && trader != ""
    ensures ValidateLiquidate(LiquidateMsg(sender, NibiUsdn, trader), decodes) == Pass
  {
    NibiUsdnParses();
  }

  /** Case "invalid pair": three segments are rejected. */
  lemma LiquidateThreeSegmentPair(sender: string, trader: string, decodes: string -> bool)
    requires decodes(sender) && sender != ""
    requires decodes(trader) && trader != ""
    ensures ValidateLiquidate(LiquidateMsg(sender, "xxx:yyy:zzz", trader), decodes)
            == Fail(InvalidTokenPair(WrongSegmentCount(3)))
  {
    var s := "xxx:yyy:zzz";
    assert Count(s, Separator) == 2;
    SplitCount(s, Separator);
  }

  /** Case "invalid trader": an empty trader is rejected. */
  lemma LiquidateEmptyTrader(sender: string, decodes: string -> bool)
    requires decodes(sender) && sender != ""
    ensures ValidateLiquidate(LiquidateMsg(sender, NibiUsdn, ""), decodes) == Fail(InvalidAddress(TraderField))
  {
  }

  /** Case "invalid liquidator": an empty sender is rejected. */
  lemma LiquidateEmptySender(trader: string, decodes: string -> bool)
    requires decodes(trader) && trader != ""
    ensures ValidateLiquidate(LiquidateMsg("", NibiUsdn, trader), decodes) == Fail(InvalidAddress(SenderField))
  {
  }
}
