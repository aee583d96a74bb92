# Perpetual-futures request validation

This project models the field-level checks that the perpetual-futures module (`x/perp`) runs on its two inbound
messages before any market logic sees them:

- `MsgOpenPosition.ValidateBasic` checks a request to open a position. It has a sender, a token pair, a side, a
  quote-asset amount, a leverage and a base-asset amount limit.
- `MsgLiquidate.ValidateBasic` checks a request to liquidate a trader's position. It has a sender (the
  liquidator), a token pair and a trader.

Both are pure accept/reject functions over the message fields. Each returns `Pass` or `Fail(e)`, where `e` names the
field that failed. The implementation of these checks (`msgs.go`) is not part of this model; only its tests are.
The module's table-driven tests in `x/perp/types/msgs_test.go` fix twelve verdicts, eight for opening a position
and four for liquidating. They are sample points of the request field contract, which the model states in full: a
trading side, a `BASE:QUOTE` market identifier, non-empty decodable addresses, and positive amounts and leverage. Rules that go beyond those sample points are listed under "## Left out".

Layout:

- `wrappers.dfy` (`Wrappers`): `Result` and `Outcome`.
- `pair.dfy` (`Pair`): market identifiers `BASE:QUOTE`. They are split on `:` the way Go's `strings.Split` splits a
  string. A pair is accepted exactly when the split gives two non-empty segments. The module proves that splitting
  and joining are inverse to each other, and that parsing is inverse to printing a pair. It also proves that the
  parser accepts exactly the strings with one `:` that is neither the first nor the last character.
- `msgs.dfy` (`PerpMsgs`): the message records and the side enumeration. `Side` is carried as its raw `int32`
  discriminant. The tests name `Side_SIDE_UNSPECIFIED`, `Side_BUY` and `Side_SELL` and use the raw value 3 as an
  invalid side; the model takes the usual protobuf numbering 0, 1 and 2 for the three names. `sdk.Dec` is an
  integer scaled by 10^18. The file also holds the two validation functions. Each is proved to accept exactly the
  messages that satisfy a field-by-field reference predicate. Each is also proved to report only a field that
  really breaks its constraint.
- `msgs_cases.dfy` (`PerpMsgCases`): one lemma per case of the two test tables.

Address validity depends on the chain's bech32 decoder, which is not part of this model. Every check takes the
decoder as a parameter `decodes: string -> bool`. An empty address is rejected before the decoder is consulted. So
the "empty sender" and "empty trader" cases hold whatever the decoder does. The accepting cases assume only that
the decoder accepts the sample addresses.

The order of the checks is not fixed by the tests. The model checks the open request in this order: side, pair,
sender, leverage, base-asset amount limit, quote-asset amount. It checks the liquidate request in this order:
sender, trader, pair. The accept/reject verdict does not depend on this order, because it is proved equal to the
order-free reference predicate. When exactly one field is bad, the reported error is that field's error in any
order; `OpenSingleDefect` and `LiquidateSingleDefect` prove this for every field. The two test cases with two bad
fields (a hyphenated pair and a zero base limit, each with a zero quote amount) are stated as rejections only.

## Model

| member | source | states |
|---|---|---|
| `Pair.ParsePair` | x/perp/types/msgs_test.go:139-146 | a successful parse returns two non-empty, colon-free denominations that print back as exactly the input; a segment-count failure happens exactly when the input does not have one `:`, and it reports the separator count plus one |
| `Pair.ParsePairAccepts` | x/perp/types/msgs_test.go:85-95 | the parser accepts a market identifier if and only if it has exactly one `:` and that `:` is neither the first nor the last character, i.e. `BASE:QUOTE` with both sides non-empty |
| `Pair.ParsePairString` | x/perp/types/msgs_test.go:131-138 | every valid pair is read back unchanged from the `BASE:QUOTE` string it prints as |
| `Pair.SplitJoin` | x/perp/types/msgs_test.go:139-146 | joining the segments of the split with `:` gives back the original identifier |
| `Pair.JoinSplit` | x/perp/types/msgs_test.go:139-146 | splitting a join of colon-free segments gives back those segments |
| `Pair.SplitCount` | x/perp/types/msgs_test.go:139-146 | an identifier splits into one more segment than it has separators, so `xxx:yyy:zzz` gives three |
| `Pair.SplitSegmentsFree` | x/perp/types/msgs_test.go:139-146 | no segment of the split contains the separator |
| `Pair.SplitLastEmpty` | x/perp/types/msgs_test.go:85-95 | the last segment is empty exactly when the identifier is empty or ends with the separator |
| `PerpMsgs.NewDec` | x/perp/types/msgs_test.go:24 | `sdk.NewDec(i)` is an exact multiple of 10^18 whose integer part is `i`, and it is positive exactly when `i` is |
| `PerpMsgs.SideFromRaw` | x/perp/types/msgs_test.go:30-51 | a side discriminant is accepted exactly when it is BUY or SELL, and BUY is read as `Buy` and SELL as `Sell`; any other value, including the unspecified one and 3, is rejected with that value |
| `PerpMsgs.SideToRaw` | x/perp/types/msgs_test.go:22 | each trading side is sent as a discriminant that is read back as the same side and is never the unspecified one |
| `PerpMsgs.SideFromRawInverse` | x/perp/types/msgs_test.go:30-51 | every accepted discriminant is the encoding of the side it is read as |
| `PerpMsgs.CheckAddress` | x/perp/types/msgs_test.go:52-62 | an address passes if and only if it is non-empty and the decoder accepts it; a rejection names the field that was checked |
| `PerpMsgs.ValidateOpen` | x/perp/types/msgs_test.go:17-106 | an open-position request passes if and only if its side is BUY or SELL, its pair is well formed, its sender is a non-empty decodable address, and its leverage, base-asset amount limit and quote-asset amount are positive; every rejection names a field that breaks its constraint, and a pair rejection carries the parser's reason |
| `PerpMsgs.ValidateLiquidate` | x/perp/types/msgs_test.go:130-162 | a liquidate request passes if and only if its sender and trader are non-empty decodable addresses and its pair is well formed; every rejection names a field that breaks its constraint, and a pair rejection carries the parser's reason |
| `PerpMsgs.OpenSingleDefect` | x/perp/types/msgs_test.go:30-84 | an open-position request that breaks exactly one field constraint is rejected with an error about that field, whatever the check order |
| `PerpMsgs.LiquidateSingleDefect` | x/perp/types/msgs_test.go:139-162 | a liquidate request that breaks exactly one field constraint is rejected with an error about that field, whatever the check order |
| `PerpMsgCases.NibiUsdnParses` | x/perp/types/msgs_test.go:21 | `NIBI:USDN` parses to base `NIBI` and quote `USDN` |
| `PerpMsgCases.OpenPositionOk` | x/perp/types/msgs_test.go:18-28 | case "ok": BUY on `NIBI:USDN`, quote 100, leverage 10, base limit 100, and a sender the decoder accepts, is accepted |
| `PerpMsgCases.OpenPositionSideOutOfRange` | x/perp/types/msgs_test.go:30-40 | case "invalid side": discriminant 3 is rejected as an invalid side |
| `PerpMsgCases.OpenPositionSideUnspecified` | x/perp/types/msgs_test.go:41-51 | case "invalid side 2": the unspecified side is rejected as an invalid side |
| `PerpMsgCases.OpenPositionEmptySender` | x/perp/types/msgs_test.go:52-62 | case "invalid address": an empty sender is rejected as an invalid sender address, whatever the decoder does |
| `PerpMsgCases.OpenPositionZeroLeverage` | x/perp/types/msgs_test.go:63-73 | case "invalid leverage": zero leverage is rejected as non-positive leverage |
| `PerpMsgCases.OpenPositionZeroQuote` | x/perp/types/msgs_test.go:74-84 | case "invalid quote asset amount": a zero quote amount is rejected as non-positive |
| `PerpMsgCases.OpenPositionHyphenatedPair` | x/perp/types/msgs_test.go:85-95 | case "invalid token pair": the request with `NIBI-USDN` (and a zero quote amount) is rejected |
| `PerpMsgCases.HyphenatedPairRejected` | x/perp/types/msgs_test.go:88 | `NIBI-USDN` on its own fails to parse, as a single segment |
| `PerpMsgCases.OpenPositionZeroBaseLimit` | x/perp/types/msgs_test.go:96-106 | case "invalid base asset amount limit": the request with a zero limit (and a zero quote amount) is rejected |
| `PerpMsgCases.LiquidateOk` | x/perp/types/msgs_test.go:131-138 | liquidation case "ok": decodable sender and trader on `NIBI:USDN` are accepted |
| `PerpMsgCases.LiquidateThreeSegmentPair` | x/perp/types/msgs_test.go:139-146 | case "invalid pair": `xxx:yyy:zzz` is rejected as a token pair with three segments |
| `PerpMsgCases.LiquidateEmptyTrader` | x/perp/types/msgs_test.go:147-154 | case "invalid trader": an empty trader is rejected as an invalid trader address |
| `PerpMsgCases.LiquidateEmptySender` | x/perp/types/msgs_test.go:155-162 | case "invalid liquidator": an empty sender is rejected as an invalid sender address |

## Left out

- Bech32 decoding and checksum verification of addresses (`sdk.AccAddressFromBech32`): it is a library call outside
  this model. It is a parameter of every check. Only "the empty string is rejected" is modelled.
- Random generation of the sample addresses (`sample.AccAddress()`): the cases quantify over any sender or trader
  that the decoder accepts.
- The test harness: `t.Run`, `t.Fatalf`, and the iteration order over the case maps.
- Internals of `sdk.Int` and `sdk.Dec`: amounts are unbounded integers and a decimal is an integer scaled by 10^18.
  No width limit, overflow or rounding is modelled, and none is exercised by the checks.
- The order in which `ValidateBasic` runs its checks is not fixed by the tests. Only the verdict and the
  single-defect errors are claimed to match.
- Surrounding whitespace in a market identifier: no test has it. The model accepts a market identifier by its `:`
  alone, so `" NIBI:USDN"` passes; no whitespace rule is modelled.
- Rules the model states but no test case isolates: a zero base-asset amount limit rejected on its own (the one
  zero-limit case also has a zero quote amount), SELL accepted (it appears only beside an empty sender), negative
  amounts and leverage rejected, and identifiers with an empty side (`NIBI:`, `:USDN`) or two separators (`A::B`)
  rejected. They follow the request field contract, not a test verdict.
- The rest of the message interface (`Route`, `Type`, `GetSigners`, `GetSignBytes`) is not part of this model.
- The pricing curve, the position store, margin and PnL computation, funding and the liquidation engine are not
  part of this model.
