# tv-webhook: the signal-to-order core, in Dafny

`main.py` is a small Flask service. It receives a TradingView-style text alert on
`POST /webhook` and turns the alert into a bracketed limit order on Bybit. This project
models the path from the request body to the reply as pure functions, and proves what
that path does.

The path has these steps:

- **Strip.** The body is stripped of surrounding whitespace.
- **Direction.** `parse_signal` reads the direction marker. The markers are 小多單, 多單,
  小空單 and 空單, tested in that order.
- **Symbol.** It reads an optional leading `[A-Z]+USDT` symbol. The default is `BTCUSDT`.
- **Fields.** It reads four labelled numbers with `re.search`:
  - `進場`, the entry price;
  - `SL`, the stop-loss;
  - `TP1`, the first take-profit;
  - `風險`/`risk`, the risk budget in USDT. This label ignores case. The default is 1.
- **Guards.** The handler rejects a signal in two cases:
  - a missing direction, or an entry, stop-loss or take-profit that is missing or zero
    gives `'Parse error', 400`;
  - a zero risk per unit gives `'Invalid SL', 400`.
- **Sizing.** The quantity is `round(max_loss / abs(entry - sl), 3)`.
- **Order.** One linear, good-till-cancel limit order is sent:
  - the price is the entry price;
  - the take-profit and stop-loss are rounded to 2 places.
- **Reply.** The reply is `'OK', 200`, whatever the exchange answers or raises.

Modules:

- `Wrappers`: the optional value that stands for Python's `None`.
- `Text`: Python's view of text as this code uses it:
  - substring search (`in`);
  - the greedy runs `\s*`, `[\d.]+` and `[A-Z]+`;
  - the letters that `re.IGNORECASE` folds onto `risk`;
  - `str.strip()`.
- `Decimal`: the numbers.
  - `float()` of a `[\d.]+` capture, as an exact real. A malformed capture is modelled as
    the `ValueError` that `float()` raises.
  - `round(x, n)` on exact reals: to the nearest multiple of 10^-n, ties to even.
- `SignalParser`: `parse_signal`. Each regular expression has two parts in the model:
  - an explicit scanner;
  - a predicate saying when the expression matches at an index.

  The scanner is proved to find the match that `re.match` or `re.search` finds.
- `Webhook`: the guards, the sizing, the order, and the reply of `webhook`. The exchange
  call `session.place_order` is a function parameter, and each call records what it
  returned.
- `Scenarios`: two worked alerts, from the parsed signal to the order and the reply.

Some behaviour of the code may not be what its authors meant. The model keeps it as written:

- **The symbol is only read at the very start of the text** (`re.match` with `^`). In
  "小空單 ETHUSDT 進場：3000 SL：3100 TP1：2800" the ETHUSDT is ignored and the order trades
  BTCUSDT (`Scenarios.SmallShortAlertSymbol`).
- **A missing field is a plain `'Parse error', 400`.** The reply does not say which
  field is missing.
- **A zero entry, stop-loss or take-profit is rejected like a missing one.** The test is
  `not x`, so `0.0` counts as missing.
- **A malformed numeral raises.** Examples are `"1.2."` and `"."`. The `ValueError` from
  `float()` is not caught and escapes the handler. This is its own outcome
  (`ParseResult.ValueError`, `Reply.InternalError`), not a parse error.
- **An exception from the exchange is swallowed.** The handler still replies
  `'OK', 200`. It has no rejected outcome.

## Model

| member | source | states |
|---|---|---|
| Text.Contains | main.py:26-35 | `p in s` holds exactly when `p` occurs in `s` at some index |
| Text.Fold | main.py:44 | the character an IGNORECASE letter is compared with: ASCII capitals lowered, and only İ, ı, ſ and the Kelvin sign otherwise folded onto ASCII letters (which letters they fold to is stated by SignalParser.RiskWordAnyCase) |
| Text.SpaceRunEnd | main.py:41-44 | the greedy `\s*` stops at the end of the maximal whitespace run |
| Text.DigitRunEnd | main.py:41-44 | the greedy `[\d.]+` stops at the end of the maximal run of digits and dots |
| Text.UpperRunEnd | main.py:23 | the greedy `[A-Z]+` covers the maximal run of ASCII capitals |
| Text.Strip | main.py:62 | `strip()` returns text no longer than the body, with no whitespace at either edge |
| Text.StripKeepsInner | main.py:62 | what `strip()` returns is a piece of the body with only whitespace before and after it |
| Text.StripPadded | main.py:62 | a text without edge whitespace, padded with whitespace on both sides, strips back to itself |
| Text.StripIgnoresPadding | main.py:62 | extra whitespace around any body does not change what `strip()` returns |
| Text.StripIdempotent | main.py:62 | stripping twice is stripping once |
| Decimal.ParseFloat | main.py:46-49 | `float()` of a digits-and-dots capture succeeds exactly when it has at most one dot and at least one digit, and gives a non-negative value |
| Decimal.Value | main.py:46-49 | the exact value of a numeral is never negative and is at least its integer part; ValueIsScaledDigits states it completely |
| Decimal.ValueIsScaledDigits | main.py:46-49 | the value of a numeral is its digits read as one integer, divided by ten to the number of digits after the point |
| Decimal.ValueZeroIffNoNonZeroDigit | main.py:46-49 | a numeral reads as 0.0 (falsy) exactly when it has no non-zero digit |
| Decimal.RoundHalfEven | main.py:76-77 | the chosen integer is within one half of the input, and even on a tie |
| Decimal.RoundHalfEvenNearest | main.py:76-77 | no integer is nearer the input than the one chosen |
| Decimal.Round | main.py:76-77 | `round(x, n)` has `n` places and is non-negative for a non-negative `x`; RoundBounds, RoundNearest and RoundTieEven pin it down |
| Decimal.RoundBounds | main.py:76-77 | `round(x, n)` has `n` places and lies within half a unit in the last place of `x` |
| Decimal.RoundNearest | main.py:76-77 | no multiple of 10^-n is nearer `x` than `round(x, n)` |
| Decimal.RoundTieEven | main.py:76-77 | halfway between two candidates, `round` picks the one with an even last digit |
| Decimal.RoundExact | main.py:89-90 | a value that already has `n` places is unchanged by `round(x, n)` |
| SignalParser.Classify | main.py:26-39 | the chosen marker occurs in the text, and there is none exactly when neither 多單 nor 空單 occurs; ClassifySpec states the priority of the tests |
| SignalParser.ClassifySpec | main.py:26-39 | each marker is chosen exactly when its test is the first one to succeed; a small variant always wins over the plain marker it contains; there is no direction exactly when neither 多單 nor 空單 occurs |
| SignalParser.SideByMarker | main.py:26-37 | the side is Buy exactly when 多單 occurs, and Sell exactly when 空單 occurs without it |
| SignalParser.SymbolEnd | main.py:23 | the backtracking of `[A-Z]+USDT` within the leading capitals finds the longest prefix ending in USDT, and no longer one exists |
| SignalParser.Symbol | main.py:23-24 | the symbol is the longest leading `[A-Z]+USDT` prefix, or BTCUSDT when the text has none |
| SignalParser.SymbolOnlyAtStart | main.py:23-24 | a text that does not begin with a capital letter trades BTCUSDT |
| SignalParser.LabelEnd | main.py:41-44 | a label found at an index ends after it and within the text; which labels it accepts is its definition: the literal 進場, SL or TP1, or, for the risk field, 風險 or a case fold of `risk` (RiskWordAnyCase states which characters the fold accepts) |
| SignalParser.RiskWordAnyCase | main.py:44 | `risk` under IGNORECASE matches four characters exactly when each is r/R, i/I/İ/ı, s/S/ſ and k/K/Kelvin sign in turn |
| SignalParser.SeparatorEnd | main.py:41-44 | the greedy `[:：]?\s*`: the span is a separator, it takes the colon whenever one is there, and it stops only at the end of the text or at a non-whitespace character |
| SignalParser.SeparatorUnique | main.py:41-44 | a separator followed by a digit or dot can only be the greedy one, so the pattern has one way to match at an index |
| SignalParser.CaptureAt | main.py:41-44 | the pattern matches at an index exactly when the scanner returns a capture; the capture follows the label and a separator, and is a maximal non-empty run of digits and dots |
| SignalParser.FirstMatch | main.py:41-44 | `re.search` returns a matching index and nothing before it matches, or none when nothing from the start index matches |
| SignalParser.FirstMatchIsLeftmost | main.py:41-44 | the leftmost matching index is the one the search returns |
| SignalParser.Field | main.py:41-48 | a field is a non-empty digits-and-dots numeral, and is absent exactly when its pattern matches nowhere |
| SignalParser.FieldAtFirstMatch | main.py:41-48 | the field is the greedy digits-and-dots run after the label and greedy separator of the leftmost match |
| SignalParser.Convert | main.py:46-49 | `float(m.group(..)) if m else None` is absent exactly when there is no match, raises exactly on a malformed numeral, and otherwise gives the numeral's non-negative value |
| SignalParser.ParseSignal | main.py:22-51 | no direction exactly when neither 多單 nor 空單 occurs; a parsed signal carries the marker the tests choose, which occurs in the text, and a non-negative budget; ParseOutcomes and ParsedFields state the rest |
| SignalParser.ParseOutcomes | main.py:26-49 | the parse finds no direction exactly when neither 多單 nor 空單 occurs; it raises exactly when a direction is found and a captured numeral is malformed |
| SignalParser.ParsedFields | main.py:19-51 | a parsed signal has the marker the ordered tests choose, which occurs in the text, and the side of 多單's presence; its symbol is the leading symbol; entry, stop-loss and take-profit are each absent exactly when their pattern matches nowhere, and when present are the `float()` value of their well-formed capture; the budget is the value of the risk capture when the risk pattern matches, 1 when it matches nowhere, and is never negative |
| Webhook.Decide | main.py:66-92 | which outcome a parse leads to: an escaped `ValueError`, 'Parse error' on no direction or a falsy price, 'Invalid SL' on a zero risk per unit, and otherwise an order |
| Webhook.OrderContents | main.py:76-92 | the order is linear, Limit and GoodTillCancel, on the signal's symbol and side, at the entry price; its quantity is `round(max_loss / abs(entry - sl), 3)`; its take-profit and stop-loss are within half a cent of the signal's, with two places |
| Webhook.Quantity | main.py:76 | the quantity has three places and is non-negative for a non-negative budget; QuantityBounds ties it to the budget |
| Webhook.FalsyCapture | main.py:67 | `not` on a converted price is true exactly when its pattern matched nowhere or every digit of the capture is zero |
| Webhook.QuantityBounds | main.py:76 | the quantity has three places, is never negative, and loses the budget to within half a lot step times the risk |
| Webhook.TinyBudgetZeroQuantity | main.py:76 | a budget below half a lot step's worth of risk gives a quantity of zero |
| Webhook.SizingLaw | main.py:71-76 | for an accepted signal, the risk per unit is positive, and a full move from entry to stop-loss loses the budget to within rounding |
| Webhook.RewardRisk | main.py:77 | the ratio has two places and lies within half a cent of abs(tp - entry) / abs(entry - sl) |
| Webhook.HandleWebhook | main.py:62-99 | at most one order is sent, exactly when the reply is 'OK', 200, and it is the decided order; the reply is a 500 exactly when the parse raises; every 400 reply is 'Parse error' or 'Invalid SL', the first exactly on the parse guard and the second exactly on the zero-risk guard |
| Webhook.ExchangeErrorsSwallowed | main.py:81-99 | whatever the exchange answers or raises, the reply and the order sent are the same, and the reply is 'OK', 200 once an order is sent |
| Webhook.ParseRejection | main.py:66-69 | a stripped body with no direction marker, or whose entry, stop-loss or take-profit pattern matches nowhere (and no numeral is malformed), is answered 'Parse error', 400 with no order sent |
| Webhook.ZeroPriceRejected | main.py:66-69 | with a direction marker and no malformed numeral, a required numeral with no non-zero digit is answered 'Parse error', 400 with no order sent |
| Webhook.ZeroRiskGuard | main.py:71-74 | entry equal to stop-loss is answered 'Invalid SL', 400 and no order is sent |
| Webhook.SurroundingWhitespaceIgnored | main.py:62 | whitespace around the body changes neither the reply nor the order |
| Scenarios.LongOrder | main.py:71-92 | a long at 100 with stop 95, target 110 and budget 5 buys 1 lot at 100 with tp 110 and sl 95; the reward/risk ratio is 2 |
| Scenarios.SmallShortOrder | main.py:71-92 | a short at 3000 with stop 3100, target 2800 and the default budget sells 0.01 lots |
| Scenarios.LongAlert | main.py:66-99 | a body that parses to that long signal is answered 'OK', 200 after one order for 1 lot |
| Scenarios.SmallShortAlertSymbol | main.py:23-24 | "小空單 ETHUSDT 進場：3000 SL：3100 TP1：2800" trades BTCUSDT, not ETHUSDT |

## Left out

- **Flask plumbing.** The app, the routes, `home()`, reading the request body as text,
  and server start-up are not modelled. The body enters the model as a string.
- **The exchange session.** The `session` object reads credentials from the environment
  and picks the live endpoint. It is configuration, not logic.
- **The exchange.** `session.place_order` is a function parameter. Its answer is
  recorded but cannot change the reply, as in the source.
- **The exchange result beyond the call.** The model only knows that `place_order` either
  returns or raises an `Exception`. A `BaseException` that is not an `Exception` is not
  modelled.
- **Logging.** All `print` output and the timestamp are not modelled.
- **Binary floating point.** Numbers are exact reals. This leaves out:
  - float rounding;
  - `round` on a binary float, where a decimal tie such as 2.675 may not be a tie;
  - the overflow of a very long numeral to `inf`;
  - the `str()` formatting of `price`, `qty`, `take_profit` and `stop_loss`.

  The order carries the exact values.
- **Unicode digits.** `\d` is limited to the ASCII digits. Python's `\d` and `float()`
  also accept other decimal digits, such as Arabic-Indic digits.
- **Other case folds.** Only the folds that matter for the lower-case word `risk` are
  modelled (`Text.Fold`).
- **End-to-end examples.** The worked alerts in `Scenarios` start from the parsed
  signal. The parse of those literal texts is not proved. The one exception is the
  symbol of the small-short alert.
