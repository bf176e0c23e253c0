/**
 * The straight-line part of `webhook` (main.py): the parse-rejection guard, the
 * zero-risk guard, position sizing, the bracketed limit order, and the reply.
 * The exchange call `session.place_order` is a parameter: whatever it returns or
 * raises, the handler replies the same.
 */
module Webhook {
  import opened Wrappers
  import opened Text
  import opened Decimal
  import opened SignalParser

  /** The keyword arguments of `session.place_order`, numbers kept as exact values. */
  datatype OrderRequest = OrderRequest(
    category: string,
    symbol: string,
    side: string,
    orderType: string,
    price: real,
    qty: real,
    takeProfit: real,
    stopLoss: real,
    timeInForce: string)

  /**
   * Where the handler's guards lead: a parse error, a zero risk per unit, an order to
   * submit, or the `ValueError` of `parse_signal` escaping the handler.
   */
  datatype Outcome = ParseError | InvalidSL | Submit(order: OrderRequest) | Raised

  const CATEGORY: string := "linear"
  const ORDER_TYPE: string := "Limit"
  const TIME_IN_FORCE: string := "GoodTillCancel"
  const QTY_PLACES: nat := 3
  const PRICE_PLACES: nat := 2

  /** Python's `not x` on an optional float: `None` and `0.0` are falsy. */
  predicate Falsy(x: Option<real>) {
    x.None? || x.value == 0.0
  }

  /** The quantity that loses `maxLoss` when the price moves `risk` against the position. */
  function Quantity(maxLoss: real, risk: real): (r: real)
    requires risk > 0.0
    ensures HasPlaces(r, QTY_PLACES)
    ensures maxLoss >= 0.0 ==> r >= 0.0
  {
    Round(maxLoss / risk, QTY_PLACES)
  }

  /** `rr_ratio`: reward over risk to two places. It is only logged. */
  function RewardRisk(entry: real, stopLoss: real, takeProfit: real): (r: real)
    requires entry != stopLoss
    ensures HasPlaces(r, 2)
    ensures Abs(r - Abs(takeProfit - entry) / Abs(entry - stopLoss)) <= HalfUnit(2)
  {
    RoundBounds(Abs(takeProfit - entry) / Abs(entry - stopLoss), 2);
    Round(Abs(takeProfit - entry) / Abs(entry - stopLoss), 2)
  }

  /** The guards and the order construction, main.py:66-92. */
  function Decide(p: ParseResult): (r: Outcome)
    ensures r == Raised <==> p.ValueError?
    ensures r == ParseError <==>
              p.NoDirection? ||
              (p.Parsed? && (Falsy(p.signal.entry) || Falsy(p.signal.stopLoss) || Falsy(p.signal.takeProfit)))
    ensures r == InvalidSL <==>
              p.Parsed? && !Falsy(p.signal.entry) && !Falsy(p.signal.stopLoss) && !Falsy(p.signal.takeProfit) &&
              p.signal.entry.value == p.signal.stopLoss.value
    ensures r.Submit? <==>
              p.Parsed? && !Falsy(p.signal.entry) && !Falsy(p.signal.stopLoss) && !Falsy(p.signal.takeProfit) &&
              p.signal.entry.value != p.signal.stopLoss.value
  {
    match p
    case NoDirection => ParseError
    case ValueError => Raised
    case Parsed(s) =>
      if Falsy(s.entry) || Falsy(s.stopLoss) || Falsy(s.takeProfit) then ParseError
      else
        var risk := Abs(s.entry.value - s.stopLoss.value);
        if risk == 0.0 then InvalidSL
        else
          Submit(OrderRequest(
            CATEGORY, s.symbol, SideName(s.side), ORDER_TYPE, s.entry.value,
            Quantity(s.maxLoss, risk),
            Round(s.takeProfit.value, PRICE_PLACES),
            Round(s.stopLoss.value, PRICE_PLACES),
            TIME_IN_FORCE))
  }

  /**
   * `not` on a price `parse_signal` captured and converted: falsy exactly when the
   * pattern matched nowhere or every digit of the capture is zero.
   */
  lemma FalsyCapture(text: string, f: Label)
    requires !MalformedField(text, f)
    ensures Falsy(ToOption(Convert(Field(text, f)))) <==>
              Field(text, f).None? ||
              forall k :: 0 <= k < |Field(text, f).value| ==> Field(text, f).value[k] == '0' || Field(text, f).value[k] == '.'
  {
    if Field(text, f).Some? {
      ValueZeroIffNoNonZeroDigit(Field(text, f).value);
    }
  }

  /** What `qty` units lose when the price moves `move` against them. */
  function Loss(qty: real, move: real): real {
    qty * move
  }

  lemma MultiplyBound(q: real, x: real, risk: real, h: real)
    requires risk > 0.0 && Abs(q - x / risk) <= h
    ensures Abs(Loss(q, risk) - x) <= Loss(h, risk)
  {
    assert q * risk - x == (q - x / risk) * risk;
  }

  /**
   * What an accepted signal sends: a linear good-till-cancel limit order at the entry
   * price on the signal's side and symbol, with the take-profit and stop-loss to two
   * places and the quantity to three.
   */
  lemma OrderContents(p: ParseResult)
    requires Decide(p).Submit?
    ensures var o, s := Decide(p).order, p.signal;
      && o.category == "linear" && o.orderType == "Limit" && o.timeInForce == "GoodTillCancel"
      && o.symbol == s.symbol && o.side == SideName(s.side)
      && o.price == s.entry.value
      && o.qty == Round(s.maxLoss / Abs(s.entry.value - s.stopLoss.value), 3)
      && HasPlaces(o.takeProfit, 2) && Abs(o.takeProfit - s.takeProfit.value) <= HalfUnit(2)
      && HasPlaces(o.stopLoss, 2) && Abs(o.stopLoss - s.stopLoss.value) <= HalfUnit(2)
  {
    RoundBounds(p.signal.takeProfit.value, 2);
    RoundBounds(p.signal.stopLoss.value, 2);
  }

  /** The quantity has three places, is never negative for a non-negative budget, and loses the budget to within half a lot step. */
  lemma QuantityBounds(maxLoss: real, risk: real)
    requires risk > 0.0 && maxLoss >= 0.0
    ensures HasPlaces(Quantity(maxLoss, risk), 3)
    ensures Quantity(maxLoss, risk) >= 0.0
    ensures Abs(Loss(Quantity(maxLoss, risk), risk) - maxLoss) <= Loss(HalfUnit(3), risk)
  {
    RoundBounds(maxLoss / risk, 3);
    MultiplyBound(Quantity(maxLoss, risk), maxLoss, risk, HalfUnit(3));
  }

  /**
   * A budget under half a lot step's worth of risk rounds to a quantity of zero; the
   * handler has no guard for it, so such a signal still sends an order for 0 lots.
   */
  lemma TinyBudgetZeroQuantity(maxLoss: real, risk: real)
    requires risk > 0.0 && maxLoss >= 0.0 && maxLoss / risk < HalfUnit(3)
    ensures Quantity(maxLoss, risk) == 0.0
  {
    var y := Scale(maxLoss / risk, 3);
    ScaleInverse(0.5, 3);
    assert 0.0 <= y < 0.5;
    assert RoundHalfEven(y) == 0;
  }

  /**
   * The sizing law: the quantity has three places, is never negative, and a full move
   * from entry to stop-loss loses the risk budget to within half a lot step. (A parsed
   * budget is never negative: see `ParsedFields`.)
   */
  lemma SizingLaw(p: ParseResult)
    requires Decide(p).Submit? && p.signal.maxLoss >= 0.0
    ensures var o, s := Decide(p).order, p.signal;
      var risk := Abs(s.entry.value - s.stopLoss.value);
      && risk > 0.0
      && HasPlaces(o.qty, 3)
      && o.qty >= 0.0
      && Abs(Loss(o.qty, risk) - s.maxLoss) <= Loss(HalfUnit(3), risk)
  {
    var s := p.signal;
    var risk := Abs(s.entry.value - s.stopLoss.value);
    assert p.Parsed? && risk != 0.0;
    assert Decide(p).order.qty == Quantity(s.maxLoss, risk);
    QuantityBounds(s.maxLoss, risk);
  }

  // ---------------------------------------------------------------------------
  // The handler: strip, parse, decide, place, reply
  // ---------------------------------------------------------------------------

  /** What `session.place_order` does with a request: answers, or raises an exception. */
  datatype ExchangeResult = Acknowledged(response: string) | Failed(message: string)

  /** One call of `session.place_order` and what it came back with. */
  datatype Call = Call(order: OrderRequest, result: ExchangeResult)

  /** The HTTP reply: a body and a status, or the error page of an exception that escaped. */
  datatype Reply = Reply(body: string, status: nat) | InternalError

  /** The reply and the calls made to the exchange while handling one request. */
  datatype Handled = Handled(reply: Reply, calls: seq<Call>)

  /**
   * `webhook` on a request body, with the exchange as the function `placeOrder`: the
   * body is stripped and parsed, the guards pick a reply, and an accepted signal sends
   * exactly one order, whose answer does not change the reply.
   */
  function HandleWebhook(body: string, placeOrder: OrderRequest -> ExchangeResult): (h: Handled)
    ensures |h.calls| <= 1
    ensures h.reply == Reply("OK", 200) <==> Decide(ParseSignal(Strip(body))).Submit?
    ensures h.calls != [] <==> h.reply == Reply("OK", 200)
    ensures h.calls != [] ==> h.calls[0] == Call(Decide(ParseSignal(Strip(body))).order, placeOrder(h.calls[0].order))
    ensures h.reply == InternalError <==> ParseSignal(Strip(body)).ValueError?
    ensures h.reply.Reply? && h.reply.status == 400 <==> h.reply == Reply("Parse error", 400) || h.reply == Reply("Invalid SL", 400)
    ensures h.reply == Reply("Parse error", 400) <==> Decide(ParseSignal(Strip(body))) == ParseError
    ensures h.reply == Reply("Invalid SL", 400) <==> Decide(ParseSignal(Strip(body))) == InvalidSL
  {
    match Decide(ParseSignal(Strip(body)))
    case ParseError => Handled(Reply("Parse error", 400), [])
    case InvalidSL => Handled(Reply("Invalid SL", 400), [])
    case Raised => Handled(InternalError, [])
    case Submit(order) => Handled(Reply("OK", 200), [Call(order, placeOrder(order))])
  }

  /**
   * Exchange errors are swallowed: whatever the exchange answers or raises, the
   * handler sends the same order and gives the same reply, `'OK', 200` once the
   * order stage is reached.
   */
  lemma ExchangeErrorsSwallowed(body: string, placeOrder: OrderRequest -> ExchangeResult, other: OrderRequest -> ExchangeResult)
    ensures HandleWebhook(body, placeOrder).reply == HandleWebhook(body, other).reply
    ensures |HandleWebhook(body, placeOrder).calls| == |HandleWebhook(body, other).calls|
    ensures HandleWebhook(body, placeOrder).calls != [] ==>
              HandleWebhook(body, placeOrder).calls[0].order == HandleWebhook(body, other).calls[0].order &&
              HandleWebhook(body, placeOrder).reply == Reply("OK", 200)
  {
  }

  /**
   * A text without a direction marker, or whose entry, stop-loss or take-profit pattern
   * never matches, is a parse error and reaches no exchange (a malformed numeral raises
   * first). A matching numeral whose digits are all zero is falsy and rejected the same way.
   */
  lemma ParseRejection(body: string, placeOrder: OrderRequest -> ExchangeResult)
    ensures var t, h := Strip(body), HandleWebhook(body, placeOrder);
      !Contains(t, LONG) && !Contains(t, SHORT) ==> h.reply == Reply("Parse error", 400) && h.calls == []
    ensures var t, h := Strip(body), HandleWebhook(body, placeOrder);
      (Contains(t, LONG) || Contains(t, SHORT)) &&
      !(MalformedField(t, Entry) || MalformedField(t, StopLoss) || MalformedField(t, TakeProfit) || MalformedField(t, Risk)) &&
      ((forall k :: 0 <= k < |t| ==> !MatchesAt(t, Entry, k)) ||
       (forall k :: 0 <= k < |t| ==> !MatchesAt(t, StopLoss, k)) ||
       (forall k :: 0 <= k < |t| ==> !MatchesAt(t, TakeProfit, k)))
      ==> h.reply == Reply("Parse error", 400) && h.calls == []
  {
    var t := Strip(body);
    ParseOutcomes(t);
    if ParseSignal(t).Parsed? {
      ParsedFields(t);
    }
  }

  /** A required numeral whose digits are all zero parses to 0.0, which `not` treats as missing. */
  lemma ZeroPriceRejected(body: string, placeOrder: OrderRequest -> ExchangeResult, f: Label)
    requires f != Risk
    requires var t := Strip(body); (Contains(t, LONG) || Contains(t, SHORT))
    requires var t := Strip(body);
      !(MalformedField(t, Entry) || MalformedField(t, StopLoss) || MalformedField(t, TakeProfit) || MalformedField(t, Risk))
    requires var num := Field(Strip(body), f);
      num.Some? && forall k :: 0 <= k < |num.value| ==> num.value[k] == '0' || num.value[k] == '.'
    ensures HandleWebhook(body, placeOrder).reply == Reply("Parse error", 400)
    ensures HandleWebhook(body, placeOrder).calls == []
  {
    var t := Strip(body);
    ParseOutcomes(t);
    var p := ParseSignal(t);
    ValueZeroIffNoNonZeroDigit(Field(t, f).value);
    assert Falsy(p.signal.entry) || Falsy(p.signal.stopLoss) || Falsy(p.signal.takeProfit) by {
      match f
      case Entry => assert p.signal.entry == Some(0.0);
      case StopLoss => assert p.signal.stopLoss == Some(0.0);
      case TakeProfit => assert p.signal.takeProfit == Some(0.0);
    }
  }

  /**
   * The zero-risk guard: a signal whose entry equals its stop-loss is answered
   * `'Invalid SL', 400` and no order is placed, so the division by the risk is never reached.
   */
  lemma ZeroRiskGuard(body: string, placeOrder: OrderRequest -> ExchangeResult)
    requires ParseSignal(Strip(body)).Parsed?
    requires var s := ParseSignal(Strip(body)).signal;
      !Falsy(s.entry) && !Falsy(s.stopLoss) && !Falsy(s.takeProfit) && s.entry.value == s.stopLoss.value
    ensures HandleWebhook(body, placeOrder).reply == Reply("Invalid SL", 400)
    ensures HandleWebhook(body, placeOrder).calls == []
  {
  }

  /** The body is stripped first: whitespace around it changes neither the reply nor the order. */
  lemma SurroundingWhitespaceIgnored(w1: string, body: string, w2: string, placeOrder: OrderRequest -> ExchangeResult)
    requires AllSpace(w1, 0, |w1|) && AllSpace(w2, 0, |w2|)
    ensures HandleWebhook(w1 + body + w2, placeOrder) == HandleWebhook(body, placeOrder)
  {
    StripIgnoresPadding(w1, body, w2);
  }
}
