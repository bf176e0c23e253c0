/**
 * Worked alerts run through the model: the parsed signal of each alert is given, and
 * the order, the reply and the reward/risk ratio are derived from it.
 */
module Scenarios {
  import opened Wrappers
  import opened Text
  import opened Decimal
  import opened SignalParser
  import opened Webhook

  /** The signal of "多單 進場:100 SL:95 TP1:110 風險:5". */
  const LONG_SIGNAL: Signal := Signal("BTCUSDT", Long, Buy, Some(100.0), Some(95.0), Some(110.0), 5.0)

  /** The signal of "小空單 ETHUSDT 進場：3000 SL：3100 TP1：2800", which has no budget label. */
  const SMALL_SHORT_SIGNAL: Signal := Signal("BTCUSDT", SmallShort, Sell, Some(3000.0), Some(3100.0), Some(2800.0), 1.0)

  /** A long at 100 with a 5-point stop and a 5 USDT budget buys 1 lot, at a reward/risk ratio of 2. */
  lemma LongOrder()
    ensures Decide(Parsed(LONG_SIGNAL)) ==
              Submit(OrderRequest("linear", "BTCUSDT", "Buy", "Limit", 100.0, 1.0, 110.0, 95.0, "GoodTillCancel"))
    ensures RewardRisk(100.0, 95.0, 110.0) == 2.0
  {
    assert Pow10(2) == 100 && Pow10(3) == 1000;
    assert Scale(1.0, 3) == 1000.0 && Scale(110.0, 2) == 11000.0 && Scale(95.0, 2) == 9500.0 && Scale(2.0, 2) == 200.0;
    RoundExact(1.0, 3);
    RoundExact(110.0, 2);
    RoundExact(95.0, 2);
    RoundExact(2.0, 2);
  }

  /** A small short risking the default 1 USDT over 100 points sells 0.01 lots. */
  lemma SmallShortOrder()
    ensures Decide(Parsed(SMALL_SHORT_SIGNAL)) ==
              Submit(OrderRequest("linear", "BTCUSDT", "Sell", "Limit", 3000.0, 0.01, 2800.0, 3100.0, "GoodTillCancel"))
  {
    assert Pow10(2) == 100 && Pow10(3) == 1000;
    assert Scale(0.01, 3) == 10.0 && Scale(2800.0, 2) == 280000.0 && Scale(3100.0, 2) == 310000.0;
    RoundExact(0.01, 3);
    RoundExact(2800.0, 2);
    RoundExact(3100.0, 2);
  }

  /** The long alert's body is answered 'OK', 200 after sending its one order, whatever the exchange does. */
  lemma LongAlert(body: string, placeOrder: OrderRequest -> ExchangeResult)
    requires ParseSignal(Strip(body)) == Parsed(LONG_SIGNAL)
    ensures HandleWebhook(body, placeOrder) ==
              Handled(Reply("OK", 200), [Call(Decide(Parsed(LONG_SIGNAL)).order, placeOrder(Decide(Parsed(LONG_SIGNAL)).order))])
    ensures HandleWebhook(body, placeOrder).calls[0].order.qty == 1.0
  {
    LongOrder();
  }

  /** The symbol ETHUSDT is not at the start of the small-short alert, so the order trades BTCUSDT. */
  lemma SmallShortAlertSymbol()
    ensures Symbol("小空單 ETHUSDT 進場：3000 SL：3100 TP1：2800") == DEFAULT_SYMBOL
  {
    SymbolOnlyAtStart("小空單 ETHUSDT 進場：3000 SL：3100 TP1：2800");
  }
}
