/**
 The comparison step of `main` (bot.js): percentage change against the stored
 price and the symmetric, inclusive ten-percent threshold.
 */
module Evaluator {
  import opened Wrappers
  import opened Format
  import opened PriceSource

  /** Alert threshold, in percent. */
  const Threshold: real := 10.0

  datatype Classification = Unchanged | Rising | Falling

  /** One entry of the consolidated message: the pair symbol, the rendered
      current price, the signed percentage change and its direction. The
      address identifies the configured token the entry belongs to. */
  datatype Alert = Alert(address: string, symbol: string, display: Rendering, change: real, kind: Classification)

  /** Stored prices map token addresses to the last fetched price. */
  type Prices = map<string, real>

  predicate PositivePrices(stored: Prices) {
    forall a :: a in stored ==> stored[a] > 0.0
  }

  /** `((current - previous) / previous) * 100`. */
  function PercentChange(previous: real, current: real): (r: real)
    requires previous > 0.0
    ensures r * previous == (current - previous) * 100.0
    ensures r > 0.0 <==> current > previous
    ensures r == 0.0 <==> current == previous
  {
    ((current - previous) / previous) * 100.0
  }

  lemma ScaleByPositive(x: real, y: real, p: real)
    requires p > 0.0
    ensures x <= y <==> x * p <= y * p
  {
    if x <= y {
      assert (y - x) * p >= 0.0;
    } else {
      assert (x - y) * p > 0.0;
    }
  }

  /** A change of at least `t` percent is a new price of at least `1 + t/100` times the old one. */
  lemma ChangeAtLeast(previous: real, current: real, t: real)
    requires previous > 0.0
    ensures PercentChange(previous, current) >= t <==> current >= previous * (1.0 + t / 100.0)
  {
    var r := PercentChange(previous, current);
    ScaleByPositive(t, r, previous);
    assert r * previous == (current - previous) * 100.0;
    assert previous * (1.0 + t / 100.0) == previous + (t * previous) / 100.0;
  }

  /** A change of at most `t` percent is a new price of at most `1 + t/100` times the old one. */
  lemma ChangeAtMost(previous: real, current: real, t: real)
    requires previous > 0.0
    ensures PercentChange(previous, current) <= t <==> current <= previous * (1.0 + t / 100.0)
  {
    var r := PercentChange(previous, current);
    ScaleByPositive(r, t, previous);
    assert r * previous == (current - previous) * 100.0;
    assert previous * (1.0 + t / 100.0) == previous + (t * previous) / 100.0;
  }

  /** The classification of a price move, stated as a price ratio:
      a rise to at least 110 % or a fall to at most 90 % of the stored price. */
  function Classify(previous: real, current: real): (c: Classification)
    requires previous > 0.0
    ensures c == Rising <==> current >= previous * (1.0 + Threshold / 100.0)
    ensures c == Falling <==> current <= previous * (1.0 - Threshold / 100.0)
    ensures c == Unchanged <==>
              previous * (1.0 - Threshold / 100.0) < current < previous * (1.0 + Threshold / 100.0)
  {
    var change := PercentChange(previous, current);
    ChangeAtLeast(previous, current, Threshold);
    ChangeAtMost(previous, current, -Threshold);
    if change >= Threshold then Rising
    else if change <= -Threshold then Falling
    else Unchanged
  }

  /** The alert entry, if any, for one successfully fetched token. */
  function Evaluate(stored: Prices, address: string, quote: Quote): (r: Option<Alert>)
    requires PositivePrices(stored)
    ensures address !in stored ==> r.None?
    ensures r.Some? <==> address in stored && Classify(stored[address], quote.price) != Unchanged
    ensures r.Some? ==> r.value.address == address && r.value.symbol == quote.symbol
    ensures r.Some? ==> r.value.display == FormatPrice(quote.price)
    ensures r.Some? ==> r.value.change * stored[address] == (quote.price - stored[address]) * 100.0
    ensures r.Some? ==> (r.value.kind == Rising <==> quote.price >= stored[address] * 1.1)
    ensures r.Some? ==> (r.value.kind == Falling <==> quote.price <= stored[address] * 0.9)
  {
    if address !in stored then None
    else
      var previous := stored[address];
      var kind := Classify(previous, quote.price);
      if kind == Unchanged then None
      else Some(Alert(address, quote.symbol, FormatPrice(quote.price), PercentChange(previous, quote.price), kind))
  }

  /** The boundary cases: exactly ten percent either way alerts, just inside does not. */
  lemma ThresholdBoundaries()
    ensures Classify(100.0, 110.0) == Rising
    ensures Classify(100.0, 109.99) == Unchanged
    ensures Classify(100.0, 90.0) == Falling
    ensures Classify(100.0, 90.01) == Unchanged
  {
  }

  /** An unchanged price never alerts. */
  lemma SamePriceUnchanged(previous: real)
    requires previous > 0.0
    ensures Classify(previous, previous) == Unchanged
  {
  }
}
