# Telegram crypto price-alert bot, modelled in Dafny

The bot polls Dexscreener every five minutes for a configured list of token
addresses, compares each fetched price with the price it remembered from the
previous run, and posts one consolidated Telegram message when some token rose
or fell by ten percent or more. This project models one run of that alert
cycle (`main` in `bot.js`) as a pure function. It also models the choice of
display band in `formatPrice` and the way a Dexscreener reply becomes a quote
or `null`.

Modules:

- `Wrappers`: the `Option` type that stands for JavaScript's `null`/`undefined`.
- `Format`: the three display bands of `formatPrice`. A rendering keeps the
  prefix, the amount `toFixed` is applied to, the digit count and the suffix.
  The digits themselves are not modelled.
- `PriceSource`: a reply (failed, no `pairs`, empty `pairs`, or pairs) becomes
  `Option<Quote>`. The first pair decides.
- `Evaluator`: the percentage change, the inclusive ±10 % classification, and
  the alert entry for one token.
- `AlertCycle`: one loop iteration (`Step`), the loop (`Sweep`), a whole run
  (`Cycle`), and `Run`, the loop written imperatively as in the source and
  proved equal to `Cycle`.
- `CycleProperties`: properties of runs. These cover which price ends up
  stored, the first-seen exemption, alerts against an independent reference,
  alert order, skipping a failed fetch, and the quiet second run.

The stored prices are a `map<string, real>` from address to last price. The
fetch outcome of each configured address is an input sequence of
`Option<Quote>`, aligned with the address list. Stored prices and fetched
prices are positive reals.

Behaviour of `bot.js` that the model keeps:

- An alert line shows the pair symbol, formatted price and signed change, but
  not the exchange.
- An address listed twice in the configuration is processed twice in one run.
  The second occurrence compares against the price the first occurrence just
  stored. The model keeps this sequential behaviour. The properties that need
  it assume distinct addresses, or addresses whose repeats are quoted the
  same price.

## Model

| member | source | states |
|---|---|---|
| Format.BandOf | bot.js:17-24 | exactly one band is chosen: millions iff price ≥ 1,000,000, dollars iff 1 ≤ price < 1,000,000, sub-dollar iff price < 1; lower edges inclusive |
| Format.FormatPrice | bot.js:17-25 | "M$" suffix and no prefix iff price ≥ 1,000,000; "$" prefix iff below; 2 decimals iff price ≥ 1, 6 iff below; the amount handed to `toFixed` is price/1,000,000 in the "M$" band and the price otherwise, so the millions amount is at least 1 |
| Format.BandEdges | bot.js:18-23 | 1,000,000 is rendered as 1 with 2 decimals and "M$"; 999,999.999 and 1 take "$" with 2 decimals; 0.999999 takes "$" with 6 decimals |
| Format.BandMonotone | bot.js:18-23 | a larger price never falls in a lower band |
| Format.SameBandSameShape | bot.js:18-23 | two prices in the same band get the same prefix, suffix and digit count |
| PriceSource.PairSymbol | bot.js:42 | the symbol is the base symbol, then '/', then the quote symbol, and splits back into them |
| PriceSource.ToQuote | bot.js:28-48 | `null` iff the request failed, `pairs` is absent, or `pairs` is empty; otherwise the quote takes its price and exchange from the first pair, and its symbol is the first pair's base symbol, '/', and its quote symbol |
| PriceSource.FirstPairDecides | bot.js:38 | pairs after the first have no influence on the quote |
| Evaluator.PercentChange | bot.js:86 | change × previous = (current − previous) × 100; the change is positive iff the price rose and zero iff it did not move |
| Evaluator.Classify | bot.js:86-96 | rising iff current ≥ 1.1 × previous, falling iff current ≤ 0.9 × previous, unchanged iff strictly in between (the ±10 % thresholds inclusive) |
| Evaluator.Evaluate | bot.js:81-97 | no entry for an address with no stored price; an entry iff the stored price exists and the move crosses a threshold; the entry carries the address, the pair symbol, the `formatPrice` rendering of the new price, the signed change, and a direction that is rising iff the price reached 1.1 × the stored price |
| Evaluator.ThresholdBoundaries | bot.js:88-96 | 100 → 110 rises, 100 → 109.99 does not, 100 → 90 falls, 100 → 90.01 does not |
| Evaluator.SamePriceUnchanged | bot.js:86-96 | an unchanged price never alerts |
| AlertCycle.Step | bot.js:78-101 | a failed fetch changes nothing and raises nothing; a successful one stores the fetched price under the address, keeps every other entry, and raises at most one alert, which is the evaluation of the quote against the price stored before it |
| AlertCycle.Visit | bot.js:80-100 | the loop body written with assignments, as in the source, yields the same stored prices and alert as `AlertCycle.Step` |
| AlertCycle.Sweep | bot.js:77-102 | the loop keeps every stored price positive and raises no more alerts than there are configured addresses |
| AlertCycle.SweepFrame | bot.js:77-102 | the loop adds exactly the successfully fetched addresses to the stored prices, keeps every other entry's price, removes nothing, and reports alerts only for fetched addresses and never as "unchanged" |
| AlertCycle.Cycle | bot.js:73-109 | stored prices stay positive; no entry is ever removed; keys grow by exactly the fetched addresses; unfetched and unlisted entries keep their price; a message is sent iff there is at least one alert, and it is the banner followed by the alerts |
| AlertCycle.Run | bot.js:73-109 | the imperative loop with its message buffer and `hasAlert` flag yields the same stored prices and message as `Cycle` |
| CycleProperties.LastFetchWins | bot.js:80-100 | after a run, an address maps to the price of its last successful fetch, whatever the classification |
| CycleProperties.FetchedPricesStored | bot.js:99-100 | with distinct addresses, every successfully fetched address maps to its fetched price |
| CycleProperties.FirstSeenNoAlert | bot.js:84 | an address with no stored price that is fetched successfully at most once produces no alert |
| CycleProperties.ExpectedAlertsContents | bot.js:84-96 | every reference entry is the evaluation of a fetched address against the prices before the run, and every such evaluation that alerts is in the list |
| CycleProperties.SweepMatchesReference | bot.js:77-102 | with distinct addresses, the loop's alerts are exactly the reference list, which judges each address against the prices before the loop, in configured order |
| CycleProperties.AlertsMatchReference | bot.js:77-102 | with distinct addresses, the run's alerts are exactly the reference list, which judges each address against the prices before the run, in configured order |
| CycleProperties.AlertIffThresholdCrossed | bot.js:84-96 | with distinct addresses, a fetched address has an alert iff it had a stored price and the move reached ±10 % |
| CycleProperties.AlertsAreEvaluations | bot.js:84-96 | with distinct addresses, each alert of a run is the evaluation of some fetched address against the prices before the run |
| CycleProperties.SweepSplit | bot.js:77-102 | running the loop over the whole address list equals running it over the first `n` addresses and then over the rest from the prices the first part left; the alerts concatenate |
| CycleProperties.AlertsInConfiguredOrder | bot.js:77-95 | the alerts raised by a prefix of the configuration come before those raised by the rest |
| CycleProperties.FailedFetchIsSkipped | bot.js:78-80 | a run with a failed fetch equals the run without that address: nothing is stored, evaluated or reported for it |
| CycleProperties.SecondRunQuiet | bot.js:84-100 | a second run with the same fetch outcomes raises no alert, sends nothing and leaves the stored prices unchanged |

## Left out

- The HTTP requests to Dexscreener and Telegram, JSON decoding and `parseFloat` are network and runtime I/O. A reply is an input `Response`, and a fetch outcome is an input `Option<Quote>`.
- Telegram delivery and its swallowed errors are a network side effect. A run only produces the message it would hand over.
- Loading `.env` and splitting `TOKEN_ADDRESSES` is configuration plumbing. The address list is an input.
- The `setInterval` schedule and the unawaited `main()` calls are not modelled. Overlapping runs against the shared map are a concurrency concern outside a pure model.
- IEEE double behaviour is not modelled. This covers `toFixed` rounding and digit rendering, `NaN` from an unreadable price (which `bot.js` stores like any price instead of treating the fetch as failed), and the infinity or `NaN` that a stored price of 0 would cause. Prices are reals, and both stored and fetched prices are required to be positive.
- AlertCycle.Cycle: requires every stored and every fetched price to be positive. The source accepts any number; a zero or `NaN` price is IEEE behaviour left out above.
- AlertCycle.Run: requires positive stored and fetched prices, as `AlertCycle.Cycle` does.
- Evaluator.Classify: requires a positive stored price. With a stored price of 0 the source divides by zero.
- Evaluator.Evaluate: requires positive stored prices, for the same reason as `Evaluator.Classify`.
- PriceSource.ToQuote: a pair whose `baseToken` or `quoteToken` is missing makes the JavaScript throw (the fetch becomes `null`) or print "undefined". Pairs here always carry both symbols.
- The exact Arabic and emoji wording of the alert lines is not modelled. An alert entry keeps its parts: symbol, rendered price, signed change and direction. The banner text is kept verbatim.
