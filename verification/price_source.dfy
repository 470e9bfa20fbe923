/**
 The part of `getTokenPrice` (bot.js) that does not touch the network: how a
 Dexscreener reply becomes a quote or `null`. The HTTP request and the JSON
 decoding are abstracted into a `Response`; `parseFloat` is abstracted into a
 `real` already carried by the pair.
 */
module PriceSource {
  import opened Wrappers

  /** One trading-pair record of the reply. */
  datatype Pair = Pair(priceUsd: real, dexId: string, baseSymbol: string, quoteSymbol: string)

  /** A reply: the request or the JSON decoding threw, or a body whose `pairs`
      field may be absent. */
  datatype Response = Failed | Body(pairs: Option<seq<Pair>>)

  /** What a successful fetch yields. */
  datatype Quote = Quote(price: real, exchange: string, symbol: string)

  /** The display symbol of a pair, "BASE/QUOTE". */
  function PairSymbol(base: string, quote: string): (s: string)
    ensures |s| == |base| + 1 + |quote|
    ensures s[..|base|] == base && s[|base|] == '/' && s[|base| + 1..] == quote
  {
    base + "/" + quote
  }

  function ToQuote(resp: Response): (q: Option<Quote>)
    ensures q.None? <==> resp.Failed? || resp.pairs.None? || |resp.pairs.value| == 0
    ensures q.Some? ==> q.value.price == resp.pairs.value[0].priceUsd
    ensures q.Some? ==> q.value.exchange == resp.pairs.value[0].dexId
    ensures q.Some? ==> q.value.symbol == PairSymbol(resp.pairs.value[0].baseSymbol, resp.pairs.value[0].quoteSymbol)
  {
    match resp
    case Failed => None
    case Body(None) => None
    case Body(Some(pairs)) =>
      if |pairs| == 0 then None
      else
        var p := pairs[0];
        Some(Quote(p.priceUsd, p.dexId, PairSymbol(p.baseSymbol, p.quoteSymbol)))
  }

  /** Only the first pair of a reply matters. */
  lemma FirstPairDecides(p: Pair, rest: seq<Pair>, other: seq<Pair>)
    ensures ToQuote(Body(Some([p] + rest))) == ToQuote(Body(Some([p] + other)))
  {
  }
}
