/**
 Band selection of `formatPrice` (bot.js). The digits that `toFixed` renders
 are not modelled: a rendering keeps the amount `toFixed` is applied to, the
 number of fractional digits it is asked for, and the text around it.
 */
module Format {

  const Million: real := 1_000_000.0

  /** The three display bands, from the largest prices down. */
  datatype Band = Millions | Dollars | SubDollar

  /** `prefix + amount.toFixed(decimals) + suffix`, with the digits left abstract. */
  datatype Rendering = Rendering(prefix: string, amount: real, decimals: nat, suffix: string)

  /** The band a price falls in; every lower edge is inclusive. */
  function BandOf(price: real): (b: Band)
    ensures b == Millions <==> Million <= price
    ensures b == Dollars <==> 1.0 <= price < Million
    ensures b == SubDollar <==> price < 1.0
  {
    if price >= Million then Millions
    else if price >= 1.0 then Dollars
    else SubDollar
  }

  /** Position of a band on the price axis, smallest prices first. */
  function Rank(b: Band): nat {
    match b
    case SubDollar => 0
    case Dollars => 1
    case Millions => 2
  }

  /** The price a rendering denotes, reading "M$" as a factor of one million. */
  function Denotation(r: Rendering): real {
    if r.suffix == "M$" then r.amount * Million else r.amount
  }

  function FormatPrice(price: real): (r: Rendering)
    ensures r.suffix == "M$" <==> Million <= price
    ensures r.suffix == "" <==> price < Million
    ensures r.prefix == "$" <==> price < Million
    ensures r.prefix == "" <==> Million <= price
    ensures r.decimals == 2 <==> 1.0 <= price
    ensures r.decimals == 6 <==> price < 1.0
    ensures Million <= price ==> 1.0 <= r.amount
    ensures Denotation(r) == price
  {
    match BandOf(price)
    case Millions => Rendering("", price / Million, 2, "M$")
    case Dollars => Rendering("$", price, 2, "")
    case SubDollar => Rendering("$", price, 6, "")
  }

  /** A larger price never falls in a lower band. */
  lemma BandMonotone(p: real, q: real)
    requires p <= q
    ensures Rank(BandOf(p)) <= Rank(BandOf(q))
  {
  }

  /** Two prices in the same band are rendered the same way around the digits. */
  lemma SameBandSameShape(p: real, q: real)
    requires BandOf(p) == BandOf(q)
    ensures FormatPrice(p).prefix == FormatPrice(q).prefix
    ensures FormatPrice(p).suffix == FormatPrice(q).suffix
    ensures FormatPrice(p).decimals == FormatPrice(q).decimals
  {
  }

  /** The band edges: one million is the first "M$" price, one dollar the first two-decimal price. */
  lemma BandEdges()
    ensures FormatPrice(1_000_000.0) == Rendering("", 1.0, 2, "M$")
    ensures FormatPrice(999_999.999) == Rendering("$", 999_999.999, 2, "")
    ensures FormatPrice(1.0) == Rendering("$", 1.0, 2, "")
    ensures FormatPrice(0.999999) == Rendering("$", 0.999999, 6, "")
  {
  }
}
