/**
 One run of `main` (bot.js): walk the configured token addresses in order,
 compare every successfully fetched price with the stored one, overwrite the
 stored price, and send one consolidated message when any alert was raised.
 The fetch outcome of each address is an input (`None` where `getTokenPrice`
 returned `null`), so the run is a pure function of the stored prices, the
 configured addresses and the fetch outcomes.
 */
module AlertCycle {
  import opened Wrappers
  import opened PriceSource
  import opened Evaluator

  /** The header put in front of the alert entries. */
  const Banner: string := "🚨 *تنبيه هام!* 🚨\n\n"

  /** The consolidated message: the banner followed by the alert entries. */
  datatype Notice = Notice(banner: string, entries: seq<Alert>)

  /** What one run leaves behind: the stored prices, the alert entries in the
      order they were raised, and the message handed to Telegram, if any. */
  datatype Outcome = Outcome(stored: Prices, alerts: seq<Alert>, message: Option<Notice>) {
    predicate Sent() {
      message.Some?
    }
  }

  /** Every quote that was fetched carries a positive price. */
  predicate ValidFetches(fetched: seq<Option<Quote>>) {
    forall q :: q in fetched && q.Some? ==> q.value.price > 0.0
  }

  /** Every suffix and every prefix of valid fetch outcomes is valid. */
  lemma ValidFetchesSlices(fetched: seq<Option<Quote>>, n: nat)
    requires ValidFetches(fetched) && n <= |fetched|
    ensures ValidFetches(fetched[n..]) && ValidFetches(fetched[..n])
  {
    forall k | 0 <= k < |fetched[n..]| && fetched[n..][k].Some?
      ensures fetched[n..][k].value.price > 0.0
    {
      assert fetched[n..][k] == fetched[n + k];
    }
  }

  /** The addresses whose fetch succeeded at least once in the run. */
  function Succeeded(addrs: seq<string>, fetched: seq<Option<Quote>>): set<string>
    requires |addrs| == |fetched|
  {
    set i | 0 <= i < |addrs| && fetched[i].Some? :: addrs[i]
  }

  /** No address is configured twice. */
  predicate Distinct(addrs: seq<string>) {
    forall i, j :: 0 <= i < j < |addrs| ==> addrs[i] != addrs[j]
  }

  /** An address configured more than once is quoted the same price each time it is fetched. */
  predicate Consistent(addrs: seq<string>, fetched: seq<Option<Quote>>) {
    && |addrs| == |fetched|
    && forall i, j ::
         0 <= i < |addrs| && 0 <= j < |addrs| && addrs[i] == addrs[j] && fetched[i].Some? && fetched[j].Some?
         ==> fetched[i].value.price == fetched[j].value.price
  }

  lemma SucceededCons(addrs: seq<string>, fetched: seq<Option<Quote>>)
    requires |addrs| == |fetched| > 0
    ensures Succeeded(addrs, fetched)
            == (if fetched[0].Some? then {addrs[0]} else {}) + Succeeded(addrs[1..], fetched[1..])
  {
    var head: set<string> := if fetched[0].Some? then {addrs[0]} else {};
    forall a | a in Succeeded(addrs, fetched)
      ensures a in head + Succeeded(addrs[1..], fetched[1..])
    {
      var i :| 0 <= i < |addrs| && fetched[i].Some? && addrs[i] == a;
      if i > 0 {
        assert addrs[1..][i - 1] == a && fetched[1..][i - 1].Some?;
      }
    }
    forall a | a in Succeeded(addrs[1..], fetched[1..])
      ensures a in Succeeded(addrs, fetched)
    {
      var i :| 0 <= i < |addrs| - 1 && fetched[1..][i].Some? && addrs[1..][i] == a;
      assert addrs[i + 1] == a && fetched[i + 1].Some?;
    }
  }

  /** One iteration of the loop in `main`. */
  function Step(stored: Prices, address: string, fetched: Option<Quote>): (r: (Prices, seq<Alert>))
    requires PositivePrices(stored)
    requires fetched.Some? ==> fetched.value.price > 0.0
    ensures PositivePrices(r.0)
    ensures fetched.None? ==> r.0 == stored && r.1 == []
    ensures fetched.Some? ==> r.0.Keys == stored.Keys + {address} && r.0[address] == fetched.value.price
    ensures forall a :: a in stored && a != address ==> r.0[a] == stored[a]
    ensures |r.1| <= 1
    ensures fetched.Some? ==> r.1 == ToSeq(Evaluate(stored, address, fetched.value))
  {
    match fetched
    case None => (stored, [])
    case Some(q) => (stored[address := q.price], ToSeq(Evaluate(stored, address, q)))
  }

  /** The loop of `main` over the addresses from the first to the last. */
  function Sweep(stored: Prices, addrs: seq<string>, fetched: seq<Option<Quote>>): (r: (Prices, seq<Alert>))
    requires |addrs| == |fetched|
    requires PositivePrices(stored) && ValidFetches(fetched)
    ensures PositivePrices(r.0)
    ensures |r.1| <= |addrs|
    decreases |addrs|
  {
    if |addrs| == 0 then (stored, [])
    else
      var s := Step(stored, addrs[0], fetched[0]);
      var rest := Sweep(s.0, addrs[1..], fetched[1..]);
      (rest.0, s.1 + rest.1)
  }

  /** One unfolding of the loop: the first address, then the rest from the updated prices. */
  lemma SweepCons(stored: Prices, addrs: seq<string>, fetched: seq<Option<Quote>>)
    requires |addrs| == |fetched| > 0 && PositivePrices(stored) && ValidFetches(fetched)
    ensures var s := Step(stored, addrs[0], fetched[0]);
            var rest := Sweep(s.0, addrs[1..], fetched[1..]);
            Sweep(stored, addrs, fetched) == (rest.0, s.1 + rest.1)
  {
  }

  /** The loop adds exactly the successfully fetched addresses to the stored
      prices, leaves every other entry as it was, and only reports alerts for
      fetched addresses. */
  lemma {:induction false} SweepFrame(stored: Prices, addrs: seq<string>, fetched: seq<Option<Quote>>)
    requires |addrs| == |fetched|
    requires PositivePrices(stored) && ValidFetches(fetched)
    ensures Sweep(stored, addrs, fetched).0.Keys == stored.Keys + Succeeded(addrs, fetched)
    ensures forall a :: a in stored && a !in Succeeded(addrs, fetched) ==> Sweep(stored, addrs, fetched).0[a] == stored[a]
    ensures forall k :: 0 <= k < |Sweep(stored, addrs, fetched).1| ==>
              Sweep(stored, addrs, fetched).1[k].address in Succeeded(addrs, fetched)
              && Sweep(stored, addrs, fetched).1[k].kind != Unchanged
    decreases |addrs|
  {
    if |addrs| > 0 {
      SucceededCons(addrs, fetched);
      var s := Step(stored, addrs[0], fetched[0]);
      SweepFrame(s.0, addrs[1..], fetched[1..]);
      var rest := Sweep(s.0, addrs[1..], fetched[1..]);
      assert Sweep(stored, addrs, fetched) == (rest.0, s.1 + rest.1);
    }
  }

  /** One full run of `main`. */
  function Cycle(stored: Prices, addrs: seq<string>, fetched: seq<Option<Quote>>): (o: Outcome)
    requires |addrs| == |fetched|
    requires PositivePrices(stored) && ValidFetches(fetched)
    ensures PositivePrices(o.stored)
    // No entry is ever removed: the loop only assigns into the map. Implied by the next clause.
    ensures stored.Keys <= o.stored.Keys
    ensures o.stored.Keys == stored.Keys + Succeeded(addrs, fetched)
    ensures forall a :: a in stored && a !in Succeeded(addrs, fetched) ==> o.stored[a] == stored[a]
    ensures forall k :: 0 <= k < |o.alerts| ==> o.alerts[k].address in Succeeded(addrs, fetched)
    ensures forall k :: 0 <= k < |o.alerts| ==> o.alerts[k].kind != Unchanged
    ensures o.Sent() <==> |o.alerts| > 0
    ensures o.Sent() ==> o.message.value.banner == Banner && o.message.value.entries == o.alerts
  {
    SweepFrame(stored, addrs, fetched);
    var (prices, alerts) := Sweep(stored, addrs, fetched);
    Outcome(prices, alerts, if |alerts| > 0 then Some(Notice(Banner, alerts)) else None)
  }

  lemma AppendAssoc<T>(a: seq<T>, b: seq<T>, c: seq<T>)
    ensures a + (b + c) == (a + b) + c
  {
  }

  /** The body of the loop of `main` for one address: nothing happens when the
      fetch failed; otherwise the quote is evaluated against the stored price and
      then becomes the stored price. */
  method Visit(stored: Prices, address: string, fetched: Option<Quote>) returns (prices: Prices, alert: Option<Alert>)
    requires PositivePrices(stored)
    requires fetched.Some? ==> fetched.value.price > 0.0
    ensures (prices, ToSeq(alert)) == Step(stored, address, fetched)
  {
    prices, alert := stored, None;
    match fetched {
      case None =>
      case Some(quote) =>
        alert := Evaluate(stored, address, quote);
        prices := stored[address := quote.price];
    }
  }

  /** The loop over the first `n` configured addresses. */
  function Prefix(stored: Prices, addrs: seq<string>, fetched: seq<Option<Quote>>, n: nat): (r: (Prices, seq<Alert>))
    requires |addrs| == |fetched| && n <= |addrs|
    requires PositivePrices(stored) && ValidFetches(fetched)
    ensures PositivePrices(r.0)
    ensures n == 0 ==> r == (stored, [])
    ensures n == |addrs| ==> r == Sweep(stored, addrs, fetched)
  {
    ValidFetchesSlices(fetched, n);
    assert n == 0 ==> addrs[..n] == [] && fetched[..n] == [];
    assert n == |addrs| ==> addrs[..n] == addrs && fetched[..n] == fetched;
    Sweep(stored, addrs[..n], fetched[..n])
  }

  /** The loop over the first `n` addresses, `n > 0`, is the step for the
      first address followed by the loop over the next `n - 1`. */
  lemma PrefixCons(stored: Prices, addrs: seq<string>, fetched: seq<Option<Quote>>, n: nat)
    requires |addrs| == |fetched| && 0 < n <= |addrs|
    requires PositivePrices(stored) && ValidFetches(fetched)
    ensures ValidFetches(fetched[1..])
    ensures var first := Step(stored, addrs[0], fetched[0]);
            var rest := Prefix(first.0, addrs[1..], fetched[1..], n - 1);
            Prefix(stored, addrs, fetched, n) == (rest.0, first.1 + rest.1)
  {
    ValidFetchesSlices(fetched, 1);
    ValidFetchesSlices(fetched, n);
    ValidFetchesSlices(fetched[1..], n - 1);
    assert addrs[..n][1..] == addrs[1..][..n - 1] && fetched[..n][1..] == fetched[1..][..n - 1];
    SweepCons(stored, addrs[..n], fetched[..n]);
  }

  /** The loop over the first `n + 1` addresses is the loop over the first `n`
      followed by the step for address `n`. */
  lemma {:induction false} PrefixSnoc(stored: Prices, addrs: seq<string>, fetched: seq<Option<Quote>>, n: nat)
    requires |addrs| == |fetched| && n < |addrs|
    requires PositivePrices(stored) && ValidFetches(fetched)
    ensures var p := Prefix(stored, addrs, fetched, n);
            var s := Step(p.0, addrs[n], fetched[n]);
            Prefix(stored, addrs, fetched, n + 1) == (s.0, p.1 + s.1)
    decreases n
  {
    var first := Step(stored, addrs[0], fetched[0]);
    PrefixCons(stored, addrs, fetched, n + 1);
    if n == 0 {
      assert first.1 + [] == first.1 && [] + first.1 == first.1;
    } else {
      PrefixCons(stored, addrs, fetched, n);
      PrefixSnoc(first.0, addrs[1..], fetched[1..], n - 1);
      var q := Prefix(first.0, addrs[1..], fetched[1..], n - 1);
      AppendAssoc(first.1, q.1, Step(q.0, addrs[n], fetched[n]).1);
    }
  }

  /** The loop of `main` as written: a mutable price map, a message buffer and a
      `hasAlert` flag, updated address by address. It computes the same
      outcome as `Cycle`. */
  method Run(stored: Prices, addrs: seq<string>, fetched: seq<Option<Quote>>) returns (prices: Prices, message: Option<Notice>)
    requires |addrs| == |fetched|
    requires PositivePrices(stored) && ValidFetches(fetched)
    ensures prices == Cycle(stored, addrs, fetched).stored
    ensures message == Cycle(stored, addrs, fetched).message
  {
    prices := stored;
    var entries: seq<Alert> := [];
    var hasAlert := false;
    var i := 0;
    while i < |addrs|
      invariant i <= |addrs|
      invariant hasAlert <==> |entries| > 0
      invariant (prices, entries) == Prefix(stored, addrs, fetched, i)
    {
      PrefixSnoc(stored, addrs, fetched, i);
      ghost var before := entries;
      var alert;
      prices, alert := Visit(prices, addrs[i], fetched[i]);
      if alert.Some? {
        entries := entries + [alert.value];
        hasAlert := true;
      }
      assert entries == before + ToSeq(alert);
      i := i + 1;
    }
    message := if hasAlert then Some(Notice(Banner, entries)) else None;
  }
}
