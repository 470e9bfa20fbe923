/**
 Properties of one run of `main` that relate several calls or hold for all
 inputs: which price ends up stored, the first-seen exemption, skipping a
 failed fetch, the alert list against an independent reference, and the
 quiet second run.
 */
module CycleProperties {
  import opened Wrappers
  import opened PriceSource
  import opened Evaluator
  import opened AlertCycle

  /** The last successful fetch of an address decides its stored price. */
  lemma {:induction false} SweepLastFetchWins(stored: Prices, addrs: seq<string>, fetched: seq<Option<Quote>>, i: nat)
    requires |addrs| == |fetched| && PositivePrices(stored) && ValidFetches(fetched)
    requires i < |addrs| && fetched[i].Some?
    requires forall j :: i < j < |addrs| && addrs[j] == addrs[i] ==> fetched[j].None?
    ensures addrs[i] in Sweep(stored, addrs, fetched).0
    ensures Sweep(stored, addrs, fetched).0[addrs[i]] == fetched[i].value.price
    decreases i
  {
    var s := Step(stored, addrs[0], fetched[0]);
    SweepCons(stored, addrs, fetched);
    if i > 0 {
      SweepLastFetchWins(s.0, addrs[1..], fetched[1..], i - 1);
    } else {
      SweepFrame(s.0, addrs[1..], fetched[1..]);
    }
  }

  /** After a run, an address maps to the price of its last successful fetch,
      whatever that fetch was classified as. */
  lemma LastFetchWins(stored: Prices, addrs: seq<string>, fetched: seq<Option<Quote>>, i: nat)
    requires |addrs| == |fetched| && PositivePrices(stored) && ValidFetches(fetched)
    requires i < |addrs| && fetched[i].Some?
    requires forall j :: i < j < |addrs| && addrs[j] == addrs[i] ==> fetched[j].None?
    ensures Cycle(stored, addrs, fetched).stored[addrs[i]] == fetched[i].value.price
  {
    SweepLastFetchWins(stored, addrs, fetched, i);
  }

  /** With no address configured twice, every successful fetch is stored. */
  lemma FetchedPricesStored(stored: Prices, addrs: seq<string>, fetched: seq<Option<Quote>>)
    requires |addrs| == |fetched| && PositivePrices(stored) && ValidFetches(fetched)
    requires Distinct(addrs)
    ensures forall i :: 0 <= i < |addrs| && fetched[i].Some? ==>
              Cycle(stored, addrs, fetched).stored[addrs[i]] == fetched[i].value.price
  {
    forall i | 0 <= i < |addrs| && fetched[i].Some?
      ensures Cycle(stored, addrs, fetched).stored[addrs[i]] == fetched[i].value.price
    {
      LastFetchWins(stored, addrs, fetched, i);
    }
  }

  /** An address with no stored price that is fetched successfully at most once
      in the run never produces an alert. */
  lemma {:induction false} SweepFirstSeenNoAlert(stored: Prices, addrs: seq<string>, fetched: seq<Option<Quote>>, a: string)
    requires |addrs| == |fetched| && PositivePrices(stored) && ValidFetches(fetched)
    requires a !in stored
    requires forall i, j :: 0 <= i < j < |addrs| && addrs[i] == a && addrs[j] == a ==> fetched[i].None? || fetched[j].None?
    ensures forall k :: 0 <= k < |Sweep(stored, addrs, fetched).1| ==> Sweep(stored, addrs, fetched).1[k].address != a
    decreases |addrs|
  {
    if |addrs| > 0 {
      var s := Step(stored, addrs[0], fetched[0]);
      var rest := Sweep(s.0, addrs[1..], fetched[1..]);
      SweepCons(stored, addrs, fetched);
      if addrs[0] == a && fetched[0].Some? {
        assert s.1 == [];
        SweepFrame(s.0, addrs[1..], fetched[1..]);
      } else {
        assert a !in s.0;
        forall i, j | 0 <= i < j < |addrs| - 1 && addrs[1..][i] == a && addrs[1..][j] == a
          ensures fetched[1..][i].None? || fetched[1..][j].None?
        {
          assert addrs[i + 1] == a && addrs[j + 1] == a;
        }
        SweepFirstSeenNoAlert(s.0, addrs[1..], fetched[1..], a);
      }
    }
  }

  lemma FirstSeenNoAlert(stored: Prices, addrs: seq<string>, fetched: seq<Option<Quote>>, a: string)
    requires |addrs| == |fetched| && PositivePrices(stored) && ValidFetches(fetched)
    requires a !in stored
    requires forall i, j :: 0 <= i < j < |addrs| && addrs[i] == a && addrs[j] == a ==> fetched[i].None? || fetched[j].None?
    ensures forall k :: 0 <= k < |Cycle(stored, addrs, fetched).alerts| ==> Cycle(stored, addrs, fetched).alerts[k].address != a
  {
    SweepFirstSeenNoAlert(stored, addrs, fetched, a);
  }

  /** Reference alert list: each successfully fetched address judged against the
      prices stored BEFORE the run, kept in configured-address order. */
  function ExpectedAlerts(stored: Prices, addrs: seq<string>, fetched: seq<Option<Quote>>): seq<Alert>
    requires |addrs| == |fetched| && PositivePrices(stored)
    decreases |addrs|
  {
    if |addrs| == 0 then []
    else
      var head := match fetched[0]
        case None => []
        case Some(q) => ToSeq(Evaluate(stored, addrs[0], q));
      head + ExpectedAlerts(stored, addrs[1..], fetched[1..])
  }

  /** Every reference entry is the evaluation of some successfully fetched
      address, and every evaluation that yields an entry is in the list. */
  lemma {:induction false} ExpectedAlertsContents(stored: Prices, addrs: seq<string>, fetched: seq<Option<Quote>>)
    requires |addrs| == |fetched| && PositivePrices(stored)
    ensures forall k :: 0 <= k < |ExpectedAlerts(stored, addrs, fetched)| ==>
              exists i :: 0 <= i < |addrs| && fetched[i].Some?
                && Evaluate(stored, addrs[i], fetched[i].value) == Some(ExpectedAlerts(stored, addrs, fetched)[k])
    ensures forall i :: 0 <= i < |addrs| && fetched[i].Some? && Evaluate(stored, addrs[i], fetched[i].value).Some? ==>
              Evaluate(stored, addrs[i], fetched[i].value).value in ExpectedAlerts(stored, addrs, fetched)
    decreases |addrs|
  {
    if |addrs| > 0 {
      var e := ExpectedAlerts(stored, addrs, fetched);
      var tail := ExpectedAlerts(stored, addrs[1..], fetched[1..]);
      ExpectedAlertsContents(stored, addrs[1..], fetched[1..]);
      var head := match fetched[0]
        case None => []
        case Some(q) => ToSeq(Evaluate(stored, addrs[0], q));
      assert e == head + tail;
      forall k | 0 <= k < |e|
        ensures exists i :: 0 <= i < |addrs| && fetched[i].Some? && Evaluate(stored, addrs[i], fetched[i].value) == Some(e[k])
      {
        if k < |head| {
          assert fetched[0].Some? && e[k] == head[0];
          assert Evaluate(stored, addrs[0], fetched[0].value) == Some(e[k]);
        } else {
          assert e[k] == tail[k - |head|];
          var i :| 0 <= i < |addrs| - 1 && fetched[1..][i].Some?
                   && Evaluate(stored, addrs[1..][i], fetched[1..][i].value) == Some(tail[k - |head|]);
          assert addrs[i + 1] == addrs[1..][i] && fetched[i + 1] == fetched[1..][i];
          assert Evaluate(stored, addrs[i + 1], fetched[i + 1].value) == Some(e[k]);
        }
      }
      forall i | 0 <= i < |addrs| && fetched[i].Some? && Evaluate(stored, addrs[i], fetched[i].value).Some?
        ensures Evaluate(stored, addrs[i], fetched[i].value).value in e
      {
        if i > 0 {
          assert addrs[1..][i - 1] == addrs[i] && fetched[1..][i - 1] == fetched[i];
        }
      }
    } else {
      assert ExpectedAlerts(stored, addrs, fetched) == [];
    }
  }

  /** The reference list only looks at the stored prices of configured addresses. */
  lemma {:induction false} ExpectedAlertsFrame(s1: Prices, s2: Prices, addrs: seq<string>, fetched: seq<Option<Quote>>)
    requires |addrs| == |fetched| && PositivePrices(s1) && PositivePrices(s2)
    requires forall i :: 0 <= i < |addrs| ==> (addrs[i] in s1 <==> addrs[i] in s2)
    requires forall i :: 0 <= i < |addrs| && addrs[i] in s1 ==> s1[addrs[i]] == s2[addrs[i]]
    ensures ExpectedAlerts(s1, addrs, fetched) == ExpectedAlerts(s2, addrs, fetched)
    decreases |addrs|
  {
    if |addrs| > 0 {
      ExpectedAlertsFrame(s1, s2, addrs[1..], fetched[1..]);
    }
  }

  /** With no address configured twice, the loop raises exactly the reference alerts. */
  lemma {:induction false} SweepMatchesReference(stored: Prices, addrs: seq<string>, fetched: seq<Option<Quote>>)
    requires |addrs| == |fetched| && PositivePrices(stored) && ValidFetches(fetched)
    requires Distinct(addrs)
    ensures Sweep(stored, addrs, fetched).1 == ExpectedAlerts(stored, addrs, fetched)
    decreases |addrs|
  {
    if |addrs| > 0 {
      var s := Step(stored, addrs[0], fetched[0]);
      SweepMatchesReference(s.0, addrs[1..], fetched[1..]);
      forall i | 0 <= i < |addrs| - 1
        ensures addrs[1..][i] != addrs[0]
      {
        assert addrs[1..][i] == addrs[i + 1];
      }
      ExpectedAlertsFrame(s.0, stored, addrs[1..], fetched[1..]);
    }
  }

  /** With no address configured twice, the alerts of a run are exactly the
      reference list: each address is judged against its price from before the
      run, a failed fetch contributes nothing, and the order is the configured one. */
  lemma AlertsMatchReference(stored: Prices, addrs: seq<string>, fetched: seq<Option<Quote>>)
    requires |addrs| == |fetched| && PositivePrices(stored) && ValidFetches(fetched)
    requires Distinct(addrs)
    ensures Cycle(stored, addrs, fetched).alerts == ExpectedAlerts(stored, addrs, fetched)
  {
    SweepMatchesReference(stored, addrs, fetched);
  }

  /** With no address configured twice, a successfully fetched address gets an
      alert entry exactly when it had a stored price and moved by at least ten
      percent either way. */
  lemma AlertIffThresholdCrossed(stored: Prices, addrs: seq<string>, fetched: seq<Option<Quote>>)
    requires |addrs| == |fetched| && PositivePrices(stored) && ValidFetches(fetched)
    requires Distinct(addrs)
    ensures forall i :: 0 <= i < |addrs| && fetched[i].Some? ==>
              ((exists k :: 0 <= k < |Cycle(stored, addrs, fetched).alerts| && Cycle(stored, addrs, fetched).alerts[k].address == addrs[i])
               <==> addrs[i] in stored && Classify(stored[addrs[i]], fetched[i].value.price) != Unchanged)
  {
    var e := ExpectedAlerts(stored, addrs, fetched);
    AlertsMatchReference(stored, addrs, fetched);
    ExpectedAlertsContents(stored, addrs, fetched);
    forall i | 0 <= i < |addrs| && fetched[i].Some?
      ensures (exists k :: 0 <= k < |e| && e[k].address == addrs[i])
              <==> addrs[i] in stored && Classify(stored[addrs[i]], fetched[i].value.price) != Unchanged
    {
      AlertForAddress(stored, addrs, fetched, e, i);
    }
  }

  /** With no address configured twice, each alert of a run is the evaluation
      of some fetched address against the prices before the run. */
  lemma AlertsAreEvaluations(stored: Prices, addrs: seq<string>, fetched: seq<Option<Quote>>)
    requires |addrs| == |fetched| && PositivePrices(stored) && ValidFetches(fetched)
    requires Distinct(addrs)
    ensures forall k :: 0 <= k < |Cycle(stored, addrs, fetched).alerts| ==>
              exists i :: 0 <= i < |addrs| && fetched[i].Some?
                && Evaluate(stored, addrs[i], fetched[i].value) == Some(Cycle(stored, addrs, fetched).alerts[k])
  {
    var e := ExpectedAlerts(stored, addrs, fetched);
    AlertsMatchReference(stored, addrs, fetched);
    ExpectedAlertsContents(stored, addrs, fetched);
    forall k | 0 <= k < |Cycle(stored, addrs, fetched).alerts|
      ensures exists i :: 0 <= i < |addrs| && fetched[i].Some?
                && Evaluate(stored, addrs[i], fetched[i].value) == Some(Cycle(stored, addrs, fetched).alerts[k])
    {
      assert Cycle(stored, addrs, fetched).alerts[k] == e[k];
      var i :| 0 <= i < |addrs| && fetched[i].Some? && Evaluate(stored, addrs[i], fetched[i].value) == Some(e[k]);
    }
  }

  /** For one fetched address of a distinct configuration: a list made exactly of
      the alerting evaluations holds an entry for it iff its evaluation alerts. */
  lemma AlertForAddress(stored: Prices, addrs: seq<string>, fetched: seq<Option<Quote>>, e: seq<Alert>, i: nat)
    requires |addrs| == |fetched| && PositivePrices(stored) && Distinct(addrs)
    requires forall k :: 0 <= k < |e| ==>
               exists m :: 0 <= m < |addrs| && fetched[m].Some? && Evaluate(stored, addrs[m], fetched[m].value) == Some(e[k])
    requires forall j :: 0 <= j < |addrs| && fetched[j].Some? && Evaluate(stored, addrs[j], fetched[j].value).Some? ==>
               Evaluate(stored, addrs[j], fetched[j].value).value in e
    requires i < |addrs| && fetched[i].Some?
    ensures (exists k :: 0 <= k < |e| && e[k].address == addrs[i])
            <==> addrs[i] in stored && Classify(stored[addrs[i]], fetched[i].value.price) != Unchanged
  {
    var ev := Evaluate(stored, addrs[i], fetched[i].value);
    if ev.Some? {
      var k :| 0 <= k < |e| && e[k] == ev.value;
      assert e[k].address == addrs[i];
    }
    if k :| 0 <= k < |e| && e[k].address == addrs[i] {
      var m :| 0 <= m < |addrs| && fetched[m].Some? && Evaluate(stored, addrs[m], fetched[m].value) == Some(e[k]);
      assert addrs[m] == addrs[i];
      assert m == i;
    }
  }

  /** Splitting the configuration at `n`: the loop over all addresses is the
      loop over the first `n` followed by the loop over the rest, started from
      the prices the first part left; the alerts concatenate. */
  lemma {:induction false} SweepSplit(stored: Prices, addrs: seq<string>, fetched: seq<Option<Quote>>, n: nat)
    requires |addrs| == |fetched| && PositivePrices(stored) && ValidFetches(fetched)
    requires n <= |addrs|
    ensures ValidFetches(fetched[..n]) && ValidFetches(fetched[n..])
    ensures var first := Sweep(stored, addrs[..n], fetched[..n]);
            var second := Sweep(first.0, addrs[n..], fetched[n..]);
            Sweep(stored, addrs, fetched) == (second.0, first.1 + second.1)
    decreases n
  {
    if n == 0 {
      assert addrs[n..] == addrs && fetched[n..] == fetched;
      var second := Sweep(stored, addrs, fetched);
      assert [] + second.1 == second.1;
    } else {
      var s := Step(stored, addrs[0], fetched[0]);
      var a', f' := addrs[1..], fetched[1..];
      assert ValidFetches(f');
      SweepSplit(s.0, a', f', n - 1);
      assert a'[n - 1..] == addrs[n..] && f'[n - 1..] == fetched[n..];
      assert addrs[..n][1..] == a'[..n - 1] && fetched[..n][1..] == f'[..n - 1];
      SweepCons(stored, addrs[..n], fetched[..n]);
      var first' := Sweep(s.0, a'[..n - 1], f'[..n - 1]);
      AppendAssoc(s.1, first'.1, Sweep(first'.0, addrs[n..], fetched[n..]).1);
    }
  }

  /** The alerts of a run come in configured-address order: the entries raised by
      a prefix of the configuration precede those raised by the rest. */
  lemma AlertsInConfiguredOrder(stored: Prices, addrs: seq<string>, fetched: seq<Option<Quote>>, n: nat)
    requires |addrs| == |fetched| && PositivePrices(stored) && ValidFetches(fetched)
    requires n <= |addrs|
    ensures ValidFetches(fetched[..n]) && ValidFetches(fetched[n..])
    ensures var first := Cycle(stored, addrs[..n], fetched[..n]);
            Cycle(stored, addrs, fetched).alerts == first.alerts + Cycle(first.stored, addrs[n..], fetched[n..]).alerts
  {
    SweepSplit(stored, addrs, fetched, n);
  }

  /** The sequence without its element at position `j`. */
  function RemoveAt<T>(s: seq<T>, j: nat): (r: seq<T>)
    requires j < |s|
    ensures |r| == |s| - 1
    ensures forall i :: 0 <= i < j ==> r[i] == s[i]
    ensures forall i :: j <= i < |r| ==> r[i] == s[i + 1]
  {
    s[..j] + s[j + 1..]
  }

  lemma RemoveAtTail<T>(s: seq<T>, j: nat)
    requires 0 < j < |s|
    ensures RemoveAt(s, j)[0] == s[0]
    ensures RemoveAt(s, j)[1..] == RemoveAt(s[1..], j - 1)
  {
  }

  lemma ValidFetchesRemoveAt(fetched: seq<Option<Quote>>, j: nat)
    requires ValidFetches(fetched) && j < |fetched|
    ensures ValidFetches(RemoveAt(fetched, j))
  {
    var r := RemoveAt(fetched, j);
    forall i | 0 <= i < |r| && r[i].Some?
      ensures r[i].value.price > 0.0
    {
      if i >= j {
        assert r[i] == fetched[i + 1];
      }
    }
  }

  /** Dropping a configured address whose fetch failed changes nothing in the loop. */
  lemma {:induction false} SweepSkipsFailedFetch(stored: Prices, addrs: seq<string>, fetched: seq<Option<Quote>>, j: nat)
    requires |addrs| == |fetched| && PositivePrices(stored) && ValidFetches(fetched)
    requires j < |addrs| && fetched[j].None?
    ensures ValidFetches(RemoveAt(fetched, j))
    ensures Sweep(stored, addrs, fetched) == Sweep(stored, RemoveAt(addrs, j), RemoveAt(fetched, j))
    decreases j
  {
    ValidFetchesRemoveAt(fetched, j);
    if j == 0 {
      assert RemoveAt(addrs, 0) == addrs[1..];
      assert RemoveAt(fetched, 0) == fetched[1..];
      var rest := Sweep(stored, addrs[1..], fetched[1..]);
      assert Sweep(stored, addrs, fetched) == (rest.0, [] + rest.1);
      assert [] + rest.1 == rest.1;
    } else {
      var s := Step(stored, addrs[0], fetched[0]);
      SweepSkipsFailedFetch(s.0, addrs[1..], fetched[1..], j - 1);
      RemoveAtTail(addrs, j);
      RemoveAtTail(fetched, j);
    }
  }

  /** A failed fetch is the same as the address not being configured: the
      other addresses are evaluated, stored and reported exactly as without it. */
  lemma FailedFetchIsSkipped(stored: Prices, addrs: seq<string>, fetched: seq<Option<Quote>>, j: nat)
    requires |addrs| == |fetched| && PositivePrices(stored) && ValidFetches(fetched)
    requires j < |addrs| && fetched[j].None?
    ensures ValidFetches(RemoveAt(fetched, j))
    ensures Cycle(stored, addrs, fetched) == Cycle(stored, RemoveAt(addrs, j), RemoveAt(fetched, j))
  {
    SweepSkipsFailedFetch(stored, addrs, fetched, j);
  }

  /** A run over prices that already agree with every successful fetch is quiet
      and leaves the prices as they are. */
  lemma {:induction false} SweepAtFixpoint(stored: Prices, addrs: seq<string>, fetched: seq<Option<Quote>>)
    requires |addrs| == |fetched| && PositivePrices(stored) && ValidFetches(fetched)
    requires forall i :: 0 <= i < |addrs| && fetched[i].Some? ==>
               addrs[i] in stored && stored[addrs[i]] == fetched[i].value.price
    ensures Sweep(stored, addrs, fetched) == (stored, [])
    decreases |addrs|
  {
    if |addrs| > 0 {
      var s := Step(stored, addrs[0], fetched[0]);
      if fetched[0].Some? {
        SamePriceUnchanged(stored[addrs[0]]);
        assert s.0 == stored;
      }
      SweepAtFixpoint(s.0, addrs[1..], fetched[1..]);
    }
  }

  /** Under consistent quotes, a run leaves every successfully fetched address
      mapped to its fetched price. */
  lemma {:induction false} SweepRecordsConsistent(stored: Prices, addrs: seq<string>, fetched: seq<Option<Quote>>)
    requires PositivePrices(stored) && ValidFetches(fetched) && Consistent(addrs, fetched)
    ensures forall i :: 0 <= i < |addrs| && fetched[i].Some? ==>
              addrs[i] in Sweep(stored, addrs, fetched).0 && Sweep(stored, addrs, fetched).0[addrs[i]] == fetched[i].value.price
    decreases |addrs|
  {
    if |addrs| > 0 {
      var s := Step(stored, addrs[0], fetched[0]);
      var r := Sweep(stored, addrs, fetched);
      assert Consistent(addrs[1..], fetched[1..]) by {
        forall i, j | 0 <= i < |addrs| - 1 && 0 <= j < |addrs| - 1 && addrs[1..][i] == addrs[1..][j]
                      && fetched[1..][i].Some? && fetched[1..][j].Some?
          ensures fetched[1..][i].value.price == fetched[1..][j].value.price
        {
          assert addrs[i + 1] == addrs[j + 1];
        }
      }
      SweepRecordsConsistent(s.0, addrs[1..], fetched[1..]);
      SweepCons(stored, addrs, fetched);
      SweepFrame(s.0, addrs[1..], fetched[1..]);
      forall i | 0 <= i < |addrs| && fetched[i].Some?
        ensures addrs[i] in r.0 && r.0[addrs[i]] == fetched[i].value.price
      {
        if i > 0 {
          assert addrs[1..][i - 1] == addrs[i] && fetched[1..][i - 1] == fetched[i];
        } else if addrs[0] in Succeeded(addrs[1..], fetched[1..]) {
          var k :| 0 <= k < |addrs| - 1 && fetched[1..][k].Some? && addrs[1..][k] == addrs[0];
          assert addrs[k + 1] == addrs[0] && fetched[k + 1].Some?;
        }
      }
    }
  }

  /** Running the cycle again with the same fetch outcomes raises no alert, sends
      nothing and leaves the stored prices unchanged. */
  lemma SecondRunQuiet(stored: Prices, addrs: seq<string>, fetched: seq<Option<Quote>>)
    requires PositivePrices(stored) && ValidFetches(fetched) && Consistent(addrs, fetched)
    ensures var first := Cycle(stored, addrs, fetched);
            var second := Cycle(first.stored, addrs, fetched);
            second.alerts == [] && !second.Sent() && second.stored == first.stored
  {
    var first := Cycle(stored, addrs, fetched);
    SweepRecordsConsistent(stored, addrs, fetched);
    SweepAtFixpoint(first.stored, addrs, fetched);
  }
}
