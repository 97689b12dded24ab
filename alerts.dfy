/**
 * `check_for_alerts`: for each crypto, in ascending crypto order, the alert
 * query yields its 50 most recent samples, oldest first; every adjacent pair
 * whose percent change is strictly above the threshold in absolute value
 * becomes one `alerts` row, inserted and also returned, in scan order.
 */
module Alerts {
  import opened Records
  import opened Keys
  import opened Windows
  import opened Interval
  import opened Store

  /** How many of each crypto's most recent samples the alert query reads. */
  const RecentSamples: nat := 50

  /** `abs(price_change) > variation_threshold`: strictly above, in either direction. */
  predicate Crosses(from: real, to: real, threshold: real)
    requires from > 0.0
  {
    Abs(PctChange(from, to)) > threshold
  }

  /** The alert for the pair of samples `i - 1`, `i` of crypto `c`'s group `g`. */
  function AlertAt(c: string, g: seq<PriceRow>, i: nat): AlertRow
    requires Positive(g) && 0 < i < |g| && g[i - 1].timestamp <= g[i].timestamp
  {
    AlertRow(g[i].timestamp, c, g[i - 1].price, g[i].price,
      PctChange(g[i - 1].price, g[i].price), TimeInterval(g[i].timestamp - g[i - 1].timestamp))
  }

  /** The alerts of the pairs ending before index `n` of the group, in scan order. */
  function PairAlerts(c: string, g: seq<PriceRow>, n: nat, threshold: real): seq<AlertRow>
    requires Positive(g) && Chronological(g) && n <= |g|
  {
    if n <= 1 then []
    else
      var last := if Crosses(g[n - 2].price, g[n - 1].price, threshold) then [AlertAt(c, g, n - 1)] else [];
      PairAlerts(c, g, n - 1, threshold) + last
  }

  /** Everything the scan of one group emits. */
  function GroupAlerts(c: string, g: seq<PriceRow>, threshold: real): seq<AlertRow>
    requires Positive(g) && Chronological(g)
  {
    PairAlerts(c, g, |g|, threshold)
  }

  /** The alerts of crypto `c`, scanning its most recent samples. */
  function CryptoAlerts(prices: seq<PriceRow>, c: string, threshold: real): seq<AlertRow>
    requires Positive(prices) && TimeOrdered(prices)
  {
    RecentPositive(prices, c, RecentSamples);
    RecentIsNewestSuffix(prices, c, RecentSamples);
    GroupAlerts(c, Recent(prices, c, RecentSamples), threshold)
  }

  /** The alerts after visiting the first `n` of `keys`, when visiting `c` emits `f(c)`. */
  function AlertsOver(keys: seq<string>, n: nat, f: string -> seq<AlertRow>): seq<AlertRow>
    requires n <= |keys|
  {
    if n == 0 then [] else AlertsOver(keys, n - 1, f) + f(keys[n - 1])
  }

  /** `f` gives, for every crypto, what the scan of its group emits. */
  ghost predicate Scans(f: string -> seq<AlertRow>, prices: seq<PriceRow>, threshold: real)
    requires Positive(prices) && TimeOrdered(prices)
  {
    forall c {:trigger CryptoAlerts(prices, c, threshold)} :: f(c) == CryptoAlerts(prices, c, threshold)
  }

  /** `CryptoAlerts` over one table, as a function of the crypto. */
  function AlertsFor(prices: seq<PriceRow>, threshold: real): (f: string -> seq<AlertRow>)
    requires Positive(prices) && TimeOrdered(prices)
    ensures Scans(f, prices, threshold)
  {
    c => CryptoAlerts(prices, c, threshold)
  }

  /** Everything one `check_for_alerts` call inserts and returns, reading `prices`. */
  function AlertsSpec(prices: seq<PriceRow>, threshold: real): seq<AlertRow>
    requires Positive(prices) && TimeOrdered(prices)
  {
    var keys := SortedDistinct(prices);
    AlertsOver(keys, |keys|, AlertsFor(prices, threshold))
  }

  /** The pair of samples `i - 1`, `i` crosses the threshold (a trigger for the set of crossings). */
  ghost predicate CrossesAt(g: seq<PriceRow>, i: nat, threshold: real)
    requires Positive(g) && 0 < i < |g|
  {
    Crosses(g[i - 1].price, g[i].price, threshold)
  }

  /** The pairs of the group ending before `n` whose change crosses the threshold. */
  ghost function Crossings(g: seq<PriceRow>, n: nat, threshold: real): set<nat>
    requires Positive(g) && n <= |g|
  {
    set i: nat | 0 < i < n && CrossesAt(g, i, threshold)
  }

  /**
   * A pair yields an alert exactly when its change crosses the threshold, and
   * then the alert records the later sample's time, the earlier and later
   * prices, the change and the elapsed interval.
   */
  lemma {:induction false} PairAlertsExactly(c: string, g: seq<PriceRow>, n: nat, threshold: real, a: AlertRow)
    requires Positive(g) && Chronological(g) && n <= |g|
    ensures a in PairAlerts(c, g, n, threshold) <==>
      exists i :: 0 < i < n && Crosses(g[i - 1].price, g[i].price, threshold) && a == AlertAt(c, g, i)
  {
    if n > 1 {
      PairAlertsExactly(c, g, n - 1, threshold, a);
    }
  }

  /** One alert per crossing pair: nothing is coalesced and nothing is dropped. */
  lemma {:induction false} PairAlertsCount(c: string, g: seq<PriceRow>, n: nat, threshold: real)
    requires Positive(g) && Chronological(g) && n <= |g|
    ensures |PairAlerts(c, g, n, threshold)| == |Crossings(g, n, threshold)|
  {
    if n <= 1 {
      assert Crossings(g, n, threshold) == {};
    } else {
      PairAlertsCount(c, g, n - 1, threshold);
      var before := Crossings(g, n - 1, threshold);
      if Crosses(g[n - 2].price, g[n - 1].price, threshold) {
        assert Crossings(g, n, threshold) == before + {n - 1};
        assert n - 1 !in before;
      } else {
        assert Crossings(g, n, threshold) == before;
      }
    }
  }

  /** Every alert of the scan is labelled with its crypto and stamped no later than sample `n - 1`. */
  lemma {:induction false} PairAlertsBounded(c: string, g: seq<PriceRow>, n: nat, threshold: real)
    requires Positive(g) && Chronological(g) && 1 <= n <= |g|
    ensures forall k :: 0 <= k < |PairAlerts(c, g, n, threshold)| ==>
      PairAlerts(c, g, n, threshold)[k].crypto == c &&
      PairAlerts(c, g, n, threshold)[k].timestamp <= g[n - 1].timestamp
  {
    if n > 1 {
      PairAlertsBounded(c, g, n - 1, threshold);
      assert g[n - 2].timestamp <= g[n - 1].timestamp;
    }
  }

  /** The alerts of one group come out in ascending time. */
  lemma {:induction false} PairAlertsAscending(c: string, g: seq<PriceRow>, n: nat, threshold: real)
    requires Positive(g) && Chronological(g) && n <= |g|
    ensures AscendingAlerts(PairAlerts(c, g, n, threshold))
  {
    if n > 1 {
      PairAlertsAscending(c, g, n - 1, threshold);
      PairAlertsBounded(c, g, n - 1, threshold);
    }
  }

  /** Alerts in ascending time. */
  ghost predicate AscendingAlerts(a: seq<AlertRow>)
  {
    forall i, j :: 0 <= i < j < |a| ==> a[i].timestamp <= a[j].timestamp
  }

  /** Alerts ordered by crypto, and by time within a crypto: the order of `groupby` and the pair scan. */
  ghost predicate GroupedAlerts(a: seq<AlertRow>)
  {
    forall i, j :: 0 <= i < j < |a| ==>
      Less(a[i].crypto, a[j].crypto) || (a[i].crypto == a[j].crypto && a[i].timestamp <= a[j].timestamp)
  }

  /** What the scan of each crypto emits is that crypto's alerts, in ascending time. */
  ghost predicate ScansGroups(f: string -> seq<AlertRow>)
  {
    forall k :: AscendingAlerts(f(k)) && (forall i :: 0 <= i < |f(k)| ==> f(k)[i].crypto == k)
  }

  /** Every alert after visiting `n` keys belongs to one of them. */
  lemma {:induction false} AlertsOverLabels(keys: seq<string>, n: nat, f: string -> seq<AlertRow>)
    requires n <= |keys| && ScansGroups(f)
    ensures forall i :: 0 <= i < |AlertsOver(keys, n, f)| ==>
      exists k :: 0 <= k < n && AlertsOver(keys, n, f)[i].crypto == keys[k]
  {
    if n > 0 {
      AlertsOverLabels(keys, n - 1, f);
      var prev, last := AlertsOver(keys, n - 1, f), f(keys[n - 1]);
      var all := AlertsOver(keys, n, f);
      assert all == prev + last;
      forall i | 0 <= i < |all| ensures exists k :: 0 <= k < n && all[i].crypto == keys[k] {
        if i < |prev| {
          var k :| 0 <= k < n - 1 && prev[i].crypto == keys[k];
          assert all[i] == prev[i];
        } else {
          assert all[i] == last[i - |prev|];
          assert all[i].crypto == keys[n - 1];
        }
      }
    } else {
      assert AlertsOver(keys, n, f) == [];
    }
  }

  /** Two runs of alerts whose cryptos are ordered stay grouped when joined. */
  lemma GroupedAppend(a: seq<AlertRow>, b: seq<AlertRow>, c: string)
    requires GroupedAlerts(a) && AscendingAlerts(b)
    requires forall i :: 0 <= i < |a| ==> Less(a[i].crypto, c)
    requires forall j :: 0 <= j < |b| ==> b[j].crypto == c
    ensures GroupedAlerts(a + b)
  {
    var s := a + b;
    forall i, j | 0 <= i < j < |s|
      ensures Less(s[i].crypto, s[j].crypto) || (s[i].crypto == s[j].crypto && s[i].timestamp <= s[j].timestamp)
    {
      if j < |a| {
        assert s[i] == a[i] && s[j] == a[j];
      } else if i < |a| {
        assert s[i] == a[i] && s[j] == b[j - |a|];
      } else {
        assert s[i] == b[i - |a|] && s[j] == b[j - |a|];
      }
    }
  }

  /** Visiting strictly ascending keys, the alerts come out grouped by crypto, each group in time order. */
  lemma {:induction false} AlertsOverGrouped(keys: seq<string>, n: nat, f: string -> seq<AlertRow>)
    requires n <= |keys| && StrictlySorted(keys) && ScansGroups(f)
    ensures GroupedAlerts(AlertsOver(keys, n, f))
  {
    if n > 0 {
      AlertsOverGrouped(keys, n - 1, f);
      AlertsOverLabels(keys, n - 1, f);
      var prev := AlertsOver(keys, n - 1, f);
      forall i | 0 <= i < |prev| ensures Less(prev[i].crypto, keys[n - 1]) {
        var k :| 0 <= k < n - 1 && prev[i].crypto == keys[k];
      }
      GroupedAppend(prev, f(keys[n - 1]), keys[n - 1]);
    }
  }

  /** The scan of every crypto's recent samples emits that crypto's alerts in time order. */
  lemma AlertsForScansGroups(prices: seq<PriceRow>, threshold: real)
    requires Positive(prices) && TimeOrdered(prices)
    ensures ScansGroups(AlertsFor(prices, threshold))
  {
    var f := AlertsFor(prices, threshold);
    forall k ensures AscendingAlerts(f(k)) && (forall i :: 0 <= i < |f(k)| ==> f(k)[i].crypto == k) {
      var g := Recent(prices, k, RecentSamples);
      RecentPositive(prices, k, RecentSamples);
      RecentIsNewestSuffix(prices, k, RecentSamples);
      assert f(k) == PairAlerts(k, g, |g|, threshold);
      PairAlertsAscending(k, g, |g|, threshold);
      if |g| >= 1 {
        PairAlertsBounded(k, g, |g|, threshold);
      }
    }
  }

  /**
   * The returned and inserted alerts are grouped by crypto in ascending crypto
   * order, ascending in time within each crypto.
   */
  lemma AlertsGrouped(prices: seq<PriceRow>, threshold: real)
    requires Positive(prices) && TimeOrdered(prices)
    ensures GroupedAlerts(AlertsSpec(prices, threshold))
  {
    var keys := SortedDistinct(prices);
    AlertsForScansGroups(prices, threshold);
    AlertsOverGrouped(keys, |keys|, AlertsFor(prices, threshold));
  }

  /** An alert's interval reads back as the elapsed whole seconds, never negative. */
  lemma AlertIntervalReadsBack(c: string, g: seq<PriceRow>, i: nat)
    requires Positive(g) && Chronological(g) && 0 < i < |g|
    ensures ParseInterval(AlertAt(c, g, i).timeInterval) == Some((g[i].timestamp - g[i - 1].timestamp) / Second)
  {
    IntervalRoundTrip(g[i].timestamp - g[i - 1].timestamp);
  }

  /** Threshold 2: a move from 100 to 103 five minutes later gives one alert of 3%. */
  lemma ThreePercentJump(c: string, t: int, g: seq<PriceRow>, threshold: real)
    requires threshold == 2.0
    requires g == [PriceRow(t, c, 100.0), PriceRow(t + 300 * Second, c, 103.0)]
    ensures GroupAlerts(c, g, threshold) == [AlertRow(t + 300 * Second, c, 100.0, 103.0, 3.0, "0 days 00:05:00")]
  {
    FiveMinutesInterval();
    assert g[1].timestamp - g[0].timestamp == 300_000_000;
    assert PairAlerts(c, g, 1, threshold) == [];
  }

  /** Threshold 2: moves 100, 101, 99 (+1% then about -1.98%) give no alert. */
  lemma SmallMovesNoAlert(c: string, t: int, g: seq<PriceRow>, threshold: real)
    requires threshold == 2.0
    requires g == [PriceRow(t, c, 100.0), PriceRow(t + 300 * Second, c, 101.0), PriceRow(t + 600 * Second, c, 99.0)]
    ensures GroupAlerts(c, g, threshold) == []
  {
    assert !Crosses(g[0].price, g[1].price, threshold);
    assert !Crosses(g[1].price, g[2].price, threshold);
    assert PairAlerts(c, g, 2, threshold) == [];
  }

  /** Scanning one more pair appends that pair's alert, if it crosses the threshold. */
  lemma PairAlertsStep(c: string, g: seq<PriceRow>, i: nat, threshold: real)
    requires Positive(g) && Chronological(g) && 0 < i < |g|
    ensures PairAlerts(c, g, i + 1, threshold) ==
      PairAlerts(c, g, i, threshold) + (if Crosses(g[i - 1].price, g[i].price, threshold) then [AlertAt(c, g, i)] else [])
  {
  }

  /** An alert built from the pair's change and interval is that pair's alert. */
  lemma AlertOf(c: string, g: seq<PriceRow>, i: nat, pct: real, interval: string)
    requires Positive(g) && 0 < i < |g| && g[i - 1].timestamp <= g[i].timestamp
    requires pct == PctChange(g[i - 1].price, g[i].price)
    requires interval == TimeInterval(g[i].timestamp - g[i - 1].timestamp)
    ensures AlertRow(g[i].timestamp, c, g[i - 1].price, g[i].price, pct, interval) == AlertAt(c, g, i)
  {
  }

  /** One pass of the pair loop's body: the alert of samples `i - 1`, `i`, if their change crosses the threshold. */
  method CheckPair(crypto: string, group: seq<PriceRow>, i: nat, threshold: real) returns (alert: Option<AlertRow>)
    requires Positive(group) && 0 < i < |group| && group[i - 1].timestamp <= group[i].timestamp
    ensures alert.Some? <==> Crosses(group[i - 1].price, group[i].price, threshold)
    ensures alert.Some? ==> alert.value == AlertAt(crypto, group, i)
  {
    var currentRow, prevRow := group[i], group[i - 1];
    var priceChange := PctChange(prevRow.price, currentRow.price);
    if Abs(priceChange) > threshold {
      var timeDiff := currentRow.timestamp - prevRow.timestamp;
      var timeDiffStr := BeforeFirstDot(TimedeltaStr(timeDiff));
      AlertOf(crypto, group, i, priceChange, timeDiffStr);
      return Some(AlertRow(currentRow.timestamp, crypto, prevRow.price, currentRow.price, priceChange, timeDiffStr));
    }
    return None;
  }

  /** The inner loop over one crypto's group: `for i in range(1, len(group))`, inserting each alert. */
  method ScanPairs(conn: Connection, crypto: string, group: seq<PriceRow>, threshold: real) returns (found: seq<AlertRow>)
    requires conn.Valid() && |group| >= 1 && Positive(group) && Chronological(group)
    modifies conn
    ensures conn.Valid() && conn.committed == old(conn.committed)
    ensures found == GroupAlerts(crypto, group, threshold)
    ensures conn.view == old(conn.view).(alerts := old(conn.view.alerts) + found)
  {
    found := [];
    for i := 1 to |group|
      invariant conn.Valid() && conn.committed == old(conn.committed)
      invariant found == PairAlerts(crypto, group, i, threshold)
      invariant conn.view == old(conn.view).(alerts := old(conn.view.alerts) + found)
    {
      var alert := CheckPair(crypto, group, i, threshold);
      PairAlertsStep(crypto, group, i, threshold);
      if alert.Some? {
        conn.InsertAlert(alert.value);
        found := found + [alert.value];
      }
    }
  }

  /** One iteration of the `groupby` loop: the group of `crypto` is its most recent samples, oldest first. */
  method ScanGroup(conn: Connection, prices: seq<PriceRow>, crypto: string, threshold: real,
                   ghost f: string -> seq<AlertRow>) returns (found: seq<AlertRow>)
    requires conn.Valid() && Positive(prices) && TimeOrdered(prices) && Scans(f, prices, threshold)
    requires crypto in SortedDistinct(prices)
    modifies conn
    ensures conn.Valid() && conn.committed == old(conn.committed)
    ensures found == f(crypto)
    ensures conn.view == old(conn.view).(alerts := old(conn.view.alerts) + found)
  {
    var group := Recent(prices, crypto, RecentSamples);
    RecentOfKey(prices, crypto, RecentSamples);
    RecentPositive(prices, crypto, RecentSamples);
    RecentIsNewestSuffix(prices, crypto, RecentSamples);
    found := ScanPairs(conn, crypto, group, threshold);
    assert f(crypto) == CryptoAlerts(prices, crypto, threshold);
  }

  /** `check_for_alerts(conn, variation_threshold)` */
  method CheckForAlerts(conn: Connection, threshold: real) returns (alerts: seq<AlertRow>)
    requires conn.Valid() && Positive(conn.view.prices) && TimeOrdered(conn.view.prices)
    modifies conn
    ensures conn.Valid() && conn.committed == old(conn.committed)
    ensures alerts == AlertsSpec(old(conn.view.prices), threshold)
    ensures conn.view == old(conn.view).(alerts := old(conn.view.alerts) + alerts)
  {
    var prices := conn.view.prices;
    if prices == [] {
      assert conn.view.alerts + [] == conn.view.alerts;
      return [];
    }
    var cryptos := CryptoKeys(prices);
    alerts := ScanCryptos(conn, prices, cryptos, threshold, AlertsFor(prices, threshold));
  }

  /** The `groupby` loop: the groups in ascending crypto order, their alerts appended in turn. */
  method ScanCryptos(conn: Connection, prices: seq<PriceRow>, cryptos: seq<string>, threshold: real,
                     ghost f: string -> seq<AlertRow>) returns (alerts: seq<AlertRow>)
    requires conn.Valid() && Positive(prices) && TimeOrdered(prices) && Scans(f, prices, threshold)
    requires cryptos == SortedDistinct(prices)
    modifies conn
    ensures conn.Valid() && conn.committed == old(conn.committed)
    ensures alerts == AlertsOver(cryptos, |cryptos|, f)
    ensures conn.view == old(conn.view).(alerts := old(conn.view.alerts) + alerts)
  {
    alerts := [];
    for k := 0 to |cryptos|
      invariant conn.Valid() && conn.committed == old(conn.committed)
      invariant alerts == AlertsOver(cryptos, k, f)
      invariant conn.view == old(conn.view).(alerts := old(conn.view.alerts) + alerts)
    {
      var found := ScanGroup(conn, prices, cryptos[k], threshold, f);
      alerts := alerts + found;
    }
  }

  /** The detector keeps no memory between calls: run twice on the same samples, it inserts the same alerts twice. */
  method CheckForAlertsTwice(conn: Connection, threshold: real) returns (first: seq<AlertRow>, second: seq<AlertRow>)
    requires conn.Valid() && Positive(conn.view.prices) && TimeOrdered(conn.view.prices)
    modifies conn
    ensures second == first
    ensures conn.view == old(conn.view).(alerts := old(conn.view.alerts) + first + first)
  {
    first := CheckForAlerts(conn, threshold);
    second := CheckForAlerts(conn, threshold);
  }
}
