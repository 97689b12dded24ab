/**
 * `calculate_stats`: for every crypto with at least two samples in the last
 * 24 hours, one `stats` row stamped with the tick's timestamp. The sample
 * standard deviation pandas computes (`.std()`) is the parameter `std`.
 */
module Stats {
  import opened Records
  import opened Keys
  import opened Windows
  import opened Store
  import opened StatRows

  /** `Series.max()` */
  function MaxOf(s: seq<real>): (r: real)
    requires |s| > 0
    ensures forall i :: 0 <= i < |s| ==> s[i] <= r
    ensures exists i :: 0 <= i < |s| && s[i] == r
  {
    if |s| == 1 then s[0]
    else
      var m := MaxOf(s[1..]);
      assert forall i :: 1 <= i < |s| ==> s[i] == s[1..][i - 1];
      if s[0] >= m then s[0] else m
  }

  /** `Series.min()` */
  function MinOf(s: seq<real>): (r: real)
    requires |s| > 0
    ensures forall i :: 0 <= i < |s| ==> r <= s[i]
    ensures exists i :: 0 <= i < |s| && s[i] == r
  {
    if |s| == 1 then s[0]
    else
      var m := MinOf(s[1..]);
      assert forall i :: 1 <= i < |s| ==> s[i] == s[1..][i - 1];
      if s[0] <= m then s[0] else m
  }

  /**
   * `price_change_24h_pct`: the change from the first sample at or after
   * `now - 1 day` to the newest, or 0 when no sample is that recent.
   */
  function Change24h(g: seq<PriceRow>, now: int): real
    requires Positive(g) && |g| >= 1
  {
    var since := AtOrAfter(g, now - Day);
    AtOrAfterMembers(g, now - Day);
    if since == [] then 0.0 else assert since[0] in g; PctChange(since[0].price, g[|g| - 1].price)
  }

  /** `volume_5min`: the deviation of the last six prices (all of them when fewer), 0 below two. */
  function Volatility(g: seq<PriceRow>, std: seq<real> -> real): real
  {
    var recent := Last(PricesOf(g), 6);
    if |recent| >= 2 then std(recent) else 0.0
  }

  /**
   * The row the loop body of `calculate_stats` inserts for one crypto, given
   * that crypto's rows `g` from the 24-hour query (at least two of them).
   */
  function StatOf(g: seq<PriceRow>, c: string, now: int, std: seq<real> -> real): (r: StatRow)
    requires Positive(g) && |g| >= 2
    ensures r.timestamp == now && r.crypto == c
  {
    var ps := PricesOf(g);
    StatRow(now, c, g[|g| - 1].price, PctChange(g[|g| - 2].price, g[|g| - 1].price), Change24h(g, now),
            Volatility(g, std), MaxOf(ps), MinOf(ps))
  }

  /**
   * What `calculate_stats` inserts for crypto `c`, given the rows `w` the
   * 24-hour query returned: a row, or None when `c` has fewer than two samples.
   */
  function StatFor(w: seq<PriceRow>, c: string, now: int, std: seq<real> -> real): (r: Option<StatRow>)
    requires Positive(w)
    ensures r.None? <==> |RowsOf(w, c)| < 2
    ensures r.Some? ==> r.value.timestamp == now && r.value.crypto == c
  {
    var g := RowsOf(w, c);
    if |g| < 2 then None
    else
      RowsOfPositive(w, c);
      Some(StatOf(g, c, now, std))
  }

  /** `StatFor` over one query result, as a function of the crypto. */
  function RowFor(w: seq<PriceRow>, now: int, std: seq<real> -> real): (f: string -> Option<StatRow>)
    requires Positive(w)
    ensures Tabulates(f, w, now, std)
  {
    c => StatFor(w, c, now, std)
  }

  /** `f` gives, for every crypto, what `calculate_stats` inserts for it over `w`. */
  ghost predicate Tabulates(f: string -> Option<StatRow>, w: seq<PriceRow>, now: int, std: seq<real> -> real)
    requires Positive(w)
  {
    forall c {:trigger StatFor(w, c, now, std)} :: f(c) == StatFor(w, c, now, std)
  }

  /** Everything one `calculate_stats` call inserts into `stats`, reading `prices`. */
  function StatsSpec(prices: seq<PriceRow>, now: int, std: seq<real> -> real): seq<StatRow>
    requires Positive(prices) && TimeOrdered(prices)
  {
    var w := Window24h(prices, now);
    AtOrAfterPositive(prices, now - Day);
    var keys := SortedDistinct(w);
    if w == [] then [] else StatsOver(keys, |keys|, RowFor(w, now, std))
  }

  /**
   * `calculate_stats` writes exactly one row for each crypto with at least two
   * samples in the last 24 hours, none for the others, and every row carries
   * the tick's timestamp.
   */
  lemma StatsOnePerCrypto(prices: seq<PriceRow>, now: int, std: seq<real> -> real, c: string)
    requires Positive(prices) && TimeOrdered(prices)
    ensures Positive(Window24h(prices, now))
    ensures StatsOf(StatsSpec(prices, now, std), c) == Present(StatFor(Window24h(prices, now), c, now, std))
    ensures |StatsOf(StatsSpec(prices, now, std), c)| == if |RowsOf(Window24h(prices, now), c)| >= 2 then 1 else 0
    ensures forall k :: 0 <= k < |StatsSpec(prices, now, std)| ==> StatsSpec(prices, now, std)[k].timestamp == now
  {
    var w := Window24h(prices, now);
    AtOrAfterPositive(prices, now - Day);
    if w == [] {
      assert RowsOf(w, c) == [];
    } else {
      var keys := SortedDistinct(w);
      var f := RowFor(w, now, std);
      assert StatsSpec(prices, now, std) == StatsOver(keys, |keys|, f);
      RowForLabels(w, now, std);
      SortedIsDistinct(keys);
      StatsOverPerCrypto(keys, |keys|, f, c);
      StatsOverStamped(keys, |keys|, f, now);
      assert keys[..|keys|] == keys;
      KeysAreGroups(w, c);
      assert f(c) == StatFor(w, c, now, std);
    }
  }

  /** The row `RowFor` gives a crypto is labelled with that crypto and the tick's timestamp. */
  lemma RowForLabels(w: seq<PriceRow>, now: int, std: seq<real> -> real)
    requires Positive(w)
    ensures Labelled(RowFor(w, now, std)) && Stamped(RowFor(w, now, std), now)
  {
    var f := RowFor(w, now, std);
    forall k ensures f(k).Some? ==> f(k).value.crypto == k && f(k).value.timestamp == now {
      assert f(k) == StatFor(w, k, now, std);
    }
  }

  /** With two or more samples of `c` in the window, the row is `StatOf` those samples. */
  lemma StatForRow(w: seq<PriceRow>, c: string, now: int, std: seq<real> -> real)
    requires Positive(w) && |RowsOf(w, c)| >= 2
    ensures Positive(RowsOf(w, c))
    ensures StatFor(w, c, now, std) == Some(StatOf(RowsOf(w, c), c, now, std))
  {
    RowsOfPositive(w, c);
  }

  /** The current price is the newest sample and `price_change_pct` compares it with the one before. */
  lemma StatOfLatest(g: seq<PriceRow>, c: string, now: int, std: seq<real> -> real)
    requires Positive(g) && |g| >= 2
    ensures StatOf(g, c, now, std).currentPrice == g[|g| - 1].price
    ensures StatOf(g, c, now, std).priceChangePct == PctChange(g[|g| - 2].price, g[|g| - 1].price)
  {
  }

  /**
   * The current price is the latest sample and the previous one is the sample
   * just before it: `price_change_pct` compares the two newest samples.
   */
  lemma StatComparesLatestPair(prices: seq<PriceRow>, now: int, std: seq<real> -> real, c: string)
    requires Positive(prices) && TimeOrdered(prices)
    requires |RowsOf(Window24h(prices, now), c)| >= 2
    ensures Positive(Window24h(prices, now)) && Positive(RowsOf(Window24h(prices, now), c))
    ensures
      var g := RowsOf(Window24h(prices, now), c);
      StatFor(Window24h(prices, now), c, now, std).value.currentPrice == g[|g| - 1].price
    ensures
      var g := RowsOf(Window24h(prices, now), c);
      StatFor(Window24h(prices, now), c, now, std).value.priceChangePct == PctChange(g[|g| - 2].price, g[|g| - 1].price)
    ensures Chronological(RowsOf(Window24h(prices, now), c))
  {
    var w := Window24h(prices, now);
    AtOrAfterPositive(prices, now - Day);
    StatForRow(w, c, now, std);
    var g := RowsOf(w, c);
    StatOfLatest(g, c, now, std);
    WindowGroupChronological(prices, now, c);
  }

  /** In a chronological group, the last two samples are the two newest. */
  lemma LatestPairIsNewest(g: seq<PriceRow>)
    requires Chronological(g) && |g| >= 2
    ensures forall i :: 0 <= i < |g| - 1 ==> g[i].timestamp <= g[|g| - 2].timestamp <= g[|g| - 1].timestamp
  {
    forall i | 0 <= i < |g| - 1 ensures g[i].timestamp <= g[|g| - 2].timestamp <= g[|g| - 1].timestamp {
      if i < |g| - 2 {
        assert g[i].timestamp <= g[|g| - 2].timestamp;
      }
    }
  }

  /** With every sample at or after the cutoff, the 24-hour change is measured from the first. */
  lemma StatOfBaseline(g: seq<PriceRow>, c: string, now: int, std: seq<real> -> real)
    requires Positive(g) && |g| >= 2
    requires AtOrAfter(g, now - Day) == g
    ensures StatOf(g, c, now, std).priceChange24hPct == PctChange(g[0].price, g[|g| - 1].price)
  {
  }

  /** The 24-hour change of a window group is measured from its first row. */
  lemma StatBaselineIsFirst(prices: seq<PriceRow>, now: int, std: seq<real> -> real, c: string)
    requires Positive(prices)
    requires |RowsOf(Window24h(prices, now), c)| >= 2
    ensures Positive(Window24h(prices, now)) && Positive(RowsOf(Window24h(prices, now), c))
    ensures
      var g := RowsOf(Window24h(prices, now), c);
      StatFor(Window24h(prices, now), c, now, std).value.priceChange24hPct == PctChange(g[0].price, g[|g| - 1].price)
  {
    var w := Window24h(prices, now);
    AtOrAfterPositive(prices, now - Day);
    StatForRow(w, c, now, std);
    WindowRefilterKeepsAll(prices, now, c);
    StatOfBaseline(RowsOf(w, c), c, now, std);
  }

  /**
   * The 24-hour change is always measured from the earliest sample of the
   * window: the query already applied the cutoff, so the 0 fallback is never taken.
   */
  lemma StatBaselineIsEarliest(prices: seq<PriceRow>, now: int, std: seq<real> -> real, c: string)
    requires Positive(prices) && TimeOrdered(prices)
    requires |RowsOf(Window24h(prices, now), c)| >= 2
    ensures Positive(Window24h(prices, now)) && Positive(RowsOf(Window24h(prices, now), c))
    ensures
      var g := RowsOf(Window24h(prices, now), c);
      StatFor(Window24h(prices, now), c, now, std).value.priceChange24hPct == PctChange(g[0].price, g[|g| - 1].price)
    ensures
      var g := RowsOf(Window24h(prices, now), c);
      forall i :: 0 <= i < |g| ==> g[0].timestamp <= g[i].timestamp
  {
    StatBaselineIsFirst(prices, now, std, c);
    WindowGroupChronological(prices, now, c);
  }

  /** High and low bound every sample and are attained by one. */
  lemma StatOfBounds(g: seq<PriceRow>, c: string, now: int, std: seq<real> -> real)
    requires Positive(g) && |g| >= 2
    ensures var r := StatOf(g, c, now, std);
      && (forall i :: 0 <= i < |g| ==> r.low24h <= g[i].price <= r.high24h)
      && (exists i :: 0 <= i < |g| && g[i].price == r.high24h)
      && (exists j :: 0 <= j < |g| && g[j].price == r.low24h)
      && r.currentPrice == g[|g| - 1].price
  {
    var ps := PricesOf(g);
    var r := StatOf(g, c, now, std);
    assert r.high24h == MaxOf(ps) && r.low24h == MinOf(ps) && r.currentPrice == ps[|ps| - 1];
    var i :| 0 <= i < |ps| && ps[i] == r.high24h;
    var j :| 0 <= j < |ps| && ps[j] == r.low24h;
    assert g[i].price == r.high24h && g[j].price == r.low24h;
  }

  /**
   * High and low bound every sample in the window and are attained by one;
   * in particular the current price and the 24-hour baseline lie between them.
   */
  lemma StatWithinBounds(prices: seq<PriceRow>, now: int, std: seq<real> -> real, c: string)
    requires Positive(prices)
    requires |RowsOf(Window24h(prices, now), c)| >= 2
    ensures Positive(Window24h(prices, now)) && Positive(RowsOf(Window24h(prices, now), c))
    ensures
      var g := RowsOf(Window24h(prices, now), c);
      var r := StatFor(Window24h(prices, now), c, now, std).value;
      && (forall i :: 0 <= i < |g| ==> r.low24h <= g[i].price <= r.high24h)
      && (exists i :: 0 <= i < |g| && g[i].price == r.high24h)
      && (exists j :: 0 <= j < |g| && g[j].price == r.low24h)
      && r.low24h <= r.currentPrice <= r.high24h
      && r.low24h <= g[0].price <= r.high24h
  {
    var w := Window24h(prices, now);
    AtOrAfterPositive(prices, now - Day);
    StatForRow(w, c, now, std);
    var g := RowsOf(w, c);
    StatOfBounds(g, c, now, std);
    assert 0 <= |g| - 1 < |g|;
  }

  /**
   * The volatility is the deviation of the last min(6, n) prices; with n >= 2
   * the tail always has at least two, so the `else 0` fallback is never taken.
   */
  lemma StatVolatilityTail(prices: seq<PriceRow>, now: int, std: seq<real> -> real, c: string)
    requires Positive(prices) && TimeOrdered(prices)
    requires |RowsOf(Window24h(prices, now), c)| >= 2
    ensures Positive(Window24h(prices, now))
    ensures
      var g := RowsOf(Window24h(prices, now), c);
      var tail := Last(PricesOf(g), 6);
      && |tail| == (if |g| < 6 then |g| else 6)
      && |tail| >= 2
      && StatFor(Window24h(prices, now), c, now, std).value.volume5min == std(tail)
    ensures
      var g := RowsOf(Window24h(prices, now), c);
      var n := if |g| < 6 then |g| else 6;
      forall i, j :: 0 <= i < |g| - n <= j < |g| ==> g[i].timestamp <= g[j].timestamp
  {
    WindowGroupChronological(prices, now, c);
    var w := Window24h(prices, now);
    AtOrAfterPositive(prices, now - Day);
    StatForRow(w, c, now, std);
  }

  /** The body of the `calculate_stats` loop for crypto `c`: the row it inserts, if any. */
  method CryptoStat(rows: seq<PriceRow>, c: string, now: int, std: seq<real> -> real, ghost f: string -> Option<StatRow>)
    returns (r: Option<StatRow>)
    requires Positive(rows) && Tabulates(f, rows, now, std)
    ensures r == f(c)
  {
    var g := RowsOf(rows, c);
    if |g| < 2 {
      assert f(c) == StatFor(rows, c, now, std);
      return None;
    }
    RowsOfPositive(rows, c);
    var currentPrice := g[|g| - 1].price;
    var previousPrice := g[|g| - 2].price;
    var priceChangePct := PctChange(previousPrice, currentPrice);
    var df24h := AtOrAfter(g, now - Day);
    AtOrAfterMembers(g, now - Day);
    var priceChange24hPct := if df24h != [] then assert df24h[0] in g; PctChange(df24h[0].price, currentPrice) else 0.0;
    var ps := PricesOf(g);
    var high24h := MaxOf(ps);
    var low24h := MinOf(ps);
    var recentPrices := Last(ps, 6);
    var volume5min := if |recentPrices| >= 2 then std(recentPrices) else 0.0;
    r := Some(StatRow(now, c, currentPrice, priceChangePct, priceChange24hPct, volume5min, high24h, low24h));
    assert f(c) == StatFor(rows, c, now, std);
  }

  /** The loop of `calculate_stats`: visits `cryptos` in order, inserting a row for each with two or more samples. */
  method InsertStats(conn: Connection, cryptos: seq<string>, rows: seq<PriceRow>, now: int, std: seq<real> -> real,
                     ghost f: string -> Option<StatRow>)
    requires conn.Valid() && Positive(rows) && Tabulates(f, rows, now, std)
    modifies conn
    ensures conn.Valid() && conn.committed == old(conn.committed)
    ensures conn.view == old(conn.view).(stats := old(conn.view.stats) + StatsOver(cryptos, |cryptos|, f))
  {
    for k := 0 to |cryptos|
      invariant conn.Valid() && conn.committed == old(conn.committed)
      invariant conn.view == old(conn.view).(stats := old(conn.view.stats) + StatsOver(cryptos, k, f))
    {
      var r := CryptoStat(rows, cryptos[k], now, std, f);
      if r.None? {
        assert StatsOver(cryptos, k + 1, f) == StatsOver(cryptos, k, f) + [];
        continue;
      }
      ghost var before := conn.view.stats;
      conn.InsertStat(r.value);
      assert conn.view.stats == before + [r.value];
    }
  }

  /** `calculate_stats(conn, current_timestamp)` */
  method CalculateStats(conn: Connection, now: int, std: seq<real> -> real)
    requires conn.Valid() && Positive(conn.view.prices) && TimeOrdered(conn.view.prices)
    modifies conn
    ensures conn.Valid() && conn.committed == old(conn.committed)
    ensures conn.view == old(conn.view).(stats := old(conn.view.stats) + StatsSpec(old(conn.view.prices), now, std))
  {
    var rows := Window24h(conn.view.prices, now);
    AtOrAfterPositive(conn.view.prices, now - Day);
    if rows == [] {
      assert conn.view.stats + [] == conn.view.stats;
      return;
    }
    var cryptos := CryptoKeys(rows);
    InsertStats(conn, cryptos, rows, now, std, RowFor(rows, now, std));
  }
}
