/**
 * The two SELECTs, as functions over the `prices` table:
 * `WHERE timestamp >= now - 1 day` (calculate_stats) and the 50 most recent
 * rows of each crypto (check_for_alerts), plus the per-crypto selection
 * `df[df['crypto'] == crypto]`. Each keeps the table's order; with the table
 * in `TimeOrdered` form that order is ascending time within a crypto.
 */
module Windows {
  import opened Records
  import opened Keys

  /** The rows stamped at or after `cutoff`, in table order. */
  function AtOrAfter(rows: seq<PriceRow>, cutoff: int): (w: seq<PriceRow>)
    ensures |w| <= |rows|
  {
    if rows == [] then []
    else (if rows[0].timestamp >= cutoff then [rows[0]] else []) + AtOrAfter(rows[1..], cutoff)
  }

  /** The stats query: the samples of the last 24 hours before `now`, inclusive. */
  function Window24h(rows: seq<PriceRow>, now: int): seq<PriceRow>
  {
    AtOrAfter(rows, now - Day)
  }

  /** The rows of crypto `c`, in table order. */
  function RowsOf(rows: seq<PriceRow>, c: string): (g: seq<PriceRow>)
    ensures |g| <= |rows|
  {
    if rows == [] then []
    else (if rows[0].crypto == c then [rows[0]] else []) + RowsOf(rows[1..], c)
  }

  /** The alert query for crypto `c`: its `n` most recent rows, oldest first. */
  function Recent(rows: seq<PriceRow>, c: string, n: nat): (g: seq<PriceRow>)
    ensures |g| == if |RowsOf(rows, c)| < n then |RowsOf(rows, c)| else n
    ensures g == RowsOf(rows, c)[|RowsOf(rows, c)| - |g|..]
  {
    Last(RowsOf(rows, c), n)
  }

  /** The time filter keeps exactly the rows at or after the cutoff. */
  lemma {:induction false} AtOrAfterMembers(rows: seq<PriceRow>, cutoff: int)
    ensures forall x :: x in AtOrAfter(rows, cutoff) <==> x in rows && x.timestamp >= cutoff
  {
    if rows != [] {
      AtOrAfterMembers(rows[1..], cutoff);
      assert rows == [rows[0]] + rows[1..];
    }
  }

  /** The crypto filter keeps exactly the rows of that crypto. */
  lemma {:induction false} RowsOfMembers(rows: seq<PriceRow>, c: string)
    ensures forall x :: x in RowsOf(rows, c) <==> x in rows && x.crypto == c
  {
    if rows != [] {
      RowsOfMembers(rows[1..], c);
      assert rows == [rows[0]] + rows[1..];
    }
  }

  lemma AtOrAfterPositive(rows: seq<PriceRow>, cutoff: int)
    requires Positive(rows)
    ensures Positive(AtOrAfter(rows, cutoff))
  {
    var w := AtOrAfter(rows, cutoff);
    AtOrAfterMembers(rows, cutoff);
    forall i | 0 <= i < |w| ensures w[i].price > 0.0 {
      assert w[i] in rows;
    }
  }

  lemma RowsOfPositive(rows: seq<PriceRow>, c: string)
    requires Positive(rows)
    ensures Positive(RowsOf(rows, c))
  {
    var g := RowsOf(rows, c);
    RowsOfMembers(rows, c);
    forall i | 0 <= i < |g| ensures g[i].price > 0.0 {
      assert g[i] in rows;
    }
  }

  /** Filtering by time keeps the table's per-crypto time order. */
  lemma {:induction false} AtOrAfterOrdered(rows: seq<PriceRow>, cutoff: int)
    requires TimeOrdered(rows)
    ensures TimeOrdered(AtOrAfter(rows, cutoff))
  {
    if rows != [] {
      AtOrAfterOrdered(rows[1..], cutoff);
      var w := AtOrAfter(rows, cutoff);
      var rest := AtOrAfter(rows[1..], cutoff);
      if rows[0].timestamp >= cutoff {
        AtOrAfterMembers(rows[1..], cutoff);
        forall j | 0 < j < |w| && w[0].crypto == w[j].crypto
          ensures w[0].timestamp <= w[j].timestamp
        {
          assert w[j] == rest[j - 1];
          assert w[j] in rows[1..];
          var k :| 0 <= k < |rows[1..]| && rows[1..][k] == w[j];
          assert rows[k + 1] == w[j];
        }
        assert forall i :: 0 < i < |w| ==> w[i] == rest[i - 1];
      }
    }
  }

  /** One crypto's rows of a time-ordered table are chronological. */
  lemma {:induction false} RowsOfChronological(rows: seq<PriceRow>, c: string)
    requires TimeOrdered(rows)
    ensures Chronological(RowsOf(rows, c))
  {
    if rows != [] {
      RowsOfChronological(rows[1..], c);
      var g := RowsOf(rows, c);
      var rest := RowsOf(rows[1..], c);
      if rows[0].crypto == c {
        RowsOfMembers(rows[1..], c);
        forall j | 0 < j < |g| ensures g[0].timestamp <= g[j].timestamp {
          assert g[j] == rest[j - 1];
          assert g[j] in rows[1..];
          var k :| 0 <= k < |rows[1..]| && rows[1..][k] == g[j];
          assert rows[k + 1] == g[j];
        }
        assert forall i :: 0 < i < |g| ==> g[i] == rest[i - 1];
      }
    }
  }

  lemma {:induction false} AtOrAfterKeepsAll(g: seq<PriceRow>, cutoff: int)
    requires forall i :: 0 <= i < |g| ==> g[i].timestamp >= cutoff
    ensures AtOrAfter(g, cutoff) == g
  {
    if g != [] {
      AtOrAfterKeepsAll(g[1..], cutoff);
      assert g == [g[0]] + g[1..];
    }
  }

  /**
   * The `df_24h` filter `calculate_stats` applies to a crypto's rows keeps all
   * of them: its cutoff is the one the query already applied.
   */
  lemma WindowRefilterKeepsAll(rows: seq<PriceRow>, now: int, c: string)
    ensures AtOrAfter(RowsOf(Window24h(rows, now), c), now - Day) == RowsOf(Window24h(rows, now), c)
  {
    var w := Window24h(rows, now);
    var g := RowsOf(w, c);
    AtOrAfterMembers(rows, now - Day);
    RowsOfMembers(w, c);
    assert forall i :: 0 <= i < |g| ==> g[i] in w;
    AtOrAfterKeepsAll(g, now - Day);
  }

  /** The alert query reads at most `n` rows per crypto, the newest ones, still oldest first. */
  lemma RecentIsNewestSuffix(rows: seq<PriceRow>, c: string, n: nat)
    requires TimeOrdered(rows)
    ensures |Recent(rows, c, n)| <= n
    ensures Chronological(Recent(rows, c, n))
    ensures NoneLater(RowsOf(rows, c)[..|RowsOf(rows, c)| - |Recent(rows, c, n)|], Recent(rows, c, n))
  {
    RowsOfChronological(rows, c);
    var g := RowsOf(rows, c);
    ChronologicalSplit(g, |g| - |Recent(rows, c, n)|);
  }

  /** A crypto's rows in the 24-hour window of a time-ordered table are chronological. */
  lemma WindowGroupChronological(rows: seq<PriceRow>, now: int, c: string)
    requires TimeOrdered(rows)
    ensures Chronological(RowsOf(Window24h(rows, now), c))
  {
    AtOrAfterOrdered(rows, now - Day);
    RowsOfChronological(Window24h(rows, now), c);
  }

  /** The keys the stats pass visits are exactly the cryptos that have rows. */
  lemma KeysAreGroups(rows: seq<PriceRow>, c: string)
    ensures c in SortedDistinct(rows) <==> RowsOf(rows, c) != []
  {
    SortedDistinctKeys(rows, c);
    RowsOfMembers(rows, c);
    if RowsOf(rows, c) != [] {
      assert RowsOf(rows, c)[0] in RowsOf(rows, c);
    }
    if exists i :: 0 <= i < |rows| && rows[i].crypto == c {
      var i :| 0 <= i < |rows| && rows[i].crypto == c;
      assert rows[i] in rows;
    }
  }

  lemma RecentPositive(rows: seq<PriceRow>, c: string, n: nat)
    requires Positive(rows)
    ensures Positive(Recent(rows, c, n))
  {
    RowsOfPositive(rows, c);
    var g, r := RowsOf(rows, c), Recent(rows, c, n);
    forall i | 0 <= i < |r| ensures r[i].price > 0.0 {
      assert r[i] == g[|g| - |r| + i];
    }
  }

  /** Every crypto the alert pass visits has at least one of its recent rows to scan. */
  lemma RecentOfKey(rows: seq<PriceRow>, c: string, n: nat)
    requires c in SortedDistinct(rows) && n >= 1
    ensures |Recent(rows, c, n)| >= 1
  {
    KeysAreGroups(rows, c);
  }
}
