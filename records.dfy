/**
 * Rows of the three tables the tracker writes (prices, stats, alerts), the
 * percent-change formula, and the store invariants the pipeline relies on.
 * Timestamps are integers counting microseconds, the resolution of a
 * PostgreSQL TIMESTAMP WITH TIME ZONE; the serial `id` column is not modelled.
 */
module Records {

  /** One microsecond is the unit; these are `timedelta(seconds=1)` and `timedelta(days=1)`. */
  const Second: int := 1_000_000
  const Day: int := 86_400 * Second

  datatype Option<T> = None | Some(value: T)

  /** A row of `prices`: one sampled price of one crypto. */
  datatype PriceRow = PriceRow(timestamp: int, crypto: string, price: real)

  /** A row of `stats`. */
  datatype StatRow = StatRow(
    timestamp: int,
    crypto: string,
    currentPrice: real,
    priceChangePct: real,
    priceChange24hPct: real,
    volume5min: real,
    high24h: real,
    low24h: real)

  /** A row of `alerts`; the same record is handed to the Slack formatter. */
  datatype AlertRow = AlertRow(
    timestamp: int,
    crypto: string,
    startPrice: real,
    endPrice: real,
    priceChangePct: real,
    timeInterval: string)

  /** `((to - from) / from) * 100`. The source has no zero guard, so the baseline must be positive. */
  function PctChange(from: real, to: real): real
    requires from > 0.0
  {
    (to - from) / from * 100.0
  }

  /** The change is the price difference scaled to the baseline, with the sign of the move. */
  lemma PctChangeMeaning(from: real, to: real)
    requires from > 0.0
    ensures PctChange(from, to) * from == (to - from) * 100.0
    ensures PctChange(from, to) > 0.0 <==> to > from
    ensures PctChange(from, to) < 0.0 <==> to < from
  {
  }

  /** `abs()`: the size of `x`, whichever its sign. */
  function Abs(x: real): (r: real)
    ensures r >= 0.0 && (r == x || r == -x)
  {
    if x < 0.0 then -x else x
  }

  /** Every stored price is positive. */
  ghost predicate Positive(rows: seq<PriceRow>)
  {
    forall i :: 0 <= i < |rows| ==> rows[i].price > 0.0
  }

  /** Rows of the same crypto appear in non-decreasing timestamp order. */
  ghost predicate TimeOrdered(rows: seq<PriceRow>)
  {
    forall i, j :: 0 <= i < j < |rows| && rows[i].crypto == rows[j].crypto ==>
      rows[i].timestamp <= rows[j].timestamp
  }

  /** A single crypto's rows, ascending by timestamp. */
  ghost predicate Chronological(g: seq<PriceRow>)
  {
    forall i, j :: 0 <= i < j < |g| ==> g[i].timestamp <= g[j].timestamp
  }

  /** No row of `a` is later than any row of `b`. */
  ghost predicate NoneLater(a: seq<PriceRow>, b: seq<PriceRow>)
  {
    forall i, j :: 0 <= i < |a| && 0 <= j < |b| ==> a[i].timestamp <= b[j].timestamp
  }

  /** Cutting a chronological group leaves two chronological parts, the earlier one first. */
  lemma ChronologicalSplit(g: seq<PriceRow>, k: nat)
    requires Chronological(g) && k <= |g|
    ensures Chronological(g[k..])
    ensures NoneLater(g[..k], g[k..])
  {
    var a, b := g[..k], g[k..];
    forall i, j | 0 <= i < j < |b| ensures b[i].timestamp <= b[j].timestamp {
      assert b[i] == g[k + i] && b[j] == g[k + j];
    }
    forall i, j | 0 <= i < |a| && 0 <= j < |b| ensures a[i].timestamp <= b[j].timestamp {
      assert a[i] == g[i] && b[j] == g[k + j];
    }
  }

  /** No stored row is later than the clock reading `now`. */
  ghost predicate NotAfter(rows: seq<PriceRow>, now: int)
  {
    forall i :: 0 <= i < |rows| ==> rows[i].timestamp <= now
  }

  /** The prices of a group of rows, in the same order. */
  function PricesOf(g: seq<PriceRow>): (ps: seq<real>)
    ensures |ps| == |g|
    ensures forall i :: 0 <= i < |g| ==> ps[i] == g[i].price
  {
    if g == [] then [] else PricesOf(g[..|g| - 1]) + [g[|g| - 1].price]
  }

  /** The last `min(n, |s|)` elements of `s` (pandas `tail(n)`, SQL `rn <= n` on a descending rank). */
  function Last<T>(s: seq<T>, n: nat): (r: seq<T>)
    ensures |r| == if |s| < n then |s| else n
    ensures r == s[|s| - |r|..]
  {
    if |s| <= n then s else s[|s| - n..]
  }
}
