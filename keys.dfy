/**
 * The order in which the pipeline visits cryptos. `calculate_stats` walks
 * `df['crypto'].unique()` over rows the query ordered by crypto, and
 * `check_for_alerts` walks `df.groupby('crypto')`, whose keys are sorted: both
 * visit each distinct crypto once, in ascending string order. Strings compare
 * by code point, as Python compares them.
 */
module Keys {
  import opened Records

  /** Strict lexicographic order on strings. */
  predicate Less(a: string, b: string)
  {
    if a == [] then b != []
    else b != [] && (a[0] < b[0] || (a[0] == b[0] && Less(a[1..], b[1..])))
  }

  lemma {:induction false} LessIrreflexive(a: string)
    ensures !Less(a, a)
  {
    if a != [] {
      LessIrreflexive(a[1..]);
    }
  }

  lemma {:induction false} LessTransitive(a: string, b: string, c: string)
    requires Less(a, b) && Less(b, c)
    ensures Less(a, c)
  {
    if a != [] && a[0] == b[0] && b[0] == c[0] {
      LessTransitive(a[1..], b[1..], c[1..]);
    }
  }

  lemma {:induction false} LessTotal(a: string, b: string)
    ensures a == b || Less(a, b) || Less(b, a)
  {
    if a != [] && b != [] && a[0] == b[0] {
      LessTotal(a[1..], b[1..]);
      if a[1..] == b[1..] {
        assert a == [a[0]] + a[1..] && b == [b[0]] + b[1..];
      }
    }
  }

  ghost predicate StrictlySorted(s: seq<string>)
  {
    forall i, j :: 0 <= i < j < |s| ==> Less(s[i], s[j])
  }

  /** Adds `x` to a strictly sorted list of keys, keeping it strictly sorted and duplicate-free. */
  function Insert(s: seq<string>, x: string): (r: seq<string>)
    requires StrictlySorted(s)
    ensures StrictlySorted(r)
    ensures forall y :: y in r <==> y in s || y == x
  {
    if s == [] then [x]
    else if x == s[0] then s
    else if Less(x, s[0]) then
      assert forall j :: 0 <= j < |s| ==> Less(x, s[j]) by {
        forall j | 0 <= j < |s| ensures Less(x, s[j]) {
          if j > 0 { LessTransitive(x, s[0], s[j]); }
        }
      }
      [x] + s
    else
      LessTotal(x, s[0]);
      var rest := Insert(s[1..], x);
      assert forall y :: y in rest ==> Less(s[0], y) by {
        forall y | y in rest ensures Less(s[0], y) {
          if y != x {
            var j :| 0 <= j < |s[1..]| && s[1..][j] == y;
            assert s[j + 1] == y;
          }
        }
      }
      var r := [s[0]] + rest;
      assert forall i, j :: 0 <= i < j < |r| ==> Less(r[i], r[j]) by {
        forall i, j | 0 <= i < j < |r| ensures Less(r[i], r[j]) {
          if i == 0 { assert r[j] in rest; }
          else { assert r[i] == rest[i - 1] && r[j] == rest[j - 1]; }
        }
      }
      assert forall y :: y in s <==> y == s[0] || y in s[1..] by {
        assert s == [s[0]] + s[1..];
      }
      r
  }

  /** The distinct cryptos of `rows`, ascending: the spec of the keys both passes iterate. */
  function SortedDistinct(rows: seq<PriceRow>): (keys: seq<string>)
    ensures StrictlySorted(keys)
  {
    if rows == [] then [] else Insert(SortedDistinct(rows[..|rows| - 1]), rows[|rows| - 1].crypto)
  }

  /** A crypto is a key exactly when some row carries it. */
  lemma {:induction false} SortedDistinctKeys(rows: seq<PriceRow>, c: string)
    ensures c in SortedDistinct(rows) <==> exists i :: 0 <= i < |rows| && rows[i].crypto == c
  {
    if rows != [] {
      var init := rows[..|rows| - 1];
      SortedDistinctKeys(init, c);
      if exists i :: 0 <= i < |init| && init[i].crypto == c {
        var i :| 0 <= i < |init| && init[i].crypto == c;
        assert rows[i].crypto == c;
      }
      if exists i :: 0 <= i < |rows| && rows[i].crypto == c {
        var i :| 0 <= i < |rows| && rows[i].crypto == c;
        if i < |init| { assert init[i].crypto == c; }
      }
    }
  }

  ghost predicate Distinct(s: seq<string>)
  {
    forall i, j :: 0 <= i < |s| && 0 <= j < |s| && i != j ==> s[i] != s[j]
  }

  /** Strictly sorted keys hold no duplicates. */
  lemma SortedIsDistinct(keys: seq<string>)
    requires StrictlySorted(keys)
    ensures Distinct(keys)
  {
    forall i, j | 0 <= i < |keys| && 0 <= j < |keys| && i != j ensures keys[i] != keys[j] {
      if keys[i] == keys[j] { LessIrreflexive(keys[i]); }
    }
  }

  /** Collects the distinct cryptos of `rows` in ascending order, one row at a time. */
  method CryptoKeys(rows: seq<PriceRow>) returns (keys: seq<string>)
    ensures keys == SortedDistinct(rows)
    ensures StrictlySorted(keys)
    ensures forall c :: c in keys <==> exists i :: 0 <= i < |rows| && rows[i].crypto == c
  {
    keys := [];
    for n := 0 to |rows|
      invariant keys == SortedDistinct(rows[..n])
    {
      assert rows[..n + 1][..n] == rows[..n];
      keys := Insert(keys, rows[n].crypto);
    }
    assert rows[..|rows|] == rows;
    forall c ensures c in keys <==> exists i :: 0 <= i < |rows| && rows[i].crypto == c {
      SortedDistinctKeys(rows, c);
    }
  }
}
