/**
 * The bookkeeping of the stats pass: visiting keys in order and writing, for
 * each, the row (if any) a function of the key gives, and what that leaves
 * for each crypto.
 */
module StatRows {
  import opened Records
  import opened Keys

  /** The stat rows (none or one) of one crypto. */
  function Present(r: Option<StatRow>): seq<StatRow>
  {
    if r.None? then [] else [r.value]
  }

  /**
   * The rows the loop writes after visiting the first `n` of `keys`, in that
   * order, when visiting crypto `c` writes the row `f(c)`, if any.
   */
  function StatsOver(keys: seq<string>, n: nat, f: string -> Option<StatRow>): seq<StatRow>
    requires n <= |keys|
  {
    if n == 0 then [] else StatsOver(keys, n - 1, f) + Present(f(keys[n - 1]))
  }

  /** The rows of `stats` that belong to crypto `c`. */
  function StatsOf(stats: seq<StatRow>, c: string): seq<StatRow>
  {
    if stats == [] then []
    else StatsOf(stats[..|stats| - 1], c) + (if stats[|stats| - 1].crypto == c then [stats[|stats| - 1]] else [])
  }

  /** Writing a row for another crypto, or none, leaves a crypto's rows as they were. */
  lemma StatsOfOther(prev: seq<StatRow>, r: Option<StatRow>, c: string)
    requires r.Some? ==> r.value.crypto != c
    ensures StatsOf(prev + Present(r), c) == StatsOf(prev, c)
  {
    if r.Some? {
      assert (prev + [r.value])[..|prev|] == prev;
    } else {
      assert prev + [] == prev;
    }
  }

  /** Writing the first row of a crypto, if any, makes it that crypto's only row. */
  lemma StatsOfFirst(prev: seq<StatRow>, r: Option<StatRow>, c: string)
    requires StatsOf(prev, c) == [] && (r.Some? ==> r.value.crypto == c)
    ensures StatsOf(prev + Present(r), c) == Present(r)
  {
    if r.Some? {
      assert (prev + [r.value])[..|prev|] == prev;
    } else {
      assert prev + [] == prev;
    }
  }

  /** Every row `f` gives for crypto `k` is labelled `k`. */
  ghost predicate Labelled(f: string -> Option<StatRow>)
  {
    forall k :: f(k).Some? ==> f(k).value.crypto == k
  }

  /** Every row `f` gives carries the stamp `now`. */
  ghost predicate Stamped(f: string -> Option<StatRow>, now: int)
  {
    forall k :: f(k).Some? ==> f(k).value.timestamp == now
  }

  /** A crypto none of the visited keys names gets no row. */
  lemma {:induction false} StatsOverAbsent(keys: seq<string>, n: nat, f: string -> Option<StatRow>, c: string)
    requires n <= |keys| && Labelled(f)
    requires forall j :: 0 <= j < n ==> keys[j] != c
    ensures StatsOf(StatsOver(keys, n, f), c) == []
  {
    if n > 0 {
      var prev, r := StatsOver(keys, n - 1, f), f(keys[n - 1]);
      assert StatsOver(keys, n, f) == prev + Present(r);
      StatsOverAbsent(keys, n - 1, f, c);
      StatsOfOther(prev, r, c);
    }
  }

  /** When the last visited key names no earlier key's crypto, that crypto's rows are its visit's row, if any. */
  lemma StatsOverLast(keys: seq<string>, n: nat, f: string -> Option<StatRow>)
    requires 0 < n <= |keys| && Labelled(f)
    requires forall j :: 0 <= j < n - 1 ==> keys[j] != keys[n - 1]
    ensures StatsOf(StatsOver(keys, n, f), keys[n - 1]) == Present(f(keys[n - 1]))
  {
    var prev, r := StatsOver(keys, n - 1, f), f(keys[n - 1]);
    StatsOverAbsent(keys, n - 1, f, keys[n - 1]);
    StatsOfFirst(prev, r, keys[n - 1]);
  }

  /** When only the `i`-th of the visited keys names its crypto, that crypto's rows are the one row its visit wrote, if any. */
  lemma {:induction false} StatsOverAt(keys: seq<string>, n: nat, f: string -> Option<StatRow>, i: nat)
    requires i < n <= |keys| && Labelled(f)
    requires forall j :: 0 <= j < n && j != i ==> keys[j] != keys[i]
    ensures StatsOf(StatsOver(keys, n, f), keys[i]) == Present(f(keys[i]))
  {
    if i == n - 1 {
      StatsOverLast(keys, n, f);
    } else {
      StatsOverAt(keys, n - 1, f, i);
      StatsOfOther(StatsOver(keys, n - 1, f), f(keys[n - 1]), keys[i]);
    }
  }

  /** Visiting distinct keys, each crypto's rows are the one row its visit wrote, if it was visited. */
  lemma StatsOverPerCrypto(keys: seq<string>, n: nat, f: string -> Option<StatRow>, c: string)
    requires n <= |keys| && Distinct(keys) && Labelled(f)
    ensures StatsOf(StatsOver(keys, n, f), c) == if c in keys[..n] then Present(f(c)) else []
  {
    if c in keys[..n] {
      var i :| 0 <= i < n && keys[..n][i] == c;
      assert keys[i] == c;
      assert forall j :: 0 <= j < n && j != i ==> keys[j] != keys[i];
      StatsOverAt(keys, n, f, i);
    } else {
      forall j | 0 <= j < n ensures keys[j] != c {
        assert keys[..n][j] == keys[j];
      }
      StatsOverAbsent(keys, n, f, c);
    }
  }

  /** Every row written carries the stamp every visit writes. */
  lemma {:induction false} StatsOverStamped(keys: seq<string>, n: nat, f: string -> Option<StatRow>, now: int)
    requires n <= |keys|
    requires Stamped(f, now)
    ensures forall i :: 0 <= i < |StatsOver(keys, n, f)| ==> StatsOver(keys, n, f)[i].timestamp == now
  {
    if n > 0 {
      StatsOverStamped(keys, n - 1, f, now);
    }
  }
}
