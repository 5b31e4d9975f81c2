/**
 * Chronological train/test split (train_test_split_time): n_test = int(n * ratio),
 * train = rows[:-n_test], test = rows[-n_test:], with Python's slice
 * semantics, so that n_test == 0 gives an empty train and the whole
 * series as test.
 */
module TimeSplit {

  /** The split ratio run_cluster_demand passes. */
  const DefaultRatio: real := 0.2

  /** Python's int() applied to a number: truncation toward zero. */
  function Trunc(x: real): (k: int)
    ensures x >= 0.0 ==> k as real <= x < k as real + 1.0
    ensures x < 0.0 ==> k as real - 1.0 < x <= k as real
  {
    if x >= 0.0 then x.Floor else -((-x).Floor)
  }

  /** Python's normalisation of a slice bound i over a sequence of length n. */
  function SliceBound(n: nat, i: int): (k: nat)
    ensures k <= n
    ensures 0 <= i <= n ==> k == i
    ensures 0 <= n + i && i < 0 ==> k == n + i
    ensures n + i < 0 ==> k == 0
    ensures n < i ==> k == n
  {
    if i < 0 then (if n + i < 0 then 0 else n + i) else if i > n then n else i
  }

  /** n_test = int(n * ratio). */
  function TestLength(n: nat, ratio: real): int
  {
    Trunc(n as real * ratio)
  }

  /** train_test_split_time: the rows before position -n_test and the rows from it. */
  function Split<T>(s: seq<T>, ratio: real): (r: (seq<T>, seq<T>))
    ensures r.0 + r.1 == s
    ensures 1 <= TestLength(|s|, ratio) <= |s| ==>
              |r.1| == TestLength(|s|, ratio) && r.1 == s[|s| - TestLength(|s|, ratio)..]
    ensures TestLength(|s|, ratio) == 0 ==> r.0 == [] && r.1 == s
  {
    var b := SliceBound(|s|, -TestLength(|s|, ratio));
    (s[..b], s[b..])
  }

  /** At ratio 0.2 the test length is floor(n / 5). */
  lemma DefaultTestLength(n: nat)
    ensures TestLength(n, DefaultRatio) == n / 5
  {
    var q, r := n / 5, n % 5;
    assert n as real * DefaultRatio == q as real + r as real / 5.0;
    var k := TestLength(n, DefaultRatio);
    assert k as real <= q as real + r as real / 5.0 < k as real + 1.0;
  }

  /**
   * The split run_cluster_demand performs: fewer than five rows leave the
   * train part empty and put every row in test; otherwise the last
   * floor(n / 5) rows are the test part and the train part is not empty.
   */
  lemma DefaultSplit<T>(s: seq<T>)
    ensures Split(s, DefaultRatio).0 + Split(s, DefaultRatio).1 == s
    ensures |s| < 5 ==> Split(s, DefaultRatio).0 == [] && Split(s, DefaultRatio).1 == s
    ensures |s| >= 5 ==> |Split(s, DefaultRatio).1| == |s| / 5 && |Split(s, DefaultRatio).0| == |s| - |s| / 5 > 0
    ensures Split(s, DefaultRatio).1 == [] <==> s == []
  {
    DefaultTestLength(|s|);
  }
}
