/**
 * Per-cluster hourly demand (build_cluster_hourly): the trips of one cluster,
 * counted per hour with a pandas Grouper of frequency "H", which yields one
 * bin for every hour from the earliest to the latest trip (empty hours
 * count 0). Timestamps are integer seconds; a trip whose datetime did not
 * parse (NaT) carries None and falls into no bin.
 */
module Hourly {
  import opened Wrappers

  const SecondsPerHour: int := 3600

  /** One row of the segmented-trips table: parsed datetime and trip_segment label. */
  datatype Trip = Trip(datetime: Option<int>, segment: int)

  /** One row of the hourly table: ds (start of the hour, in seconds), y (trip count), cluster. */
  datatype HourRow = HourRow(ds: int, y: nat, cluster: int)

  /** The hour bucket of a timestamp (floor division, as pandas truncates to the hour). */
  function HourOf(t: int): int { t / SecondsPerHour }

  /** Some trip carries the label c (the filtered frame is not empty). */
  predicate HasSegment(trips: seq<Trip>, c: int)
  {
    exists i :: 0 <= i < |trips| && trips[i].segment == c
  }

  /** True when the trip belongs to cluster c and its datetime parsed and falls in hour h. */
  predicate InHour(t: Trip, c: int, h: int)
  {
    t.segment == c && t.datetime.Some? && HourOf(t.datetime.value) == h
  }

  /** Number of trips of cluster c whose datetime falls in hour h. */
  function HourCount(trips: seq<Trip>, c: int, h: int): nat
  {
    if trips == [] then 0
    else (if InHour(trips[0], c, h) then 1 else 0) + HourCount(trips[1..], c, h)
  }

  /** Number of trips of cluster c that have a parsed datetime. */
  function TimedCount(trips: seq<Trip>, c: int): nat
  {
    if trips == [] then 0
    else (if trips[0].segment == c && trips[0].datetime.Some? then 1 else 0) + TimedCount(trips[1..], c)
  }

  /** Number of trips of cluster c whose datetime falls in an hour of [lo, hi). */
  function RangeCount(trips: seq<Trip>, c: int, lo: int, hi: int): nat
  {
    if trips == [] then 0
    else
      var t := trips[0];
      (if t.segment == c && t.datetime.Some? && lo <= HourOf(t.datetime.value) < hi then 1 else 0)
      + RangeCount(trips[1..], c, lo, hi)
  }

  /** The earliest occupied hour of cluster c, None when no trip of c has a datetime. */
  function MinHour(trips: seq<Trip>, c: int): (r: Option<int>)
    ensures r.None? <==> TimedCount(trips, c) == 0
    ensures r.Some? ==> HourCount(trips, c, r.value) > 0
    ensures r.Some? ==> forall h :: HourCount(trips, c, h) > 0 ==> r.value <= h
  {
    if trips == [] then None
    else
      var rest := MinHour(trips[1..], c);
      HourCountAtMostTimed(trips[1..], c);
      var t := trips[0];
      if t.segment == c && t.datetime.Some? then
        var h := HourOf(t.datetime.value);
        if rest.Some? && rest.value < h then rest else Some(h)
      else rest
  }

  /** The latest occupied hour of cluster c, None when no trip of c has a datetime. */
  function MaxHour(trips: seq<Trip>, c: int): (r: Option<int>)
    ensures r.None? <==> TimedCount(trips, c) == 0
    ensures r.Some? ==> HourCount(trips, c, r.value) > 0
    ensures r.Some? ==> forall h :: HourCount(trips, c, h) > 0 ==> h <= r.value
  {
    if trips == [] then None
    else
      var rest := MaxHour(trips[1..], c);
      HourCountAtMostTimed(trips[1..], c);
      var t := trips[0];
      if t.segment == c && t.datetime.Some? then
        var h := HourOf(t.datetime.value);
        if rest.Some? && rest.value > h then rest else Some(h)
      else rest
  }

  /** Total demand of an hourly table. */
  function SumY(rows: seq<HourRow>): nat
  {
    if rows == [] then 0 else SumY(rows[..|rows| - 1]) + rows[|rows| - 1].y
  }

  /**
   * build_cluster_hourly: None when no trip carries the label; otherwise one
   * row per hour from the first to the last occupied hour, each counting the
   * cluster's trips in that hour.
   */
  function BuildClusterHourly(trips: seq<Trip>, c: int): (r: Option<seq<HourRow>>)
    ensures r.None? <==> !HasSegment(trips, c)
  {
    if !HasSegment(trips, c) then None
    else
      var lo, hi := MinHour(trips, c), MaxHour(trips, c);
      if lo.None? || hi.None? then Some([])
      else Some(Bins(trips, c, lo.value, hi.value))
  }

  /**
   * The hourly table of a cluster with trips: rows labelled with the
   * cluster, on consecutive hour boundaries, each counting the trips of its
   * hour, starting and ending at an occupied hour, leaving out no occupied
   * hour, and adding up to the number of the cluster's timed trips.
   */
  lemma HourlyTableShape(trips: seq<Trip>, c: int)
    requires HasSegment(trips, c)
    ensures var rows := BuildClusterHourly(trips, c).value;
      && (forall i :: 0 <= i < |rows| ==> rows[i].cluster == c)
      && (forall i :: 0 <= i < |rows| ==> rows[i].ds % SecondsPerHour == 0)
      && (forall i :: 0 < i < |rows| ==> rows[i].ds == rows[i - 1].ds + SecondsPerHour)
      && (forall i :: 0 <= i < |rows| ==> rows[i].y == HourCount(trips, c, rows[i].ds / SecondsPerHour))
      && (|rows| > 0 ==> rows[0].y > 0 && rows[|rows| - 1].y > 0)
      && (forall h :: HourCount(trips, c, h) > 0 ==> exists i :: 0 <= i < |rows| && rows[i].ds == h * SecondsPerHour)
      && SumY(rows) == TimedCount(trips, c)
  {
    var lo, hi := MinHour(trips, c), MaxHour(trips, c);
    if lo.None? || hi.None? {
      HourCountAtMostTimed(trips, c);
    } else {
      BinsShape(trips, c, lo.value, hi.value);
      BinsCoverOccupiedHours(trips, c, lo.value, hi.value);
      BinsTotal(trips, c, lo.value, hi.value);
    }
  }

  /** The bins of hours lo..hi, inclusive. */
  function Bins(trips: seq<Trip>, c: int, lo: int, hi: int): (rows: seq<HourRow>)
    requires lo <= hi
    ensures |rows| == hi - lo + 1
    ensures forall i :: 0 <= i < |rows| ==>
              rows[i] == HourRow((lo + i) * SecondsPerHour, HourCount(trips, c, lo + i), c)
  {
    seq(hi - lo + 1, i requires 0 <= i <= hi - lo =>
      HourRow((lo + i) * SecondsPerHour, HourCount(trips, c, lo + i), c))
  }

  lemma {:induction false} HourCountAtMostTimed(trips: seq<Trip>, c: int)
    ensures forall h :: HourCount(trips, c, h) <= TimedCount(trips, c)
  {
    if trips != [] {
      HourCountAtMostTimed(trips[1..], c);
    }
  }

  /** Bins are labelled with c, hour-aligned, one hour apart, and count their hour. */
  lemma BinsShape(trips: seq<Trip>, c: int, lo: int, hi: int)
    requires lo <= hi
    requires HourCount(trips, c, lo) > 0 && HourCount(trips, c, hi) > 0
    ensures var rows := Bins(trips, c, lo, hi);
      && (forall i :: 0 <= i < |rows| ==> rows[i].cluster == c)
      && (forall i :: 0 <= i < |rows| ==> rows[i].ds % SecondsPerHour == 0)
      && (forall i :: 0 < i < |rows| ==> rows[i].ds == rows[i - 1].ds + SecondsPerHour)
      && (forall i :: 0 <= i < |rows| ==> rows[i].y == HourCount(trips, c, rows[i].ds / SecondsPerHour))
      && rows[0].y > 0 && rows[|rows| - 1].y > 0
  {
    var rows := Bins(trips, c, lo, hi);
    forall i | 0 <= i < |rows|
      ensures rows[i].ds % SecondsPerHour == 0 && rows[i].ds / SecondsPerHour == lo + i
    {
      HourStart(lo + i);
    }
  }

  lemma HourStart(h: int)
    ensures (h * SecondsPerHour) % SecondsPerHour == 0 && (h * SecondsPerHour) / SecondsPerHour == h
  {
  }

  /** Every occupied hour between the bounds has its own bin. */
  lemma BinsCoverOccupiedHours(trips: seq<Trip>, c: int, lo: int, hi: int)
    requires lo <= hi
    requires forall h :: HourCount(trips, c, h) > 0 ==> lo <= h <= hi
    ensures forall h :: HourCount(trips, c, h) > 0 ==>
              exists i :: 0 <= i < |Bins(trips, c, lo, hi)| && Bins(trips, c, lo, hi)[i].ds == h * SecondsPerHour
  {
    var rows := Bins(trips, c, lo, hi);
    forall h | HourCount(trips, c, h) > 0
      ensures exists i :: 0 <= i < |rows| && rows[i].ds == h * SecondsPerHour
    {
      assert rows[h - lo].ds == h * SecondsPerHour;
    }
  }

  /** The bins between the bounds add up to every timed trip of the cluster. */
  lemma BinsTotal(trips: seq<Trip>, c: int, lo: int, hi: int)
    requires lo <= hi
    requires forall h :: HourCount(trips, c, h) > 0 ==> lo <= h <= hi
    ensures SumY(Bins(trips, c, lo, hi)) == TimedCount(trips, c)
  {
    var rows := Bins(trips, c, lo, hi);
    BinsSum(trips, c, lo, hi, |rows|);
    assert rows[..|rows|] == rows;
    RangeCountCovers(trips, c, lo, hi + 1);
  }

  lemma {:induction false} RangeCountExtend(trips: seq<Trip>, c: int, lo: int, hi: int)
    requires lo <= hi
    ensures RangeCount(trips, c, lo, hi + 1) == RangeCount(trips, c, lo, hi) + HourCount(trips, c, hi)
  {
    if trips != [] {
      RangeCountExtend(trips[1..], c, lo, hi);
    }
  }

  lemma {:induction false} BinsSum(trips: seq<Trip>, c: int, lo: int, hi: int, k: nat)
    requires lo <= hi && k <= hi - lo + 1
    ensures SumY(Bins(trips, c, lo, hi)[..k]) == RangeCount(trips, c, lo, lo + k)
  {
    var rows := Bins(trips, c, lo, hi);
    if k == 0 {
      RangeCountEmpty(trips, c, lo);
    } else {
      BinsSum(trips, c, lo, hi, k - 1);
      assert rows[..k][..k - 1] == rows[..k - 1];
      RangeCountExtend(trips, c, lo, lo + k - 1);
    }
  }

  lemma {:induction false} RangeCountEmpty(trips: seq<Trip>, c: int, lo: int)
    ensures RangeCount(trips, c, lo, lo) == 0
  {
    if trips != [] {
      RangeCountEmpty(trips[1..], c, lo);
    }
  }

  /** When every occupied hour lies in [lo, hi), the range count is the number of timed trips. */
  lemma {:induction false} RangeCountCovers(trips: seq<Trip>, c: int, lo: int, hi: int)
    requires forall h :: HourCount(trips, c, h) > 0 ==> lo <= h < hi
    ensures RangeCount(trips, c, lo, hi) == TimedCount(trips, c)
  {
    if trips != [] {
      forall h | HourCount(trips[1..], c, h) > 0
        ensures lo <= h < hi
      {
        assert HourCount(trips, c, h) > 0;
      }
      RangeCountCovers(trips[1..], c, lo, hi);
      var t := trips[0];
      if t.segment == c && t.datetime.Some? {
        assert HourCount(trips, c, HourOf(t.datetime.value)) > 0;
      }
    }
  }

  /**
   * The zero-sum guard of run_cluster_demand can only fire for a cluster
   * that has trips but none of them with a parsed datetime.
   */
  lemma ZeroSumMeansNoTimedTrips(trips: seq<Trip>, c: int, rows: seq<HourRow>)
    requires BuildClusterHourly(trips, c) == Some(rows)
    ensures SumY(rows) == 0 <==> TimedCount(trips, c) == 0
    ensures SumY(rows) == 0 <==> rows == []
  {
    HourlyTableShape(trips, c);
    if rows != [] {
      SumYAtLeastLast(rows);
    }
  }

  lemma SumYAtLeastLast(rows: seq<HourRow>)
    requires rows != []
    ensures SumY(rows) >= rows[|rows| - 1].y
  {
  }

  /** A trip of c with a parsed datetime. */
  predicate Timed(t: Trip, c: int) { t.segment == c && t.datetime.Some? }

  lemma {:induction false} TimedCountPositive(trips: seq<Trip>, c: int)
    ensures TimedCount(trips, c) == 0 <==> forall i :: 0 <= i < |trips| ==> !Timed(trips[i], c)
  {
    if trips != [] {
      TimedCountPositive(trips[1..], c);
      assert forall i :: 1 <= i < |trips| ==> trips[i] == trips[1..][i - 1];
    }
  }

  // ---------------------------------------------------------------------
  // Cluster discovery: sorted(df["trip_segment"].unique())
  // ---------------------------------------------------------------------

  predicate StrictlyIncreasing(s: seq<int>)
  {
    forall i, j :: 0 <= i < j < |s| ==> s[i] < s[j]
  }

  function Segments(trips: seq<Trip>): set<int>
  {
    set t | t in trips :: t.segment
  }

  /** Insert x into a strictly increasing sequence, keeping it free of duplicates. */
  function Insert(s: seq<int>, x: int): (r: seq<int>)
    requires StrictlyIncreasing(s)
    ensures StrictlyIncreasing(r)
    ensures forall y :: y in r <==> y in s || y == x
  {
    if s == [] then [x]
    else if x < s[0] then [x] + s
    else if x == s[0] then s
    else
      var tail := Insert(s[1..], x);
      assert forall y :: y in tail ==> s[0] < y;
      ConsIncreasing(s[0], tail);
      [s[0]] + tail
  }

  lemma ConsIncreasing(h: int, t: seq<int>)
    requires StrictlyIncreasing(t) && forall y :: y in t ==> h < y
    ensures StrictlyIncreasing([h] + t)
  {
    var r := [h] + t;
    forall i, j | 0 <= i < j < |r|
      ensures r[i] < r[j]
    {
      assert r[j] == t[j - 1];
      if i > 0 {
        assert r[i] == t[i - 1];
      } else {
        assert t[j - 1] in t;
      }
    }
  }

  /** The distinct cluster labels present in the trips, in ascending order. */
  function Clusters(trips: seq<Trip>): (cs: seq<int>)
    ensures StrictlyIncreasing(cs)
    ensures forall c :: c in cs <==> c in Segments(trips)
  {
    if trips == [] then []
    else
      var rest := Clusters(trips[1..]);
      assert forall c :: c in Segments(trips) <==> c == trips[0].segment || c in Segments(trips[1..]);
      Insert(rest, trips[0].segment)
  }
}
