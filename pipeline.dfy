/**
 * run_cluster_demand. Clusters are visited once each
 * in ascending order; a cluster without trips or without demand is skipped;
 * otherwise its hourly table is written, split, forecast by the baseline
 * (always) and by Prophet (when the library is present and the branch does
 * not raise), and one metrics row per successful model is appended.
 * The baseline's IndexError on an empty train part is raised outside any
 * try and aborts the whole run.
 */
module Pipeline {
  import opened Wrappers
  import opened Hourly
  import opened TimeSplit
  import opened Forecast
  import opened Metrics
  import opened Artifacts

  /** One row of the metrics table: cluster, model, and its scores. */
  datatype MetricRow = MetricRow(cluster: int, model: ModelName, scores: Scores)

  /** The error that ends a run: the baseline indexed an empty train frame. */
  datatype RunFault = BaselineIndexError(cluster: int)

  /** What one cluster contributes: nothing, or its metric rows and the files it wrote. */
  datatype ClusterOutcome = Skipped | Processed(rows: seq<MetricRow>, files: seq<string>)

  /** The accumulated metrics table and the files written, in order. */
  datatype Report = Report(rows: seq<MetricRow>, files: seq<string>)

  /** The files of the baseline part of a processed cluster, in the order they are written. */
  function BaselineFiles(c: int): seq<string>
  {
    [ArtifactName(c, HourlyCsv), ArtifactName(c, BaselineForecastCsv), ArtifactName(c, ForecastPlot(Baseline))]
  }

  /** The files of a successful Prophet branch, in the order they are written. */
  function ProphetFiles(c: int): seq<string>
  {
    [ArtifactName(c, ProphetTestCsv), ArtifactName(c, ForecastPlot(Prophet)), ArtifactName(c, ProphetFutureCsv)]
  }

  /**
   * The try block of the Prophet branch: the oracle's predictions scored
   * against the test actuals; any failure (the oracle's or eval_metrics')
   * is caught and yields no scores.
   */
  function ProphetBranch(train: seq<HourRow>, test: seq<HourRow>, prophet: ProphetOracle): (r: Option<Scores>)
    ensures r.Some? <==> prophet(train, test).Some? && |prophet(train, test).value| == |test| > 0
  {
    match prophet(train, test)
    case None => None
    case Some(p) =>
      match EvalMetrics(Actuals(test), p)
      case Err(_) => None
      case Ok(s) => Some(s)
  }

  /** The hourly table of a cluster that is not skipped. */
  predicate HasDemand(trips: seq<Trip>, c: int)
  {
    HasSegment(trips, c) && TimedCount(trips, c) > 0
  }

  /** The body of the loop of run_cluster_demand for one cluster. */
  function ProcessCluster(trips: seq<Trip>, c: int, hasProphet: bool, prophet: ProphetOracle): (r: Result<ClusterOutcome, RunFault>)
    ensures !HasSegment(trips, c) ==> r == Ok(Skipped)
    ensures r.Err? ==> r.error == BaselineIndexError(c)
    ensures r.Ok? && r.value.Processed? ==> forall k :: 0 <= k < |r.value.rows| ==> r.value.rows[k].cluster == c
  {
    match BuildClusterHourly(trips, c)
    case None => Ok(Skipped)
    case Some(ts) => ProcessSeries(c, ts, hasProphet, prophet)
  }

  /** The loop body once the hourly table exists: the zero-demand skip, then the split. */
  function ProcessSeries(c: int, ts: seq<HourRow>, hasProphet: bool, prophet: ProphetOracle): Result<ClusterOutcome, RunFault>
  {
    if SumY(ts) == 0 then Ok(Skipped)
    else
      DefaultSplit(ts);
      ProcessSplit(c, Split(ts, DefaultRatio).0, Split(ts, DefaultRatio).1, hasProphet, prophet)
  }

  /** The part of the loop body after the split: baseline, then the optional Prophet branch. */
  function ProcessSplit(c: int, train: seq<HourRow>, test: seq<HourRow>, hasProphet: bool, prophet: ProphetOracle): (r: Result<ClusterOutcome, RunFault>)
    requires test != []
    ensures r.Err? <==> train == []
    ensures r.Err? ==> r.error == BaselineIndexError(c)
    ensures r.Ok? ==> r.value.Processed? && 1 <= |r.value.rows| <= 2 && r.value.rows[0].model == Baseline
    ensures r.Ok? ==> forall k :: 0 <= k < |r.value.rows| ==> r.value.rows[k].cluster == c
  {
    match BaselineNaiveLast(train, test)
    case Err(_) => Err(BaselineIndexError(c))
    case Ok(pred) =>
      var baseRow := MetricRow(c, Baseline, EvalMetrics(Actuals(test), pred).value);
      match if hasProphet then ProphetBranch(train, test, prophet) else None
      case None => Ok(Processed([baseRow], BaselineFiles(c)))
      case Some(s) => Ok(Processed([baseRow] + [MetricRow(c, Prophet, s)], BaselineFiles(c) + ProphetFiles(c)))
  }

  /** The loop over the clusters cs, stopping at the first fault. */
  function RunClusters(trips: seq<Trip>, cs: seq<int>, hasProphet: bool, prophet: ProphetOracle): Result<Report, RunFault>
  {
    if cs == [] then Ok(Report([], []))
    else Extend(RunClusters(trips, cs[..|cs| - 1], hasProphet, prophet), ProcessCluster(trips, cs[|cs| - 1], hasProphet, prophet))
  }

  /** One more cluster on top of the run so far: a fault stops the run, a skip adds nothing. */
  function Extend(acc: Result<Report, RunFault>, o: Result<ClusterOutcome, RunFault>): Result<Report, RunFault>
  {
    match acc
    case Err(f) => Err(f)
    case Ok(rep) =>
      match o
      case Err(f) => Err(f)
      case Ok(Skipped) => Ok(rep)
      case Ok(Processed(rows, files)) => Ok(Report(rep.rows + rows, rep.files + files))
  }

  /** The whole run: every cluster in ascending order, then the metrics table file. */
  function RunSpec(trips: seq<Trip>, hasProphet: bool, prophet: ProphetOracle): (r: Result<Report, RunFault>)
    ensures r.Err? <==> exists i :: 0 <= i < |Clusters(trips)| && ProcessCluster(trips, Clusters(trips)[i], hasProphet, prophet).Err?
    ensures r.Ok? ==> |r.value.files| > 0 && r.value.files[|r.value.files| - 1] == MetricsFile
  {
    RunAbortsIff(trips, Clusters(trips), hasProphet, prophet);
    match RunClusters(trips, Clusters(trips), hasProphet, prophet)
    case Err(f) => Err(f)
    case Ok(rep) => Ok(Report(rep.rows, rep.files + [MetricsFile]))
  }

  /**
   * One pass of the loop body of run_cluster_demand: the hourly table, the
   * skip test, the split, then the forecasting steps.
   */
  method RunCluster(trips: seq<Trip>, clusterId: int, hasProphet: bool, prophet: ProphetOracle)
    returns (o: Result<ClusterOutcome, RunFault>)
    ensures o == ProcessCluster(trips, clusterId, hasProphet, prophet)
  {
    var hourly := BuildClusterHourly(trips, clusterId);
    if hourly.None? || SumY(hourly.value) == 0 {
      return Ok(Skipped);
    }
    var ts := hourly.value;
    DefaultSplit(ts);
    var split := Split(ts, DefaultRatio);
    o := RunSplit(clusterId, split.0, split.1, hasProphet, prophet);
  }

  /**
   * The forecasting steps of one cluster, statement by statement: the
   * baseline (whose error is not caught), then the Prophet branch, whose
   * failure is caught and only leaves its row and files out.
   */
  method RunSplit(clusterId: int, train: seq<HourRow>, test: seq<HourRow>, hasProphet: bool, prophet: ProphetOracle)
    returns (o: Result<ClusterOutcome, RunFault>)
    requires test != []
    ensures o == ProcessSplit(clusterId, train, test, hasProphet, prophet)
  {
    var basePred := BaselineNaiveLast(train, test);
    if basePred.Err? {
      return Err(BaselineIndexError(clusterId));
    }
    var baseScores := EvalMetrics(Actuals(test), basePred.value).value;
    var written := BaselineFiles(clusterId);
    var rows := [MetricRow(clusterId, Baseline, baseScores)];
    if hasProphet {
      var prophetPred := prophet(train, test);
      if prophetPred.Some? {
        var prophetScores := EvalMetrics(Actuals(test), prophetPred.value);
        if prophetScores.Ok? {
          written := written + ProphetFiles(clusterId);
          rows := rows + [MetricRow(clusterId, Prophet, prophetScores.value)];
        }
      }
    }
    return Ok(Processed(rows, written));
  }

  /**
   * run_cluster_demand, with the library check HAS_PROPHET and the Prophet
   * branch passed in.
   */
  method RunClusterDemand(trips: seq<Trip>, hasProphet: bool, prophet: ProphetOracle) returns (r: Result<Report, RunFault>)
    ensures r == RunSpec(trips, hasProphet, prophet)
  {
    var clusters := Clusters(trips);
    var metricsAll: seq<MetricRow> := [];
    var written: seq<string> := [];
    for i := 0 to |clusters|
      invariant RunClusters(trips, clusters[..i], hasProphet, prophet) == Ok(Report(metricsAll, written))
    {
      var outcome := RunCluster(trips, clusters[i], hasProphet, prophet);
      RunClustersStep(trips, clusters, i, hasProphet, prophet);
      match outcome {
        case Err(f) =>
          RunStopsAtFault(trips, clusters, i + 1, hasProphet, prophet);
          return Err(f);
        case Ok(Skipped) =>
        case Ok(Processed(rows, files)) =>
          metricsAll := metricsAll + rows;
          written := written + files;
      }
    }
    assert clusters[..|clusters|] == clusters;
    assert RunClusters(trips, clusters, hasProphet, prophet) == Ok(Report(metricsAll, written));
    written := written + [MetricsFile];
    r := Ok(Report(metricsAll, written));
  }

  lemma RunClustersStep(trips: seq<Trip>, cs: seq<int>, i: nat, hasProphet: bool, prophet: ProphetOracle)
    requires i < |cs|
    ensures RunClusters(trips, cs[..i + 1], hasProphet, prophet) ==
      Extend(RunClusters(trips, cs[..i], hasProphet, prophet), ProcessCluster(trips, cs[i], hasProphet, prophet))
  {
    assert cs[..i + 1][..i] == cs[..i];
  }

  lemma {:induction false} RunStopsAtFault(trips: seq<Trip>, cs: seq<int>, k: nat, hasProphet: bool, prophet: ProphetOracle)
    requires k <= |cs|
    requires RunClusters(trips, cs[..k], hasProphet, prophet).Err?
    ensures RunClusters(trips, cs, hasProphet, prophet) == RunClusters(trips, cs[..k], hasProphet, prophet)
    decreases |cs| - k
  {
    if k < |cs| {
      assert cs[..k + 1][..k] == cs[..k];
      RunStopsAtFault(trips, cs, k + 1, hasProphet, prophet);
    } else {
      assert cs[..k] == cs;
    }
  }

  // ---------------------------------------------------------------------
  // One cluster
  // ---------------------------------------------------------------------

  /** A cluster is skipped exactly when it has no trips or none of them carries a timestamp. */
  lemma SkippedIffNoDemand(trips: seq<Trip>, c: int, hasProphet: bool, prophet: ProphetOracle)
    ensures ProcessCluster(trips, c, hasProphet, prophet) == Ok(Skipped) <==> !HasDemand(trips, c)
  {
    match BuildClusterHourly(trips, c)
    case None =>
    case Some(ts) =>
      ZeroSumMeansNoTimedTrips(trips, c, ts);
  }

  /**
   * The run is aborted by a cluster exactly when that cluster has demand
   * but its hourly table is shorter than five hours, so that the split
   * leaves nothing to train on.
   */
  lemma AbortIffShortSeries(trips: seq<Trip>, c: int, hasProphet: bool, prophet: ProphetOracle)
    ensures ProcessCluster(trips, c, hasProphet, prophet).Err? <==>
      HasDemand(trips, c) && |BuildClusterHourly(trips, c).value| < 5
    ensures ProcessCluster(trips, c, hasProphet, prophet).Err? ==>
      ProcessCluster(trips, c, hasProphet, prophet).error == BaselineIndexError(c)
  {
    match BuildClusterHourly(trips, c)
    case None =>
    case Some(ts) =>
      ZeroSumMeansNoTimedTrips(trips, c, ts);
      BaselineOnDefaultSplit(ts);
  }

  /**
   * A processed cluster contributes its baseline row first, then a Prophet
   * row exactly when the library is present and Prophet predicted one value
   * per test hour; its files follow the same pattern.
   */
  lemma ProcessedShape(c: int, train: seq<HourRow>, test: seq<HourRow>, hasProphet: bool, prophet: ProphetOracle)
    requires test != [] && train != []
    ensures ProcessSplit(c, train, test, hasProphet, prophet).Ok?
    ensures var o := ProcessSplit(c, train, test, hasProphet, prophet).value;
      var withProphet := hasProphet && prophet(train, test).Some? && |prophet(train, test).value| == |test|;
      && o.Processed?
      && |o.rows| == (if withProphet then 2 else 1)
      && o.rows[0] == MetricRow(c, Baseline, EvalMetrics(Actuals(test), BaselineNaiveLast(train, test).value).value)
      && (withProphet ==> o.rows[1] == MetricRow(c, Prophet, EvalMetrics(Actuals(test), prophet(train, test).value).value))
      && o.files == (if withProphet then BaselineFiles(c) + ProphetFiles(c) else BaselineFiles(c))
  {
  }

  /**
   * With the library absent, or with a Prophet branch that always raises,
   * a processed cluster contributes only its baseline row and files.
   */
  lemma BaselineOnlyWithoutProphet(c: int, train: seq<HourRow>, test: seq<HourRow>, prophet: ProphetOracle)
    requires test != [] && train != []
    ensures ProcessSplit(c, train, test, false, prophet) ==
      Ok(Processed([MetricRow(c, Baseline, EvalMetrics(Actuals(test), BaselineNaiveLast(train, test).value).value)], BaselineFiles(c)))
    ensures ProcessSplit(c, train, test, false, prophet) == ProcessSplit(c, train, test, true, (tr, te) => None)
  {
  }

  // ---------------------------------------------------------------------
  // The whole run
  // ---------------------------------------------------------------------

  /** The rows of the metrics table that belong to cluster c, in order. */
  function RowsFor(rows: seq<MetricRow>, c: int): (r: seq<MetricRow>)
    ensures |r| <= |rows|
    ensures forall i :: 0 <= i < |r| ==> r[i].cluster == c
  {
    if rows == [] then []
    else RowsFor(rows[..|rows| - 1], c) + (if rows[|rows| - 1].cluster == c then [rows[|rows| - 1]] else [])
  }

  /** The rows a cluster's outcome contributes. */
  function OutcomeRows(o: ClusterOutcome): seq<MetricRow>
  {
    if o.Skipped? then [] else o.rows
  }

  lemma {:induction false} RowsForConcat(a: seq<MetricRow>, b: seq<MetricRow>, c: int)
    ensures RowsFor(a + b, c) == RowsFor(a, c) + RowsFor(b, c)
    decreases |b|
  {
    if b == [] {
      assert a + b == a;
    } else {
      assert (a + b)[..|a + b| - 1] == a + b[..|b| - 1];
      RowsForConcat(a, b[..|b| - 1], c);
    }
  }

  lemma {:induction false} RowsForAll(rows: seq<MetricRow>, c: int)
    requires forall i :: 0 <= i < |rows| ==> rows[i].cluster == c
    ensures RowsFor(rows, c) == rows
  {
    if rows != [] {
      RowsForAll(rows[..|rows| - 1], c);
    }
  }

  lemma {:induction false} RowsForNone(rows: seq<MetricRow>, c: int)
    requires forall i :: 0 <= i < |rows| ==> rows[i].cluster != c
    ensures RowsFor(rows, c) == []
  {
    if rows != [] {
      RowsForNone(rows[..|rows| - 1], c);
    }
  }

  /**
   * What any processed cluster contributes: rows labelled with the cluster,
   * only baseline rows when the library is absent, and its baseline files
   * followed, possibly, by its Prophet files.
   */
  lemma OutcomeFacts(trips: seq<Trip>, c: int, hasProphet: bool, prophet: ProphetOracle)
    requires ProcessCluster(trips, c, hasProphet, prophet).Ok?
    ensures var o := ProcessCluster(trips, c, hasProphet, prophet).value;
      && (forall i :: 0 <= i < |OutcomeRows(o)| ==> OutcomeRows(o)[i].cluster == c)
      && (!hasProphet ==> forall i :: 0 <= i < |OutcomeRows(o)| ==> OutcomeRows(o)[i].model == Baseline)
      && (o.Processed? ==> o.files == BaselineFiles(c) || o.files == BaselineFiles(c) + ProphetFiles(c))
  {
    match BuildClusterHourly(trips, c)
    case None =>
    case Some(ts) => SeriesFacts(c, ts, hasProphet, prophet);
  }

  lemma SeriesFacts(c: int, ts: seq<HourRow>, hasProphet: bool, prophet: ProphetOracle)
    requires ProcessSeries(c, ts, hasProphet, prophet).Ok?
    ensures var o := ProcessSeries(c, ts, hasProphet, prophet).value;
      && (forall i :: 0 <= i < |OutcomeRows(o)| ==> OutcomeRows(o)[i].cluster == c)
      && (!hasProphet ==> forall i :: 0 <= i < |OutcomeRows(o)| ==> OutcomeRows(o)[i].model == Baseline)
      && (o.Processed? ==> o.files == BaselineFiles(c) || o.files == BaselineFiles(c) + ProphetFiles(c))
  {
    if SumY(ts) != 0 {
      DefaultSplit(ts);
      SplitFacts(c, Split(ts, DefaultRatio).0, Split(ts, DefaultRatio).1, hasProphet, prophet);
    }
  }

  lemma SplitFacts(c: int, train: seq<HourRow>, test: seq<HourRow>, hasProphet: bool, prophet: ProphetOracle)
    requires test != []
    requires ProcessSplit(c, train, test, hasProphet, prophet).Ok?
    ensures var o := ProcessSplit(c, train, test, hasProphet, prophet).value;
      && o.Processed?
      && (forall i :: 0 <= i < |o.rows| ==> o.rows[i].cluster == c)
      && (!hasProphet ==> forall i :: 0 <= i < |o.rows| ==> o.rows[i].model == Baseline)
      && (o.files == BaselineFiles(c) || o.files == BaselineFiles(c) + ProphetFiles(c))
  {
  }

  /**
   * In a completed run every row belongs to one of the clusters visited,
   * and, the clusters being visited in ascending order, the table is
   * sorted by cluster.
   */
  lemma {:induction false} RunRowsOrdered(trips: seq<Trip>, cs: seq<int>, hasProphet: bool, prophet: ProphetOracle)
    requires StrictlyIncreasing(cs)
    requires RunClusters(trips, cs, hasProphet, prophet).Ok?
    ensures var rows := RunClusters(trips, cs, hasProphet, prophet).value.rows;
      && (forall i :: 0 <= i < |rows| ==> rows[i].cluster in cs)
      && (forall i, j :: 0 <= i < j < |rows| ==> rows[i].cluster <= rows[j].cluster)
  {
    if cs != [] {
      var init, last := cs[..|cs| - 1], cs[|cs| - 1];
      assert StrictlyIncreasing(init);
      assert cs == init + [last];
      RunRowsOrdered(trips, init, hasProphet, prophet);
      OutcomeFacts(trips, last, hasProphet, prophet);
      var before := RunClusters(trips, init, hasProphet, prophet).value.rows;
      var added := OutcomeRows(ProcessCluster(trips, last, hasProphet, prophet).value);
      assert RunClusters(trips, cs, hasProphet, prophet).value.rows == before + added;
      SortedAppend(before, added, init, last);
    }
  }

  lemma SortedAppend(before: seq<MetricRow>, added: seq<MetricRow>, init: seq<int>, last: int)
    requires StrictlyIncreasing(init + [last])
    requires forall i :: 0 <= i < |before| ==> before[i].cluster in init
    requires forall i, j :: 0 <= i < j < |before| ==> before[i].cluster <= before[j].cluster
    requires forall i :: 0 <= i < |added| ==> added[i].cluster == last
    ensures forall i :: 0 <= i < |before + added| ==> (before + added)[i].cluster in init + [last]
    ensures forall i, j :: 0 <= i < j < |before + added| ==> (before + added)[i].cluster <= (before + added)[j].cluster
  {
    var cs := init + [last];
    forall i | 0 <= i < |before|
      ensures before[i].cluster < last
    {
      var k :| 0 <= k < |init| && init[k] == before[i].cluster;
      assert cs[k] == init[k] && cs[|init|] == last;
    }
  }

  /**
   * The rows of a completed run that belong to a visited cluster are
   * exactly the rows that cluster contributes: none when it was skipped,
   * its baseline row and possibly its Prophet row otherwise.
   */
  lemma {:induction false} RunRowsForCluster(trips: seq<Trip>, cs: seq<int>, c: int, hasProphet: bool, prophet: ProphetOracle)
    requires StrictlyIncreasing(cs) && c in cs
    requires RunClusters(trips, cs, hasProphet, prophet).Ok?
    ensures ProcessCluster(trips, c, hasProphet, prophet).Ok?
    ensures RowsFor(RunClusters(trips, cs, hasProphet, prophet).value.rows, c) ==
      OutcomeRows(ProcessCluster(trips, c, hasProphet, prophet).value)
  {
    var init, last := cs[..|cs| - 1], cs[|cs| - 1];
    assert StrictlyIncreasing(init);
    LastStep(trips, cs, hasProphet, prophet);
    var before := RunClusters(trips, init, hasProphet, prophet).value.rows;
    var added := OutcomeRows(ProcessCluster(trips, last, hasProphet, prophet).value);
    RowsForConcat(before, added, c);
    if c == last {
      OutcomeFacts(trips, last, hasProphet, prophet);
      EarlierRowsOtherClusters(trips, cs, hasProphet, prophet);
      RowsForNone(before, c);
      RowsForAll(added, c);
    } else {
      assert c in init;
      RunRowsForCluster(trips, init, c, hasProphet, prophet);
      OutcomeFacts(trips, last, hasProphet, prophet);
      RowsForNone(added, c);
    }
  }

  /** The rows from before the last cluster all belong to smaller clusters. */
  lemma EarlierRowsOtherClusters(trips: seq<Trip>, cs: seq<int>, hasProphet: bool, prophet: ProphetOracle)
    requires StrictlyIncreasing(cs) && cs != []
    requires RunClusters(trips, cs[..|cs| - 1], hasProphet, prophet).Ok?
    ensures var before := RunClusters(trips, cs[..|cs| - 1], hasProphet, prophet).value.rows;
      forall i :: 0 <= i < |before| ==> before[i].cluster != cs[|cs| - 1]
  {
    var init := cs[..|cs| - 1];
    assert StrictlyIncreasing(init);
    RunRowsOrdered(trips, init, hasProphet, prophet);
    var before := RunClusters(trips, init, hasProphet, prophet).value.rows;
    forall i | 0 <= i < |before|
      ensures before[i].cluster != cs[|cs| - 1]
    {
      var k :| 0 <= k < |init| && init[k] == before[i].cluster;
      assert cs[k] == init[k];
    }
  }

  /** A completed run is the run over all but the last cluster followed by the last cluster's rows and files. */
  lemma LastStep(trips: seq<Trip>, cs: seq<int>, hasProphet: bool, prophet: ProphetOracle)
    requires cs != [] && RunClusters(trips, cs, hasProphet, prophet).Ok?
    ensures RunClusters(trips, cs[..|cs| - 1], hasProphet, prophet).Ok?
    ensures ProcessCluster(trips, cs[|cs| - 1], hasProphet, prophet).Ok?
    ensures var o := ProcessCluster(trips, cs[|cs| - 1], hasProphet, prophet).value;
      var before := RunClusters(trips, cs[..|cs| - 1], hasProphet, prophet).value;
      && RunClusters(trips, cs, hasProphet, prophet).value.rows == before.rows + OutcomeRows(o)
      && RunClusters(trips, cs, hasProphet, prophet).value.files == before.files + (if o.Skipped? then [] else o.files)
  {
  }

  /**
   * A run over the clusters cs aborts exactly when one of them aborts, and
   * the error names the first such cluster: one that aborts, after
   * clusters that all completed.
   */
  lemma {:induction false} RunAbortsIff(trips: seq<Trip>, cs: seq<int>, hasProphet: bool, prophet: ProphetOracle)
    ensures RunClusters(trips, cs, hasProphet, prophet).Err? <==>
      exists i :: 0 <= i < |cs| && ProcessCluster(trips, cs[i], hasProphet, prophet).Err?
    ensures RunClusters(trips, cs, hasProphet, prophet).Err? ==>
      exists i :: 0 <= i < |cs| && RunClusters(trips, cs, hasProphet, prophet).error == BaselineIndexError(cs[i])
        && ProcessCluster(trips, cs[i], hasProphet, prophet).Err?
        && (forall j :: 0 <= j < i ==> ProcessCluster(trips, cs[j], hasProphet, prophet).Ok?)
  {
    if cs != [] {
      var init, last := cs[..|cs| - 1], cs[|cs| - 1];
      RunAbortsIff(trips, init, hasProphet, prophet);
      AbortIffShortSeries(trips, last, hasProphet, prophet);
      if RunClusters(trips, init, hasProphet, prophet).Err? {
        var i :| 0 <= i < |init| && RunClusters(trips, init, hasProphet, prophet).error == BaselineIndexError(init[i])
          && ProcessCluster(trips, init[i], hasProphet, prophet).Err?
          && (forall j :: 0 <= j < i ==> ProcessCluster(trips, init[j], hasProphet, prophet).Ok?);
        assert cs[i] == init[i];
        assert forall j :: 0 <= j < i ==> cs[j] == init[j];
      } else {
        assert forall i :: 0 <= i < |init| ==> cs[i] == init[i];
        if ProcessCluster(trips, last, hasProphet, prophet).Err? {
          assert forall j :: 0 <= j < |init| ==> ProcessCluster(trips, cs[j], hasProphet, prophet).Ok?;
        } else {
          forall i | 0 <= i < |cs|
            ensures ProcessCluster(trips, cs[i], hasProphet, prophet).Ok?
          {
            if i < |init| {
              assert cs[i] == init[i];
              assert !ProcessCluster(trips, init[i], hasProphet, prophet).Err?;
            } else {
              assert cs[i] == last;
            }
          }
        }
      }
    }
  }

  /** Without the Prophet library every row of the metrics table is a baseline row. */
  lemma {:induction false} NoProphetRowsWithoutLibrary(trips: seq<Trip>, cs: seq<int>, prophet: ProphetOracle)
    requires RunClusters(trips, cs, false, prophet).Ok?
    ensures forall i :: 0 <= i < |RunClusters(trips, cs, false, prophet).value.rows| ==>
      RunClusters(trips, cs, false, prophet).value.rows[i].model == Baseline
  {
    if cs != [] {
      NoProphetRowsWithoutLibrary(trips, cs[..|cs| - 1], prophet);
      OutcomeFacts(trips, cs[|cs| - 1], false, prophet);
      var before := RunClusters(trips, cs[..|cs| - 1], false, prophet).value.rows;
      var added := OutcomeRows(ProcessCluster(trips, cs[|cs| - 1], false, prophet).value);
      assert RunClusters(trips, cs, false, prophet).value.rows == before + added;
    }
  }

  /** A file of the baseline or Prophet set of cluster c2 that is named for cluster c1 means c1 == c2. */
  lemma OwnFiles(c1: int, k: ArtifactKind, c2: int)
    requires ArtifactName(c1, k) in BaselineFiles(c2) + ProphetFiles(c2)
    ensures c1 == c2
  {
    var k2 := FileKind(c2, ArtifactName(c1, k));
    ArtifactNameInjective(c1, k, c2, k2);
  }

  /** Every file of a processed cluster is named for that cluster. */
  lemma FileKind(c: int, f: string) returns (k: ArtifactKind)
    requires f in BaselineFiles(c) + ProphetFiles(c)
    ensures f == ArtifactName(c, k)
  {
    if f in BaselineFiles(c) {
      var b := BaselineFiles(c);
      k := if f == b[0] then HourlyCsv else if f == b[1] then BaselineForecastCsv else ForecastPlot(Baseline);
    } else {
      var p := ProphetFiles(c);
      assert f in p;
      k := if f == p[0] then ProphetTestCsv else if f == p[1] then ForecastPlot(Prophet) else ProphetFutureCsv;
    }
  }

  /**
   * In a completed run a file named for cluster c is written only if c was
   * visited and not skipped; conversely every cluster that was not skipped
   * wrote its hourly table.
   */
  lemma {:induction false} FilesOnlyForProcessed(trips: seq<Trip>, cs: seq<int>, c: int, k: ArtifactKind, hasProphet: bool, prophet: ProphetOracle)
    requires RunClusters(trips, cs, hasProphet, prophet).Ok?
    ensures ArtifactName(c, k) in RunClusters(trips, cs, hasProphet, prophet).value.files ==>
      c in cs && ProcessCluster(trips, c, hasProphet, prophet).Ok? && ProcessCluster(trips, c, hasProphet, prophet).value.Processed?
    ensures c in cs && ProcessCluster(trips, c, hasProphet, prophet).Ok? && ProcessCluster(trips, c, hasProphet, prophet).value.Processed? ==>
      ArtifactName(c, HourlyCsv) in RunClusters(trips, cs, hasProphet, prophet).value.files
  {
    if cs != [] {
      var init, last := cs[..|cs| - 1], cs[|cs| - 1];
      FilesOnlyForProcessed(trips, init, c, k, hasProphet, prophet);
      var before := RunClusters(trips, init, hasProphet, prophet).value.files;
      var o := ProcessCluster(trips, last, hasProphet, prophet).value;
      if o.Processed? {
        assert RunClusters(trips, cs, hasProphet, prophet).value.files == before + o.files;
        OutcomeFacts(trips, last, hasProphet, prophet);
        if ArtifactName(c, k) in o.files {
          OwnFiles(c, k, last);
        }
        assert ArtifactName(last, HourlyCsv) == o.files[0];
      }
    }
  }

  // ---------------------------------------------------------------------
  // The worked example
  // ---------------------------------------------------------------------

  /** Ten consecutive hours of cluster 0 with the counts 10, 12, 11, 13, 14, 15, 16, 9, 10, 11. */
  function ExampleSeries(): seq<HourRow>
  {
    [HourRow(0, 10, 0), HourRow(3600, 12, 0), HourRow(7200, 11, 0), HourRow(10800, 13, 0), HourRow(14400, 14, 0),
     HourRow(18000, 15, 0), HourRow(21600, 16, 0), HourRow(25200, 9, 0), HourRow(28800, 10, 0), HourRow(32400, 11, 0)]
  }

  /**
   * The ten-hour series splits into eight training and two test hours; the
   * baseline predicts the last training count, 9, for both, scoring
   * MAE 1.5 and MSE 2.5 (RMSE is its square root).
   */
  lemma WorkedExample(prophet: ProphetOracle)
    ensures |Split(ExampleSeries(), DefaultRatio).0| == 8 && |Split(ExampleSeries(), DefaultRatio).1| == 2
    ensures BaselineNaiveLast(Split(ExampleSeries(), DefaultRatio).0, Split(ExampleSeries(), DefaultRatio).1) == Ok([9.0, 9.0])
    ensures ProcessSplit(0, Split(ExampleSeries(), DefaultRatio).0, Split(ExampleSeries(), DefaultRatio).1, false, prophet) ==
      Ok(Processed([MetricRow(0, Baseline, Scores(1.5, 2.5, 155.0 / 11.0))], BaselineFiles(0)))
  {
    var ts := ExampleSeries();
    DefaultSplit(ts);
    var (train, test) := Split(ts, DefaultRatio);
    assert train == ts[..8] && test == ts[8..];
    assert Actuals(test) == [10.0, 11.0];
    assert BaselineNaiveLast(train, test).value == [9.0, 9.0];
    WorkedExampleMetrics();
  }
}
