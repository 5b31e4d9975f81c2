/**
 * The f-string file names of run_cluster_demand: every per-cluster file is named
 * "cluster_<id>" followed by a fixed suffix for its kind, so a rerun
 * overwrites the same files, and no two (cluster, kind) pairs share a name.
 * All files live in the directory output_cluster_demand.
 */
module Artifacts {
  import Decimal

  /** The metrics table for all clusters. */
  const MetricsFile: string := "cluster_demand_metrics.csv"

  /** The model label used in metric rows and plot file names. */
  datatype ModelName = Baseline | Prophet

  function Name(m: ModelName): string
  {
    match m
    case Baseline => "baseline"
    case Prophet => "prophet"
  }

  /** The per-cluster files run_cluster_demand writes. */
  datatype ArtifactKind =
    | HourlyCsv
    | BaselineForecastCsv
    | ForecastPlot(model: ModelName)
    | ProphetTestCsv
    | ProphetFutureCsv

  function Suffix(k: ArtifactKind): (s: string)
    ensures |s| > 0 && s[0] == '_'
  {
    match k
    case HourlyCsv => "_hourly.csv"
    case BaselineForecastCsv => "_forecast_baseline.csv"
    case ForecastPlot(m) => "_forecast_plot_" + Name(m) + ".png"
    case ProphetTestCsv => "_forecast_prophet_test.csv"
    case ProphetFutureCsv => "_forecast_prophet_future.csv"
  }

  /** The file name of artifact k of cluster c: f"cluster_{c}" + suffix; never the metrics table's name. */
  function ArtifactName(c: int, k: ArtifactKind): (r: string)
    ensures "cluster_" <= r
    ensures r != MetricsFile
  {
    var r := "cluster_" + (Decimal.IntToString(c) + Suffix(k));
    assert r[8] == Decimal.IntToString(c)[0] && MetricsFile[8] == 'd';
    r
  }

  predicate NoUnderscore(s: string)
  {
    forall i :: 0 <= i < |s| ==> s[i] != '_'
  }

  /** Two concatenations split at their first underscore agree part by part. */
  lemma SplitAtUnderscore(a: string, b: string, c: string, d: string)
    requires NoUnderscore(a) && NoUnderscore(c)
    requires |b| > 0 && b[0] == '_' && |d| > 0 && d[0] == '_'
    requires a + b == c + d
    ensures a == c && b == d
  {
    if |a| < |c| {
      ConcatAt(a, b, |a|);
      ConcatAt(c, d, |a|);
      assert false;
    } else if |c| < |a| {
      ConcatAt(a, b, |c|);
      ConcatAt(c, d, |c|);
      assert false;
    } else {
      assert a == (a + b)[..|a|] && c == (c + d)[..|c|];
      assert b == (a + b)[|a|..] && d == (c + d)[|c|..];
    }
  }

  lemma ConcatAt(a: string, b: string, i: int)
    ensures 0 <= i < |a| ==> (a + b)[i] == a[i]
    ensures |a| <= i < |a| + |b| ==> (a + b)[i] == b[i - |a|]
  {
  }

  lemma PrefixCancel(p: string, x: string, y: string)
    requires p + x == p + y
    ensures x == y
  {
    assert x == (p + x)[|p|..];
    assert y == (p + y)[|p|..];
  }

  lemma {:induction false} SuffixInjective(k1: ArtifactKind, k2: ArtifactKind)
    requires Suffix(k1) == Suffix(k2)
    ensures k1 == k2
  {
    if k1 != k2 {
      if k1.ForecastPlot? && k2.ForecastPlot? {
        assert false;
      } else if k1.ForecastPlot? || k2.ForecastPlot? {
        if k1.ProphetTestCsv? || k2.ProphetTestCsv? {
          var m := if k1.ForecastPlot? then k1.model else k2.model;
          ConcatAt("_forecast_plot_" + Name(m), ".png", 11);
          ConcatAt("_forecast_plot_", Name(m), 11);
          assert false;
        } else {
          assert false;
        }
      } else if k1.HourlyCsv? || k2.HourlyCsv? {
        assert false;
      } else if k1.BaselineForecastCsv? || k2.BaselineForecastCsv? {
        assert false;
      } else {
        assert false;
      }
    }
  }

  /** Distinct (cluster, kind) pairs give distinct file names. */
  lemma ArtifactNameInjective(c1: int, k1: ArtifactKind, c2: int, k2: ArtifactKind)
    requires ArtifactName(c1, k1) == ArtifactName(c2, k2)
    ensures c1 == c2 && k1 == k2
  {
    var d1, d2 := Decimal.IntToString(c1), Decimal.IntToString(c2);
    var s1, s2 := Suffix(k1), Suffix(k2);
    PrefixCancel("cluster_", d1 + s1, d2 + s2);
    RenderingHasNoUnderscore(c1);
    RenderingHasNoUnderscore(c2);
    SplitAtUnderscore(d1, s1, d2, s2);
    Decimal.IntToStringInjective(c1, c2);
    SuffixInjective(k1, k2);
  }

  lemma RenderingHasNoUnderscore(c: int)
    ensures NoUnderscore(Decimal.IntToString(c))
  {
  }
}
