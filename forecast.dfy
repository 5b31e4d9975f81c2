/**
 * The two forecasting strategies: the naive baseline, which repeats the
 * last training value, and Prophet, which is a library this model cannot
 * see and so appears only as an oracle that fails or returns predictions.
 */
module Forecast {
  import opened Wrappers
  import opened Hourly
  import TimeSplit

  /** train["y"].iloc[-1] on an empty train frame raises IndexError. */
  datatype BaselineFault = EmptyTrain

  /**
   * The Prophet branch for one cluster: fit on train, predict at the test
   * timestamps. None stands for any exception the branch raises.
   */
  type ProphetOracle = (seq<HourRow>, seq<HourRow>) -> Option<seq<real>>

  /** The y column as numbers. */
  function Actuals(rows: seq<HourRow>): (ys: seq<real>)
    ensures |ys| == |rows|
    ensures forall i :: 0 <= i < |rows| ==> ys[i] == rows[i].y as real
  {
    seq(|rows|, i requires 0 <= i < |rows| => rows[i].y as real)
  }

  /** baseline_naive_last: the last training count, repeated once per test row. */
  function BaselineNaiveLast(train: seq<HourRow>, test: seq<HourRow>): (r: Result<seq<real>, BaselineFault>)
    ensures r.Err? <==> train == []
    ensures r.Ok? ==> |r.value| == |test|
    ensures r.Ok? ==> forall i :: 0 <= i < |test| ==> r.value[i] == train[|train| - 1].y as real
  {
    if train == [] then Err(EmptyTrain)
    else
      var last := train[|train| - 1].y as real;
      Ok(seq(|test|, _ => last))
  }

  /**
   * With the split run_cluster_demand uses, the baseline fails exactly for
   * series of fewer than five hours; otherwise it predicts, for every test
   * hour, the count of the hour just before the test window.
   */
  lemma BaselineOnDefaultSplit(ts: seq<HourRow>)
    ensures var (train, test) := TimeSplit.Split(ts, TimeSplit.DefaultRatio);
      && (BaselineNaiveLast(train, test).Err? <==> |ts| < 5)
      && (|ts| >= 5 ==>
            var p := BaselineNaiveLast(train, test).value;
            |p| == |ts| / 5 && forall i :: 0 <= i < |p| ==> p[i] == ts[|ts| - |ts| / 5 - 1].y as real)
  {
    TimeSplit.DefaultSplit(ts);
  }
}
