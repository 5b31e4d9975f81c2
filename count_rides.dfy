/**
 * The count_rides script end to end: read the export, normalise and clean
 * it, aggregate per customer and count single-transaction customers.
 */
module CountRides {
  import opened Wrappers
  import SnakeCase
  import opened Cleaning
  import opened RideTable
  import opened Rfm

  /** Why the script stops before printing its counts. */
  datatype ScriptFault =
    | DuplicateColumn      // df[c] on a shared name has no dtype
    | KeyError(name: string)

  /** The printed frequency analysis: total customers and those with exactly one booking. */
  datatype FrequencyReport = FrequencyReport(totalCustomers: nat, singleTransactionCount: nat)

  /** The header after to_snake. */
  function SnakeHeader(header: seq<string>): (r: seq<string>)
    ensures |r| == |header|
    ensures forall j :: 0 <= j < |r| ==> r[j] == SnakeCase.ToSnake(header[j])
  {
    seq(|header|, j requires 0 <= j < |header| => SnakeCase.ToSnake(header[j]))
  }

  /** The cells after cleaning and quote stripping, for a header without duplicates. */
  function CleanedData(names: seq<string>, cells: seq<seq<Cell>>): (r: seq<seq<Cell>>)
    requires |names| == |cells|
    ensures |r| == |cells|
  {
    seq(|cells|, j requires 0 <= j < |cells| =>
      if names[j] in IdColumns then QuoteColumn(CleanColumn(cells[j])) else CleanColumn(cells[j]))
  }

  /**
   * What the script computes from the export. It fails on a duplicated
   * name or a missing column, and its two counts are ordered.
   */
  function CountRidesSpec(header: seq<string>, cells: seq<seq<Cell>>, rows: nat, parseTime: DateTimeParser, parseNum: NumberParser)
    : (r: Result<FrequencyReport, ScriptFault>)
    requires |header| == |cells| && forall j :: 0 <= j < |cells| ==> |cells[j]| == rows
    ensures r == Err(DuplicateColumn) <==> !Distinct(SnakeHeader(header))
    ensures r.Err? && r.error.KeyError? <==>
      Distinct(SnakeHeader(header)) && exists k :: 0 <= k < |Required| && Required[k] !in SnakeHeader(header)
    ensures r.Err? && r.error.KeyError? ==> r.error.name in Required && r.error.name !in SnakeHeader(header)
    ensures r.Err? && r.error.KeyError? ==> exists k :: (0 <= k < |Required| && Required[k] == r.error.name
      && forall j :: 0 <= j < k ==> Required[j] in SnakeHeader(header))
    ensures r.Ok? ==> r.value.singleTransactionCount <= r.value.totalCustomers
  {
    var names := SnakeHeader(header);
    if !Distinct(names) then Err(DuplicateColumn)
    else
      match Rides(names, CleanedData(names, cells), rows, parseTime, parseNum)
      case Err(missing) => Err(KeyError(missing.name))
      case Ok(rides) =>
        var customers := Aggregate(rides);
        Ok(FrequencyReport(TotalCustomers(customers), SingleTransactionCount(customers)))
  }

  /**
   * The whole script, with the export given as a header and
   * column-major cells, and the two pandas parsers passed in.
   */
  method Run(header: seq<string>, cells: seq<seq<Cell>>, rows: nat, parseTime: DateTimeParser, parseNum: NumberParser)
    returns (r: Result<FrequencyReport, ScriptFault>)
    requires |header| == |cells| && forall j :: 0 <= j < |cells| ==> |cells[j]| == rows
    ensures r == CountRidesSpec(header, cells, rows, parseTime, parseNum)
  {
    var df := new RideFrame(header, cells, rows);
    df.NormalizeHeader();
    assert df.columns == SnakeHeader(header);
    var ok := df.ReplaceNullLike();
    if !ok {
      return Err(DuplicateColumn);
    }
    assert Distinct(df.columns);
    DistinctIffNoDuplicate(df.columns);
    df.StripIdQuotes();
    assert df.data == CleanedData(SnakeHeader(header), cells);
    var rides := Rides(df.columns, df.data, df.height, parseTime, parseNum);
    if rides.Err? {
      return Err(KeyError(rides.error.name));
    }
    var customers := Aggregate(rides.value);
    r := Ok(FrequencyReport(TotalCustomers(customers), SingleTransactionCount(customers)));
  }
}
