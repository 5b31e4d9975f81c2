/**
 * Per-customer recency, frequency and monetary value over the valid rides,
 * and the count of single-transaction customers.
 */
module Rfm {
  import opened Wrappers
  import opened Cleaning
  import opened RideTable

  const SecondsPerDay := 86400

  /** One row of the cleaned table with its derived columns; timestamps are seconds. */
  datatype Ride = Ride(
    datetime: Option<int>,
    bookingValue: real,
    rideDistance: real,
    isCancelled: nat,
    status: Cell,
    customerId: Cell,
    bookingId: Cell)

  /** A column the script reads is absent: the KeyError it raises. */
  datatype MissingColumn = MissingColumn(name: string)

  /** pd.to_datetime(..., errors="coerce") on one text: None is NaT. */
  type DateTimeParser = string -> Option<int>

  /** pd.to_numeric(..., errors="coerce") on one text: None is NaN. */
  type NumberParser = string -> Option<real>

  /** The columns the script reads, in the order it first reads them. */
  const Required: seq<string> := ["date", "time", "booking_value", "ride_distance", "booking_status", "customer_id", "booking_id"]

  /** pd.to_numeric(..., errors="coerce").fillna(0) on one cell. */
  function NumericOrZero(c: Cell, parse: NumberParser): (r: real)
    ensures c.None? ==> r == 0.0
    ensures c.Some? && parse(c.value).None? ==> r == 0.0
    ensures c.Some? && parse(c.value).Some? ==> r == parse(c.value).value
  {
    match c
    case None => 0.0
    case Some(v) => if parse(v).Some? then parse(v).value else 0.0
  }

  /** The first required column the frame lacks. */
  function FirstMissing(required: seq<string>, names: seq<string>): (r: Option<string>)
    ensures r.None? <==> forall i :: 0 <= i < |required| ==> required[i] in names
    ensures r.Some? ==> r.value in required && r.value !in names
    ensures r.Some? ==> exists k :: (0 <= k < |required| && required[k] == r.value
      && forall j :: 0 <= j < k ==> required[j] in names)
  {
    if required == [] then None
    else if required[0] !in names then Some(required[0])
    else
      var r := FirstMissing(required[1..], names);
      if r.None? then r
      else
        FirstMissingShift(required, names, r.value);
        r
  }

  /** A first missing column of the tail is a first missing column of the whole list when its head is present. */
  lemma FirstMissingShift(required: seq<string>, names: seq<string>, v: string)
    requires required != [] && required[0] in names
    requires exists k :: (0 <= k < |required[1..]| && required[1..][k] == v
      && forall j :: 0 <= j < k ==> required[1..][j] in names)
    ensures exists k :: (0 <= k < |required| && required[k] == v
      && forall j :: 0 <= j < k ==> required[j] in names)
  {
    var k :| 0 <= k < |required[1..]| && required[1..][k] == v
      && forall j :: 0 <= j < k ==> required[1..][j] in names;
    assert required[k + 1] == v;
    forall j | 0 <= j < k + 1
      ensures required[j] in names
    {
      if j > 0 {
        assert required[j] == required[1..][j - 1];
      }
    }
  }

  /** The cells of row i of the columns date .. booking_id turned into a ride: the parsed date and time, the numeric columns and the cancellation flag. */
  function MakeRide(cols: seq<seq<Cell>>, i: nat, parseTime: DateTimeParser, parseNum: NumberParser): (r: Ride)
    requires |cols| == |Required| && forall j :: 0 <= j < |cols| ==> i < |cols[j]|
    ensures r.datetime == parseTime(Render(cols[0][i]) + " " + Render(cols[1][i]))
    ensures r.isCancelled == IsCancelled(cols[4][i])
    ensures r.status == cols[4][i] && r.customerId == cols[5][i] && r.bookingId == cols[6][i]
  {
    Ride(parseTime(Render(cols[0][i]) + " " + Render(cols[1][i])),
         NumericOrZero(cols[2][i], parseNum),
         NumericOrZero(cols[3][i], parseNum),
         IsCancelled(cols[4][i]),
         cols[4][i], cols[5][i], cols[6][i])
  }

  /** The derived columns of the whole table, or the first column the script would miss. */
  function Rides(columns: seq<string>, data: seq<seq<Cell>>, height: nat, parseTime: DateTimeParser, parseNum: NumberParser)
    : (r: Result<seq<Ride>, MissingColumn>)
    requires |data| == |columns| && forall j :: 0 <= j < |data| ==> |data[j]| == height
    ensures r.Err? <==> exists k :: 0 <= k < |Required| && Required[k] !in columns
    ensures r.Err? ==> r.error.name in Required && r.error.name !in columns
    ensures r.Err? ==> exists k :: (0 <= k < |Required| && Required[k] == r.error.name
      && forall j :: 0 <= j < k ==> Required[j] in columns)
    ensures r.Ok? ==> |r.value| == height
    ensures r.Ok? ==> forall i :: 0 <= i < |r.value| ==> r.value[i].isCancelled <= 1
    ensures r.Ok? ==> forall i :: 0 <= i < height ==> r.value[i] == MakeRide(Select(Required, columns, data, height), i, parseTime, parseNum)
  {
    match FirstMissing(Required, columns)
    case Some(name) => Err(MissingColumn(name))
    case None =>
      var cols := Select(Required, columns, data, height);
      Ok(seq(height, i requires 0 <= i < height => MakeRide(cols, i, parseTime, parseNum)))
  }

  /** Each field of ride i is read from row i of the column with the matching name. */
  lemma RideCells(columns: seq<string>, data: seq<seq<Cell>>, height: nat, parseTime: DateTimeParser, parseNum: NumberParser, i: nat)
    requires |data| == |columns| && forall j :: 0 <= j < |data| ==> |data[j]| == height
    requires Rides(columns, data, height, parseTime, parseNum).Ok? && i < height
    ensures "date" in columns && "time" in columns && "booking_value" in columns && "ride_distance" in columns
    ensures "booking_status" in columns && "customer_id" in columns && "booking_id" in columns
    ensures var ride := Rides(columns, data, height, parseTime, parseNum).value[i];
      && ride.datetime == parseTime(Render(data[IndexOf(columns, "date").value][i]) + " " + Render(data[IndexOf(columns, "time").value][i]))
      && ride.bookingValue == NumericOrZero(data[IndexOf(columns, "booking_value").value][i], parseNum)
      && ride.rideDistance == NumericOrZero(data[IndexOf(columns, "ride_distance").value][i], parseNum)
      && ride.status == data[IndexOf(columns, "booking_status").value][i]
      && ride.isCancelled == IsCancelled(ride.status)
      && ride.customerId == data[IndexOf(columns, "customer_id").value][i]
      && ride.bookingId == data[IndexOf(columns, "booking_id").value][i]
  {
    assert forall k :: 0 <= k < |Required| ==> Required[k] in columns;
    assert Required[0] == "date" && Required[1] == "time" && Required[2] == "booking_value" && Required[3] == "ride_distance";
    assert Required[4] == "booking_status" && Required[5] == "customer_id" && Required[6] == "booking_id";
    var cols := Select(Required, columns, data, height);
    var ride := Rides(columns, data, height, parseTime, parseNum).value[i];
    assert ride == MakeRide(cols, i, parseTime, parseNum);
    assert cols[0] == data[IndexOf(columns, "date").value];
    assert cols[1] == data[IndexOf(columns, "time").value];
    assert cols[2] == data[IndexOf(columns, "booking_value").value];
    assert cols[3] == data[IndexOf(columns, "ride_distance").value];
    assert cols[4] == data[IndexOf(columns, "booking_status").value];
    assert cols[5] == data[IndexOf(columns, "customer_id").value];
    assert cols[6] == data[IndexOf(columns, "booking_id").value];
  }

  /** df[name] for each of the names, all of which the frame has. */
  function Select(names: seq<string>, columns: seq<string>, data: seq<seq<Cell>>, height: nat): (cols: seq<seq<Cell>>)
    requires |data| == |columns| && forall j :: 0 <= j < |data| ==> |data[j]| == height
    requires forall i :: 0 <= i < |names| ==> names[i] in columns
    ensures |cols| == |names|
    ensures forall i :: 0 <= i < |names| ==> |cols[i]| == height
    ensures forall i :: 0 <= i < |names| ==> IndexOf(columns, names[i]).Some? && cols[i] == data[IndexOf(columns, names[i]).value]
  {
    if names == [] then []
    else
      var j := IndexOf(columns, names[0]).value;
      [data[j]] + Select(names[1..], columns, data, height)
  }

  // ---------------------------------------------------------------------
  // Aggregation
  // ---------------------------------------------------------------------

  /** Series.max() on timestamps: the latest, skipping NaT; NaT when all are. */
  function MaxTime(rides: seq<Ride>): (r: Option<int>)
    ensures r.None? <==> forall i :: 0 <= i < |rides| ==> rides[i].datetime.None?
    ensures r.Some? ==> exists i :: 0 <= i < |rides| && rides[i].datetime == r
    ensures r.Some? ==> forall i :: 0 <= i < |rides| && rides[i].datetime.Some? ==> rides[i].datetime.value <= r.value
  {
    if rides == [] then None
    else
      var init := rides[..|rides| - 1];
      var last := rides[|rides| - 1].datetime;
      var m := MaxTime(init);
      assert forall i :: 0 <= i < |init| ==> init[i] == rides[i];
      if m.None? then last
      else if last.None? || last.value <= m.value then m
      else last
  }

  /** observation_date: one day after the latest ride, NaT when there is none. */
  function ObservationDate(rides: seq<Ride>): (r: Option<int>)
    ensures r.None? <==> forall i :: 0 <= i < |rides| ==> rides[i].datetime.None?
    ensures r.Some? ==> forall i :: 0 <= i < |rides| && rides[i].datetime.Some? ==> rides[i].datetime.value + SecondsPerDay <= r.value
    ensures r.Some? ==> exists i :: 0 <= i < |rides| && rides[i].datetime == Some(r.value - SecondsPerDay)
  {
    if MaxTime(rides).None? then None else Some(MaxTime(rides).value + SecondsPerDay)
  }

  /** df_valid_rides: the rows whose status is one of the valid statuses, in order. */
  function ValidRides(rides: seq<Ride>): (r: seq<Ride>)
    ensures |r| <= |rides|
    ensures forall i :: 0 <= i < |r| ==> IsValidRide(r[i].status) && r[i] in rides
    ensures forall i :: 0 <= i < |rides| && IsValidRide(rides[i].status) ==> rides[i] in r
  {
    if rides == [] then []
    else
      var init := ValidRides(rides[..|rides| - 1]);
      var last := rides[|rides| - 1];
      assert forall x :: x in rides[..|rides| - 1] ==> x in rides;
      if IsValidRide(last.status) then init + [last] else init
  }

  /** The rides of one customer, in order. */
  function RidesOf(rides: seq<Ride>, id: string): (r: seq<Ride>)
    ensures |r| <= |rides|
    ensures forall i :: 0 <= i < |r| ==> r[i].customerId == Some(id) && r[i] in rides
    ensures forall i :: 0 <= i < |rides| && rides[i].customerId == Some(id) ==> rides[i] in r
  {
    if rides == [] then []
    else
      var init := RidesOf(rides[..|rides| - 1], id);
      var last := rides[|rides| - 1];
      assert forall x :: x in rides[..|rides| - 1] ==> x in rides;
      if last.customerId == Some(id) then init + [last] else init
  }

  /** The group keys: customer ids of valid rides; a missing id forms no group. */
  function CustomerIds(valid: seq<Ride>): set<string>
  {
    set i | 0 <= i < |valid| && valid[i].customerId.Some? :: valid[i].customerId.value
  }

  /** The distinct non-missing booking ids of some rides (nunique skips NaN). */
  function BookingIds(rides: seq<Ride>): set<string>
  {
    set i | 0 <= i < |rides| && rides[i].bookingId.Some? :: rides[i].bookingId.value
  }

  /** sum() over booking values. */
  function SumValues(rides: seq<Ride>): real
  {
    if rides == [] then 0.0 else SumValues(rides[..|rides| - 1]) + rides[|rides| - 1].bookingValue
  }

  /** One row of customer_df; a recency of None is NaN. */
  datatype CustomerRfm = CustomerRfm(recency: Option<int>, frequency: nat, monetary: real)

  /** (observation_date - x.max()).days: whole days, rounded down. */
  function Recency(obs: Option<int>, rides: seq<Ride>): (r: Option<int>)
    ensures r.None? <==> obs.None? || forall i :: 0 <= i < |rides| ==> rides[i].datetime.None?
    ensures r.Some? ==> r.value * SecondsPerDay <= obs.value - MaxTime(rides).value < (r.value + 1) * SecondsPerDay
  {
    if obs.None? || MaxTime(rides).None? then None
    else Some((obs.value - MaxTime(rides).value) / SecondsPerDay)
  }

  /** The per-customer aggregation: one entry per customer with a valid ride. */
  function Aggregate(rides: seq<Ride>): (agg: map<string, CustomerRfm>)
    ensures agg.Keys == CustomerIds(ValidRides(rides))
  {
    var valid := ValidRides(rides);
    var obs := ObservationDate(rides);
    map id | id in CustomerIds(valid) ::
      CustomerRfm(Recency(obs, RidesOf(valid, id)), |BookingIds(RidesOf(valid, id))|, SumValues(RidesOf(valid, id)))
  }

  /** total_customers. */
  function TotalCustomers(agg: map<string, CustomerRfm>): (r: nat)
    ensures r == 0 <==> agg == map[]
  {
    assert agg.Keys == {} ==> agg == map[];
    |agg.Keys|
  }

  /** single_transaction_count: customers whose frequency is exactly 1. */
  function SingleTransactionCount(agg: map<string, CustomerRfm>): (r: nat)
    ensures r <= TotalCustomers(agg)
    ensures r == TotalCustomers(agg) <==> forall id :: id in agg ==> agg[id].frequency == 1
  {
    var single := set id | id in agg && agg[id].frequency == 1;
    assert single <= agg.Keys;
    SubsetCardinality(single, agg.Keys);
    assert (forall id :: id in agg ==> agg[id].frequency == 1) ==> single == agg.Keys;
    |single|
  }

  // ---------------------------------------------------------------------
  // Properties
  // ---------------------------------------------------------------------

  /** A customer appears in the table exactly when some valid ride carries their id. */
  lemma CustomersAreValidRiders(rides: seq<Ride>, id: string)
    ensures id in Aggregate(rides) <==>
      exists i :: 0 <= i < |rides| && IsValidRide(rides[i].status) && rides[i].customerId == Some(id)
  {
    var valid := ValidRides(rides);
    assert Aggregate(rides).Keys == CustomerIds(valid);
    if id in CustomerIds(valid) {
      var k :| 0 <= k < |valid| && valid[k].customerId == Some(id);
      assert valid[k] in rides && IsValidRide(valid[k].status);
      var i :| 0 <= i < |rides| && rides[i] == valid[k];
    }
    if exists i :: 0 <= i < |rides| && IsValidRide(rides[i].status) && rides[i].customerId == Some(id) {
      var i :| 0 <= i < |rides| && IsValidRide(rides[i].status) && rides[i].customerId == Some(id);
      assert rides[i] in valid;
      var k :| 0 <= k < |valid| && valid[k] == rides[i];
      assert id == valid[k].customerId.value;
    }
  }

  /**
   * Recency is at least one day whenever it is defined, because the
   * observation date lies one day past every ride; it is defined exactly
   * when one of the customer's valid rides has a timestamp.
   */
  lemma RecencyAtLeastOneDay(rides: seq<Ride>, id: string)
    requires id in Aggregate(rides)
    ensures Aggregate(rides)[id].recency.Some? ==> Aggregate(rides)[id].recency.value >= 1
    ensures Aggregate(rides)[id].recency.Some? <==>
      exists i :: 0 <= i < |rides| && IsValidRide(rides[i].status) && rides[i].customerId == Some(id) && rides[i].datetime.Some?
  {
    var mine := RidesOf(ValidRides(rides), id);
    assert Aggregate(rides)[id].recency == Recency(ObservationDate(rides), mine);
    TimedRideIff(rides, id);
    if MaxTime(mine).Some? {
      var k :| 0 <= k < |mine| && mine[k].datetime == MaxTime(mine);
      MineInRides(rides, id, k);
      var i :| 0 <= i < |rides| && rides[i] == mine[k];
      assert rides[i].datetime.Some?;
      assert MaxTime(mine).value <= MaxTime(rides).value;
    }
  }

  lemma TimedRideIff(rides: seq<Ride>, id: string)
    ensures var mine := RidesOf(ValidRides(rides), id);
      (exists k :: 0 <= k < |mine| && mine[k].datetime.Some?) <==>
      exists i :: 0 <= i < |rides| && IsValidRide(rides[i].status) && rides[i].customerId == Some(id) && rides[i].datetime.Some?
  {
    var mine := RidesOf(ValidRides(rides), id);
    if exists k :: 0 <= k < |mine| && mine[k].datetime.Some? {
      var k :| 0 <= k < |mine| && mine[k].datetime.Some?;
      MineInRides(rides, id, k);
    }
    if exists i :: 0 <= i < |rides| && IsValidRide(rides[i].status) && rides[i].customerId == Some(id) && rides[i].datetime.Some? {
      var i :| 0 <= i < |rides| && IsValidRide(rides[i].status) && rides[i].customerId == Some(id) && rides[i].datetime.Some?;
      RideInMine(rides, id, i);
    }
  }

  /**
   * Frequency counts distinct booking ids and skips missing ones: it is at
   * least one exactly when one of the customer's valid rides has a booking
   * id, and never more than the customer's number of valid rides.
   */
  lemma FrequencyBounds(rides: seq<Ride>, id: string)
    requires id in Aggregate(rides)
    ensures Aggregate(rides)[id].frequency >= 1 <==>
      exists i :: 0 <= i < |rides| && IsValidRide(rides[i].status) && rides[i].customerId == Some(id) && rides[i].bookingId.Some?
    ensures Aggregate(rides)[id].frequency <= |RidesOf(ValidRides(rides), id)|
  {
    var mine := RidesOf(ValidRides(rides), id);
    assert Aggregate(rides)[id].frequency == |BookingIds(mine)|;
    BookingIdsBound(mine);
    BookedRideIff(rides, id);
    if exists k :: 0 <= k < |mine| && mine[k].bookingId.Some? {
      var k :| 0 <= k < |mine| && mine[k].bookingId.Some?;
      assert mine[k].bookingId.value in BookingIds(mine);
    }
  }

  /** A customer's valid rides include a booked one exactly when the whole table has such a ride. */
  lemma BookedRideIff(rides: seq<Ride>, id: string)
    ensures var mine := RidesOf(ValidRides(rides), id);
      (exists k :: 0 <= k < |mine| && mine[k].bookingId.Some?) <==>
      exists i :: 0 <= i < |rides| && IsValidRide(rides[i].status) && rides[i].customerId == Some(id) && rides[i].bookingId.Some?
  {
    var mine := RidesOf(ValidRides(rides), id);
    if exists k :: 0 <= k < |mine| && mine[k].bookingId.Some? {
      var k :| 0 <= k < |mine| && mine[k].bookingId.Some?;
      MineInRides(rides, id, k);
    }
    if exists i :: 0 <= i < |rides| && IsValidRide(rides[i].status) && rides[i].customerId == Some(id) && rides[i].bookingId.Some? {
      var i :| 0 <= i < |rides| && IsValidRide(rides[i].status) && rides[i].customerId == Some(id) && rides[i].bookingId.Some?;
      RideInMine(rides, id, i);
    }
  }

  /** The filter keeps every valid ride as often as it occurs, and nothing else. */
  lemma {:induction false} ValidRidesCounts(rides: seq<Ride>)
    ensures forall x :: multiset(ValidRides(rides))[x] == if IsValidRide(x.status) then multiset(rides)[x] else 0
  {
    if rides != [] {
      var init := rides[..|rides| - 1];
      assert rides == init + [rides[|rides| - 1]];
      ValidRidesCounts(init);
    }
  }

  /** The same for the rides of one customer. */
  lemma {:induction false} RidesOfCounts(rides: seq<Ride>, id: string)
    ensures forall x :: multiset(RidesOf(rides, id))[x] == if x.customerId == Some(id) then multiset(rides)[x] else 0
  {
    if rides != [] {
      var init := rides[..|rides| - 1];
      assert rides == init + [rides[|rides| - 1]];
      RidesOfCounts(init, id);
    }
  }

  /** Each of a customer's valid rides is a valid ride of the table with their id. */
  lemma MineInRides(rides: seq<Ride>, id: string, k: nat)
    requires k < |RidesOf(ValidRides(rides), id)|
    ensures exists i :: (0 <= i < |rides| && rides[i] == RidesOf(ValidRides(rides), id)[k]
      && IsValidRide(rides[i].status) && rides[i].customerId == Some(id))
  {
    var valid := ValidRides(rides);
    var mine := RidesOf(valid, id);
    var j :| 0 <= j < |valid| && valid[j] == mine[k];
    var i :| 0 <= i < |rides| && rides[i] == valid[j];
  }

  /** Each valid ride of the table with the customer's id is among the customer's valid rides. */
  lemma RideInMine(rides: seq<Ride>, id: string, i: nat)
    requires i < |rides| && IsValidRide(rides[i].status) && rides[i].customerId == Some(id)
    ensures exists k :: 0 <= k < |RidesOf(ValidRides(rides), id)| && RidesOf(ValidRides(rides), id)[k] == rides[i]
  {
    var valid := ValidRides(rides);
    var j :| 0 <= j < |valid| && valid[j] == rides[i];
    var mine := RidesOf(valid, id);
    assert valid[j] in mine;
  }

  lemma {:induction false} BookingIdsBound(rides: seq<Ride>)
    ensures |BookingIds(rides)| <= |rides|
  {
    if rides != [] {
      var init := rides[..|rides| - 1];
      BookingIdsBound(init);
      var last := rides[|rides| - 1];
      var extra: set<string> := if last.bookingId.Some? then {last.bookingId.value} else {};
      forall b | b in BookingIds(rides)
        ensures b in BookingIds(init) + extra
      {
        var k :| 0 <= k < |rides| && rides[k].bookingId == Some(b);
        if k < |init| {
          assert init[k] == rides[k];
        }
      }
      SubsetCardinality(BookingIds(rides), BookingIds(init) + extra);
    }
  }

  /** With no negative booking value, every customer's monetary value is non-negative. */
  lemma MonetaryNonNegative(rides: seq<Ride>, id: string)
    requires id in Aggregate(rides)
    requires forall i :: 0 <= i < |rides| ==> rides[i].bookingValue >= 0.0
    ensures Aggregate(rides)[id].monetary >= 0.0
  {
    var mine := RidesOf(ValidRides(rides), id);
    SumNonNegative(mine);
  }

  lemma {:induction false} SumNonNegative(rides: seq<Ride>)
    requires forall i :: 0 <= i < |rides| ==> rides[i].bookingValue >= 0.0
    ensures SumValues(rides) >= 0.0
  {
    if rides != [] {
      SumNonNegative(rides[..|rides| - 1]);
    }
  }

  lemma SubsetCardinality(a: set<string>, b: set<string>)
    requires a <= b
    ensures |a| <= |b|
    ensures |a| == |b| ==> a == b
  {
    if a != {} {
      var x :| x in a;
      SubsetCardinality(a - {x}, b - {x});
    }
  }
}
