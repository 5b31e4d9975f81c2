/**
 * The rides table as the script holds it: string-typed columns, header
 * normalised in place, then rewritten column by column.
 */
module RideTable {
  import opened Wrappers
  import SnakeCase
  import opened Cleaning

  /** Some other column carries the same name as column k. */
  predicate Duplicated(names: seq<string>, k: int)
    requires 0 <= k < |names|
  {
    exists j :: 0 <= j < |names| && j != k && names[j] == names[k]
  }

  /** The first column, from k on, whose name is shared with another column; |names| when there is none. */
  function FirstDuplicateFrom(names: seq<string>, k: nat): (d: nat)
    requires k <= |names|
    ensures k <= d <= |names|
    ensures forall j :: k <= j < d ==> !Duplicated(names, j)
    ensures d < |names| ==> Duplicated(names, d)
    decreases |names| - k
  {
    if k == |names| then k
    else if Duplicated(names, k) then k
    else FirstDuplicateFrom(names, k + 1)
  }

  /** Column names are pairwise distinct. */
  predicate Distinct(names: seq<string>)
  {
    forall i, j :: 0 <= i < j < |names| ==> names[i] != names[j]
  }

  lemma DistinctIffNoDuplicate(names: seq<string>)
    ensures Distinct(names) <==> FirstDuplicateFrom(names, 0) == |names|
  {
    if !Distinct(names) {
      var i, j :| 0 <= i < j < |names| && names[i] == names[j];
      assert Duplicated(names, i);
    }
  }

  /** The index of the column called name, if there is one. */
  function IndexOf(names: seq<string>, name: string): (r: Option<nat>)
    ensures r.None? <==> name !in names
    ensures r.Some? ==> r.value < |names| && names[r.value] == name
    ensures r.Some? ==> forall j :: 0 <= j < r.value ==> names[j] != name
  {
    if |names| == 0 then None
    else if names[0] == name then Some(0)
    else match IndexOf(names[1..], name)
      case None => None
      case Some(j) => Some(j + 1)
  }

  /** The two identifier columns whose surrounding quotes are removed. */
  const IdColumns: seq<string> := ["booking_id", "customer_id"]

  class RideFrame {
    /** Column names, in file order. */
    var columns: seq<string>
    /** Cells, column by column: data[j][i] is row i of column j. */
    var data: seq<seq<Cell>>
    /** The number of rows. */
    var height: nat

    /** Every column has a name and height cells. */
    ghost predicate Valid()
      reads this
    {
      |data| == |columns| && forall j :: 0 <= j < |data| ==> |data[j]| == height
    }

    /** pd.read_csv(..., dtype=str): the raw header and the cells as strings. */
    constructor (header: seq<string>, cells: seq<seq<Cell>>, rows: nat)
      requires |header| == |cells| && forall j :: 0 <= j < |cells| ==> |cells[j]| == rows
      ensures Valid()
      ensures columns == header && data == cells && height == rows
    {
      columns := header;
      data := cells;
      height := rows;
    }

    /** df.columns = [to_snake(c) for c in df.columns]. */
    method NormalizeHeader()
      requires Valid()
      modifies this
      ensures Valid()
      ensures |columns| == |old(columns)|
      ensures forall j :: 0 <= j < |columns| ==> columns[j] == SnakeCase.ToSnake(old(columns)[j])
      ensures data == old(data) && height == old(height)
    {
      var raw := columns;
      columns := seq(|raw|, j requires 0 <= j < |raw| => SnakeCase.ToSnake(raw[j]));
    }

    /**
     * The loop over the columns that strips every cell and turns the
     * null-like markers into missing values. Reading a column whose name
     * is shared by another column yields a frame, which has no dtype: the
     * script stops there with an error (ok is false), the columns before it
     * already cleaned.
     */
    method ReplaceNullLike() returns (ok: bool)
      requires Valid()
      modifies this
      ensures Valid()
      ensures ok <==> Distinct(columns)
      ensures columns == old(columns) && height == old(height)
      ensures |data| == |old(data)|
      ensures forall j :: 0 <= j < |data| ==>
        data[j] == if j < FirstDuplicateFrom(columns, 0) then CleanColumn(old(data)[j]) else old(data)[j]
    {
      DistinctIffNoDuplicate(columns);
      ghost var first := FirstDuplicateFrom(columns, 0);
      for k := 0 to |columns|
        invariant Valid() && columns == old(columns) && height == old(height)
        invariant k <= first
        invariant |data| == |old(data)|
        invariant forall j :: 0 <= j < |data| ==> data[j] == if j < k then CleanColumn(old(data)[j]) else old(data)[j]
      {
        if Duplicated(columns, k) {
          return false;
        }
        data := data[k := CleanColumn(data[k])];
      }
      return true;
    }

    /** df[name] = df[name].str.replace(r'^"|"$', "", regex=True), when the column exists. */
    method StripColumnQuotes(name: string)
      requires Valid() && Distinct(columns)
      modifies this
      ensures Valid()
      ensures columns == old(columns) && height == old(height)
      ensures |data| == |old(data)|
      ensures forall j :: 0 <= j < |data| ==>
        data[j] == if columns[j] == name then QuoteColumn(old(data)[j]) else old(data)[j]
    {
      var idx := IndexOf(columns, name);
      if idx.Some? {
        data := data[idx.value := QuoteColumn(data[idx.value])];
      }
    }

    /** The loop over "booking_id" and "customer_id". */
    method StripIdQuotes()
      requires Valid() && Distinct(columns)
      modifies this
      ensures Valid()
      ensures columns == old(columns) && height == old(height)
      ensures |data| == |old(data)|
      ensures forall j :: 0 <= j < |data| ==>
        data[j] == if columns[j] in IdColumns then QuoteColumn(old(data)[j]) else old(data)[j]
    {
      StripColumnQuotes(IdColumns[0]);
      StripColumnQuotes(IdColumns[1]);
    }
  }
}
