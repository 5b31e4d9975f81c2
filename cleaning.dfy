/**
 * The cleaning steps of the rides export: null-like markers become missing
 * cells, quotes around identifiers are dropped, and the derived columns
 * (timestamp, numeric values, the cancellation flag) are computed.
 */
module Cleaning {
  import opened Wrappers
  import SnakeCase

  /** A cell of the string-typed frame; None is a missing value (NaN). */
  type Cell = Option<string>

  /** The markers that stand for a missing value, compared exactly after stripping. */
  const NullLike: set<string> := {"", "null", "none", "na", "n/a", "nan", "Nil", "NULL", "NaN"}

  /** str.strip() followed by replace(list(NULL_LIKE), np.nan) on one cell. */
  function CleanCell(v: Cell): (r: Cell)
    ensures v.None? ==> r.None?
    ensures v.Some? ==> (r.None? <==> SnakeCase.Strip(v.value) in NullLike)
    ensures r.Some? ==> r.value == SnakeCase.Strip(v.value) && r.value !in NullLike
    ensures r.Some? ==> SnakeCase.Strip(r.value) == r.value
  {
    match v
    case None => None
    case Some(s) =>
      var t := SnakeCase.Strip(s);
      if t in NullLike then None else Some(t)
  }

  /** Cleaning a cell twice is the same as cleaning it once. */
  lemma CleanCellIdempotent(v: Cell)
    ensures CleanCell(CleanCell(v)) == CleanCell(v)
  {
  }

  /** A cell that no cleaning turns missing: present and not a marker once stripped. */
  lemma CleanCellKeeps(s: string)
    requires SnakeCase.Strip(s) !in NullLike
    ensures CleanCell(Some(s)) == Some(SnakeCase.Strip(s))
  {
  }

  function CleanColumn(col: seq<Cell>): (r: seq<Cell>)
    ensures |r| == |col| && forall i :: 0 <= i < |col| ==> r[i] == CleanCell(col[i])
  {
    seq(|col|, i requires 0 <= i < |col| => CleanCell(col[i]))
  }

  /**
   * str.replace(r'^"|"$', "", regex=True) on one value: a quote at the
   * start is removed, and so is a quote at the end, or just before a final
   * newline (where the regex "$" also matches), unless it is the quote
   * already removed at the start.
   */
  function StripQuotes(s: string): (r: string)
    ensures |s| - 2 <= |r| <= |s|
    ensures (s == [] || s[0] != '"') && (s == [] || s[|s| - 1] != '"') && !(|s| >= 2 && s[|s| - 1] == '\n' && s[|s| - 2] == '"') ==> r == s
    ensures var a := if |s| > 0 && s[0] == '"' then 1 else 0;
      && (|s| > a && s[|s| - 1] == '"' ==> r == s[a..|s| - 1])
      && (|s| > a + 1 && s[|s| - 1] == '\n' && s[|s| - 2] == '"' ==> r == s[a..|s| - 2] + "\n")
      && (!(|s| > a && s[|s| - 1] == '"') && !(|s| > a + 1 && s[|s| - 1] == '\n' && s[|s| - 2] == '"') ==> r == s[a..])
  {
    var a := if |s| > 0 && s[0] == '"' then 1 else 0;
    var rest := s[a..];
    if |rest| > 0 && rest[|rest| - 1] == '"' then rest[..|rest| - 1]
    else if |rest| > 1 && rest[|rest| - 1] == '\n' && rest[|rest| - 2] == '"' then rest[..|rest| - 2] + "\n"
    else rest
  }

  /** Quoting a value and stripping the quotes gives the value back. */
  lemma StripQuotesRoundTrip(v: string)
    ensures StripQuotes("\"" + v + "\"") == v
  {
    var s := "\"" + v + "\"";
    assert s[1..] == v + "\"";
    assert (v + "\"")[..|v|] == v;
  }

  /** A closing quote is removed even when the value does not start with a quote. */
  lemma StripTrailingQuote(v: string)
    requires v == [] || v[0] != '"'
    ensures StripQuotes(v + "\"") == v
  {
    var s := v + "\"";
    assert s[0..] == s;
    assert s[..|s| - 1] == v;
  }

  /**
   * On a value without a final newline (as every cell is once stripped),
   * quote stripping removes at most one quote at each end and keeps the
   * characters in between.
   */
  lemma StripQuotesInfix(s: string)
    requires s == [] || s[|s| - 1] != '\n'
    ensures exists i, j :: (0 <= i <= j <= |s| && StripQuotes(s) == s[i..j]
      && (i == 1 <==> (|s| > 0 && s[0] == '"'))
      && i <= 1 && |s| - j <= 1
      && (j == |s| - 1 <==> (|s| - i >= 1 && s[|s| - 1] == '"')))
  {
    var a := if |s| > 0 && s[0] == '"' then 1 else 0;
    var rest := s[a..];
    if |rest| > 0 && rest[|rest| - 1] == '"' {
      assert StripQuotes(s) == s[a..|s| - 1];
    } else {
      assert StripQuotes(s) == s[a..|s|];
    }
  }

  function QuoteColumn(col: seq<Cell>): (r: seq<Cell>)
    ensures |r| == |col|
    ensures forall i :: 0 <= i < |col| ==> (r[i].None? <==> col[i].None?)
    ensures forall i :: 0 <= i < |col| ==> col[i].Some? ==> r[i].value == StripQuotes(col[i].value)
  {
    seq(|col|, i requires 0 <= i < |col| => if col[i].None? then None else Some(StripQuotes(col[i].value)))
  }

  /** s contains pat somewhere. */
  ghost predicate Contains(s: string, pat: string)
  {
    exists i :: OccursAt(s, pat, i)
  }

  /** pat occurs in s starting at index i. */
  ghost predicate OccursAt(s: string, pat: string, i: int)
  {
    0 <= i <= |s| - |pat| && s[i..i + |pat|] == pat
  }

  /** The substring test `pat in s`, scanning from the left. */
  function HasInfix(s: string, pat: string): (b: bool)
    ensures b <==> Contains(s, pat)
  {
    if |s| < |pat| then false
    else if s[..|pat|] == pat then
      assert OccursAt(s, pat, 0);
      true
    else
      ContainsStep(s, pat);
      HasInfix(s[1..], pat)
  }

  /** Past a position where pat does not start, the search moves one character on. */
  lemma ContainsStep(s: string, pat: string)
    requires |s| >= |pat| && s[..|pat|] != pat
    ensures Contains(s, pat) <==> Contains(s[1..], pat)
  {
    if Contains(s[1..], pat) {
      var i :| OccursAt(s[1..], pat, i);
      assert s[i + 1..i + 1 + |pat|] == s[1..][i..i + |pat|];
      assert OccursAt(s, pat, i + 1);
    }
    if Contains(s, pat) {
      var i :| OccursAt(s, pat, i);
      assert i != 0;
      assert s[1..][i - 1..i - 1 + |pat|] == s[i..i + |pat|];
      assert OccursAt(s[1..], pat, i - 1);
    }
  }

  /** str(x): a missing value prints as "nan". */
  function Render(c: Cell): string
  {
    if c.None? then "nan" else c.value
  }

  /** The is_cancelled lambda: 1 when the lowercased status mentions "cancel" or "no driver", else 0. */
  function IsCancelled(status: Cell): (r: nat)
    ensures r <= 1
    ensures r == 1 <==> Contains(SnakeCase.Lower(Render(status)), "cancel") || Contains(SnakeCase.Lower(Render(status)), "no driver")
  {
    var text := SnakeCase.Lower(Render(status));
    if HasInfix(text, "cancel") || HasInfix(text, "no driver") then 1 else 0
  }

  /** A missing status is not a cancellation. */
  lemma MissingStatusNotCancelled()
    ensures IsCancelled(None) == 0
  {
    var t := SnakeCase.Lower("nan");
    assert t == "nan";
  }

  /** The statuses a valid ride can have. */
  const ValidStatuses: set<string> := {"Completed", "Incomplete", "No Driver Found"}

  /**
   * isin(['Completed', 'Incomplete', 'No Driver Found']): false for a
   * missing status, and case-sensitive, so a lower-case spelling such as
   * "completed" is not valid.
   */
  predicate IsValidRide(status: Cell)
    ensures IsValidRide(status) ==> status.Some? && SnakeCase.Lower(status.value) != status.value
  {
    if status.Some? && status.value in ValidStatuses then
      var s := status.value;
      assert SnakeCase.Lower(s)[0] == SnakeCase.LowerChar(s[0]) != s[0];
      true
    else false
  }

  /** Among valid rides, exactly the "No Driver Found" ones are flagged as cancelled. */
  lemma ValidRideCancelled(status: Cell)
    requires IsValidRide(status)
    ensures IsCancelled(status) == 1 <==> status == Some("No Driver Found")
  {
    var s := status.value;
    var t := SnakeCase.Lower(s);
    if s == "No Driver Found" {
      assert t[0..9] == "no driver" by {
        assert SnakeCase.LowerChar('N') == 'n' && SnakeCase.LowerChar('D') == 'd';
      }
      assert OccursAt(t, "no driver", 0);
    } else {
      var w := if s == "Completed" then "completed" else "incomplete";
      assert t == w by {
        assert SnakeCase.LowerChar('C') == 'c' && SnakeCase.LowerChar('I') == 'i';
        assert forall i :: 0 <= i < |s| ==> t[i] == w[i];
      }
      NoSpace(w);
      NoCancel(w);
    }
  }

  lemma NoSpace(t: string)
    requires forall i :: 0 <= i < |t| ==> t[i] != ' '
    ensures !Contains(t, "no driver")
  {
    if Contains(t, "no driver") {
      var i :| OccursAt(t, "no driver", i);
      OccursCharAt(t, "no driver", i, 2);
      assert false;
    }
  }

  lemma NoCancel(t: string)
    requires forall i :: 0 <= i < |t| - 1 ==> !(t[i] == 'c' && t[i + 1] == 'a')
    ensures !Contains(t, "cancel")
  {
    if Contains(t, "cancel") {
      var i :| OccursAt(t, "cancel", i);
      OccursCharAt(t, "cancel", i, 0);
      OccursCharAt(t, "cancel", i, 1);
      assert false;
    }
  }

  /** An occurrence fixes the characters it covers. */
  lemma OccursCharAt(t: string, pat: string, i: int, k: int)
    ensures OccursAt(t, pat, i) && 0 <= k < |pat| ==> 0 <= i + k < |t| && t[i + k] == pat[k]
  {
    if OccursAt(t, pat, i) && 0 <= k < |pat| {
      assert t[i..i + |pat|][k] == t[i + k];
    }
  }
}
