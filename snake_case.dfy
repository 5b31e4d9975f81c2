/**
 * to_snake, the column-name normaliser: strip surrounding whitespace,
 * lowercase, drop every character that is neither a word character nor
 * whitespace, and turn each remaining whitespace run into one underscore.
 * Character classes follow Python's definitions restricted to ASCII.
 */
module SnakeCase {

  /** Python's str.isspace on ASCII: tab, newline, vertical tab, form feed, carriage return, the four separators 0x1C-0x1F, and space. */
  predicate IsSpace(ch: char)
  {
    9 <= ch as int <= 13 || 28 <= ch as int <= 31 || ch == ' '
  }

  /** The regex class \w on ASCII: letters, digits and underscore. */
  predicate IsWordChar(ch: char)
  {
    'a' <= ch <= 'z' || 'A' <= ch <= 'Z' || '0' <= ch <= '9' || ch == '_'
  }

  /** A character to_snake can produce: a lowercase letter, a digit or an underscore. */
  predicate IsSnakeChar(ch: char)
  {
    'a' <= ch <= 'z' || '0' <= ch <= '9' || ch == '_'
  }

  /** str.lower on one ASCII character. */
  function LowerChar(ch: char): (r: char)
    ensures 'A' <= ch <= 'Z' ==> 'a' <= r <= 'z' && r as int == ch as int + 32
    ensures !('A' <= ch <= 'Z') ==> r == ch
  {
    if 'A' <= ch <= 'Z' then (ch as int + 32) as char else ch
  }

  /** str.lower on an ASCII string. */
  function Lower(s: string): (r: string)
    ensures |r| == |s|
    ensures forall i :: 0 <= i < |s| ==> r[i] == LowerChar(s[i])
  {
    seq(|s|, i requires 0 <= i < |s| => LowerChar(s[i]))
  }

  /** str.lstrip: drops the whitespace at the front of s. */
  function StripLeft(s: string): (r: string)
    ensures |r| <= |s| && r == s[|s| - |r|..]
    ensures r == [] || !IsSpace(r[0])
    ensures forall i :: 0 <= i < |s| - |r| ==> IsSpace(s[i])
  {
    if s != [] && IsSpace(s[0]) then StripLeft(s[1..]) else s
  }

  function StripRight(s: string): (r: string)
    ensures |r| <= |s| && r == s[..|r|]
    ensures r == [] || !IsSpace(r[|r| - 1])
    ensures forall i :: |r| <= i < |s| ==> IsSpace(s[i])
  {
    if s != [] && IsSpace(s[|s| - 1]) then StripRight(s[..|s| - 1]) else s
  }

  /**
   * str.strip: the result is a stretch of s that neither starts nor ends
   * with whitespace, and everything cut off on either side is whitespace.
   */
  function Strip(s: string): (r: string)
    ensures exists i, j :: (0 <= i <= j <= |s| && r == s[i..j]
      && (forall k :: 0 <= k < i ==> IsSpace(s[k]))
      && (forall k :: j <= k < |s| ==> IsSpace(s[k])))
    ensures r == [] || (!IsSpace(r[0]) && !IsSpace(r[|r| - 1]))
    ensures s == [] || (!IsSpace(s[0]) && !IsSpace(s[|s| - 1])) ==> r == s
  {
    var l := StripLeft(s);
    var r := StripRight(l);
    assert r == s[|s| - |l|..|s| - |l| + |r|];
    r
  }

  /** re.sub(r"[^\w\s]", "", s): keep word characters and whitespace, in order. */
  function RemovePunct(s: string): (r: string)
    ensures |r| <= |s|
    ensures forall i :: 0 <= i < |r| ==> IsWordChar(r[i]) || IsSpace(r[i])
    ensures (forall i :: 0 <= i < |s| ==> IsWordChar(s[i]) || IsSpace(s[i])) ==> r == s
    ensures (forall i :: 0 <= i < |s| ==> !('A' <= s[i] <= 'Z')) ==> forall i :: 0 <= i < |r| ==> IsSnakeChar(r[i]) || IsSpace(r[i])
  {
    if s == [] then []
    else (if IsWordChar(s[0]) || IsSpace(s[0]) then [s[0]] else []) + RemovePunct(s[1..])
  }

  /** Deleting punctuation works character by character: it distributes over concatenation. */
  lemma {:induction false} RemovePunctConcat(s: string, t: string)
    ensures RemovePunct(s + t) == RemovePunct(s) + RemovePunct(t)
  {
    if s == [] {
      assert s + t == t;
    } else {
      assert (s + t)[0] == s[0];
      assert (s + t)[1..] == s[1..] + t;
      RemovePunctConcat(s[1..], t);
    }
  }

  /** A single character is kept exactly when it is a word character or whitespace. */
  lemma RemovePunctChar(ch: char)
    ensures RemovePunct([ch]) == if IsWordChar(ch) || IsSpace(ch) then [ch] else []
  {
    assert [ch][1..] == [];
  }

  /** re.sub(r"\s+", "_", s): every maximal whitespace run becomes one underscore. */
  function CollapseSpaces(s: string): (r: string)
    ensures |r| <= |s|
    ensures forall i :: 0 <= i < |r| ==> !IsSpace(r[i])
    ensures (forall i :: 0 <= i < |s| ==> IsSnakeChar(s[i]) || IsSpace(s[i])) ==> forall i :: 0 <= i < |r| ==> IsSnakeChar(r[i])
    decreases |s|
  {
    if s == [] then []
    else if IsSpace(s[0]) then "_" + CollapseSpaces(StripLeft(s[1..]))
    else [s[0]] + CollapseSpaces(s[1..])
  }

  /** to_snake. */
  function ToSnake(s: string): (r: string)
    ensures forall i :: 0 <= i < |r| ==> IsSnakeChar(r[i])
    ensures forall i :: 0 <= i < |r| ==> !IsSpace(r[i])
    ensures |r| <= |s|
  {
    var l := Lower(Strip(s));
    assert forall i :: 0 <= i < |l| ==> !('A' <= l[i] <= 'Z');
    CollapseSpaces(RemovePunct(l))
  }

  // ---------------------------------------------------------------------
  // Properties
  // ---------------------------------------------------------------------

  lemma {:induction false} NoSpaceCollapseIdentity(s: string)
    requires forall i :: 0 <= i < |s| ==> !IsSpace(s[i])
    ensures CollapseSpaces(s) == s
  {
    if s != [] {
      NoSpaceCollapseIdentity(s[1..]);
    }
  }

  /**
   * A whitespace run that follows a stretch without whitespace is replaced
   * by exactly one underscore, whatever its length; together with
   * NoSpaceCollapseIdentity this determines the rewrite of any string.
   */
  lemma {:induction false} CollapseRun(a: string, run: string, b: string)
    requires forall i :: 0 <= i < |a| ==> !IsSpace(a[i])
    requires run != [] && forall i :: 0 <= i < |run| ==> IsSpace(run[i])
    requires b == [] || !IsSpace(b[0])
    ensures CollapseSpaces(a + run + b) == a + ("_" + CollapseSpaces(b))
    decreases |a|
  {
    if a == [] {
      assert a + run + b == run + b;
      CollapseAtRun(run, b);
    } else {
      var t := a[1..] + run + b;
      assert a + run + b == [a[0]] + t;
      CollapseKeeps(a[0], t);
      CollapseRun(a[1..], run, b);
      ConsSplit(a, "_" + CollapseSpaces(b));
    }
  }

  lemma ConsSplit(a: string, u: string)
    requires a != []
    ensures a + u == [a[0]] + (a[1..] + u)
  {
    assert a == [a[0]] + a[1..];
  }

  lemma CollapseAtRun(run: string, b: string)
    requires run != [] && forall i :: 0 <= i < |run| ==> IsSpace(run[i])
    requires b == [] || !IsSpace(b[0])
    ensures CollapseSpaces(run + b) == "_" + CollapseSpaces(b)
  {
    assert (run + b)[0] == run[0];
    assert (run + b)[1..] == run[1..] + b;
    SkipRun(run[1..], b);
  }

  lemma CollapseKeeps(x: char, t: string)
    requires !IsSpace(x)
    ensures CollapseSpaces([x] + t) == [x] + CollapseSpaces(t)
  {
    assert ([x] + t)[1..] == t;
  }

  lemma {:induction false} SkipRun(run: string, b: string)
    requires forall i :: 0 <= i < |run| ==> IsSpace(run[i])
    requires b == [] || !IsSpace(b[0])
    ensures StripLeft(run + b) == b
  {
    if run == [] {
      assert run + b == b;
    } else {
      assert (run + b)[1..] == run[1..] + b;
      SkipRun(run[1..], b);
    }
  }

  /** A name already in snake form is left unchanged. */
  lemma SnakeFixedPoint(s: string)
    requires forall i :: 0 <= i < |s| ==> IsSnakeChar(s[i])
    ensures ToSnake(s) == s
  {
    assert forall i :: 0 <= i < |s| ==> IsWordChar(s[i]) && !IsSpace(s[i]);
    assert Strip(s) == s;
    assert Lower(s) == s;
    assert RemovePunct(s) == s;
    NoSpaceCollapseIdentity(s);
  }

  /** to_snake is idempotent. */
  lemma Idempotent(s: string)
    ensures ToSnake(ToSnake(s)) == ToSnake(s)
  {
    SnakeFixedPoint(ToSnake(s));
  }

  /** The booking-id header of the rides export. */
  lemma BookingIdHeader()
    ensures ToSnake("Booking ID") == "booking_id"
  {
    HeaderLowered();
    HeaderKept();
    HeaderCollapsed();
  }

  lemma HeaderLowered()
    ensures Lower(Strip("Booking ID")) == "booking id"
  {
    HeaderStripped();
    HeaderLowerCase();
  }

  lemma HeaderStripped()
    ensures Strip("Booking ID") == "Booking ID"
  {
    var s := "Booking ID";
    assert !IsSpace(s[0]) && !IsSpace(s[|s| - 1]);
  }

  lemma HeaderLowerCase()
    ensures Lower("Booking ID") == "booking id"
  {
    var s, t := "Booking ID", "booking id";
    assert LowerChar('B') == 'b' && LowerChar('I') == 'i' && LowerChar('D') == 'd';
    assert forall i :: 0 <= i < |s| ==> Lower(s)[i] == t[i];
  }

  lemma HeaderKept()
    ensures RemovePunct("booking id") == "booking id"
  {
    var s := "booking id";
    assert forall i :: 0 <= i < |s| ==> IsWordChar(s[i]) || IsSpace(s[i]);
  }

  lemma HeaderCollapsed()
    ensures CollapseSpaces("booking id") == "booking_id"
  {
    var a, b := "booking", "id";
    assert forall i :: 0 <= i < |a| ==> !IsSpace(a[i]);
    assert forall i :: 0 <= i < |b| ==> !IsSpace(b[i]);
    CollapseRun(a, " ", b);
    NoSpaceCollapseIdentity(b);
    assert a + " " + b == "booking id";
    assert a + "_" + b == "booking_id";
  }
}
