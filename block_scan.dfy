// The block extractor of process_THF_file.py: pull_horz_MTF, pull_vert_MTF
// and pull_defocus. Each makes one pass over the lines of a through-focus
// MTF file with a boolean `copy` flag: a start-marker line switches copying
// on, a stop-marker line switches it off, and any other line met while
// copying is stripped, split on tabs and kept as a row of tokens.

module BlockScan {
  import opened Results
  import opened PyText

  /** One row of tokens, as split from a line. */
  type Tokens = seq<string>

  /** A parsed numeric block: rows of reals. */
  type Block = seq<seq<real>>

  /** A text-to-float conversion that may fail (numpy's astype(float)). */
  type Parser = string -> Option<real>

  /** The two lines, compared after stripping, that open and close a block. */
  datatype Markers = Markers(start: string, stop: string)

  const HorzStart := "Horizontal Freq (lp/mm)  MTF @"
  const VertStart := "Vertical Freq (lp/mm)  MTF @"
  const DefocusData := "Defocus Intensity Data: Horiz\tVert"
  const DefocusStart := "Defocus Position"

  /** Horizontal MTF rows run until the vertical heading. */
  const HorzMarkers := Markers(HorzStart, VertStart)
  /** Vertical MTF rows run until the defocus intensity heading. */
  const VertMarkers := Markers(VertStart, DefocusData)
  /** Defocus positions run until the first line that strips to nothing. */
  const DefocusMarkers := Markers(DefocusStart, "")

  // ---------------------------------------------------------------------
  // The scanner as a recursive state machine

  /** The rows collected from `lines` when the scan enters them with the
      flag `copy`. Marker tests come first, in the source's order. */
  function Scan(lines: seq<string>, m: Markers, copy: bool): seq<Tokens> {
    if lines == [] then []
    else
      var t := Strip(lines[0]);
      if t == m.start then Scan(lines[1..], m, true)
      else if t == m.stop then Scan(lines[1..], m, false)
      else if copy then [Split(t, '\t')] + Scan(lines[1..], m, true)
      else Scan(lines[1..], m, false)
  }

  /** Each line gives at most one row, and a row holds at least one token
      since splitting never returns an empty list. */
  lemma {:induction false} ScanShape(lines: seq<string>, m: Markers, copy: bool)
    ensures |Scan(lines, m, copy)| <= |lines|
    ensures forall k :: 0 <= k < |Scan(lines, m, copy)| ==> |Scan(lines, m, copy)[k]| >= 1
  {
    if lines != [] {
      var t := Strip(lines[0]);
      ScanShape(lines[1..], m, t == m.start || (t != m.stop && copy));
    }
  }

  /** The scanning loop of the pull_* functions. */
  method ScanBlock(lines: seq<string>, m: Markers) returns (rows: seq<Tokens>)
    ensures rows == Scan(lines, m, false)
  {
    rows := [];
    var copy := false;
    var i := 0;
    while i < |lines|
      invariant 0 <= i <= |lines|
      invariant rows + Scan(lines[i..], m, copy) == Scan(lines, m, false)
    {
      var t := Strip(lines[i]);
      assert lines[i..][1..] == lines[i + 1..];
      if t == m.start {
        copy := true;
      } else if t == m.stop {
        copy := false;
      } else if copy {
        rows := rows + [Split(t, '\t')];
      }
      i := i + 1;
    }
    assert lines[i..] == [];
  }

  // ---------------------------------------------------------------------
  // The same rows described by line positions

  /** Copying is on when line i is reached: some earlier line is the start
      marker and no line after it and before i is the stop marker. */
  ghost predicate CopyingAt(lines: seq<string>, m: Markers, i: nat)
    requires i <= |lines|
  {
    exists j :: 0 <= j < i && Strip(lines[j]) == m.start &&
      forall k :: j < k < i ==> Strip(lines[k]) != m.stop
  }

  /** Line i lies strictly inside a block: copying is on and the line is
      itself neither marker. */
  ghost predicate InBlock(lines: seq<string>, m: Markers, i: nat)
    requires i < |lines|
  {
    CopyingAt(lines, m, i) && Strip(lines[i]) != m.start && Strip(lines[i]) != m.stop
  }

  /** The tab-split, stripped lines among the first n that lie inside a
      block, in line order. */
  ghost function BlockLines(lines: seq<string>, m: Markers, n: nat): seq<Tokens>
    requires n <= |lines|
  {
    if n == 0 then []
    else BlockLines(lines, m, n - 1) +
         (if InBlock(lines, m, n - 1) then [Split(Strip(lines[n - 1]), '\t')] else [])
  }

  /** How one line moves the copying state on. */
  lemma CopyingStep(lines: seq<string>, m: Markers, i: nat)
    requires i < |lines|
    ensures CopyingAt(lines, m, i + 1) ==
              if Strip(lines[i]) == m.start then true
              else if Strip(lines[i]) == m.stop then false
              else CopyingAt(lines, m, i)
  {
    var t := Strip(lines[i]);
    if t == m.start {
      assert 0 <= i < i + 1 && Strip(lines[i]) == m.start;
    } else if t == m.stop {
    } else {
      if CopyingAt(lines, m, i + 1) {
        var j :| 0 <= j < i + 1 && Strip(lines[j]) == m.start &&
          forall k :: j < k < i + 1 ==> Strip(lines[k]) != m.stop;
        assert j < i;
        assert CopyingAt(lines, m, i);
      }
      if CopyingAt(lines, m, i) {
        var j :| 0 <= j < i && Strip(lines[j]) == m.start &&
          forall k :: j < k < i ==> Strip(lines[k]) != m.stop;
        assert forall k :: j < k < i + 1 ==> Strip(lines[k]) != m.stop;
      }
    }
  }

  /** The row one line contributes, and the flag it leaves behind. */
  function RowOf(x: string, m: Markers, copy: bool): seq<Tokens> {
    var t := Strip(x);
    if t == m.start || t == m.stop || !copy then [] else [Split(t, '\t')]
  }

  function NextCopy(x: string, m: Markers, copy: bool): bool {
    var t := Strip(x);
    t == m.start || (t != m.stop && copy)
  }

  /** One step of the state machine. */
  lemma ScanCons(x: string, rest: seq<string>, m: Markers, copy: bool)
    ensures Scan([x] + rest, m, copy) == RowOf(x, m, copy) + Scan(rest, m, NextCopy(x, m, copy))
  {
    assert ([x] + rest)[0] == x && ([x] + rest)[1..] == rest;
  }

  /** The state machine, run over a prefix, has collected exactly the
      block lines of that prefix and sits in the state CopyingAt. */
  lemma {:induction false} ScanPrefix(lines: seq<string>, m: Markers, i: nat)
    requires i <= |lines|
    ensures BlockLines(lines, m, i) + Scan(lines[i..], m, CopyingAt(lines, m, i))
            == Scan(lines, m, false)
  {
    if i == 0 {
      assert lines[0..] == lines;
      assert !CopyingAt(lines, m, 0);
    } else {
      var x, c := lines[i - 1], CopyingAt(lines, m, i - 1);
      var after := Scan(lines[i..], m, CopyingAt(lines, m, i));
      ScanPrefix(lines, m, i - 1);
      assert lines[i - 1..] == [x] + lines[i..];
      assert NextCopy(x, m, c) == CopyingAt(lines, m, i) by {
        CopyingStep(lines, m, i - 1);
      }
      ScanCons(x, lines[i..], m, c);
      assert BlockLines(lines, m, i) == BlockLines(lines, m, i - 1) + RowOf(x, m, c);
      ConcatAssoc(BlockLines(lines, m, i - 1), RowOf(x, m, c), after);
    }
  }

  /** The collected rows are exactly the tab-split, stripped lines that lie
      strictly between a start-marker line and the next stop-marker line,
      in line order. */
  lemma ScanIsBlockLines(lines: seq<string>, m: Markers)
    ensures Scan(lines, m, false) == BlockLines(lines, m, |lines|)
  {
    ScanPrefix(lines, m, |lines|);
    assert lines[|lines|..] == [];
  }

  /** No collected row is a marker line: rejoining a row never gives either
      marker. */
  lemma {:induction false} NoMarkerRows(lines: seq<string>, m: Markers, copy: bool)
    ensures forall k :: 0 <= k < |Scan(lines, m, copy)| ==>
              Join(Scan(lines, m, copy)[k], '\t') != m.start &&
              Join(Scan(lines, m, copy)[k], '\t') != m.stop
  {
    if lines != [] {
      var t := Strip(lines[0]);
      NoMarkerRows(lines[1..], m, t == m.start || (t != m.stop && copy));
      JoinSplit(t, '\t');
    }
  }

  /** A start-marker line switches copying on whatever came before it: the
      scan of what follows restarts in the copying state, and rows keep
      line order. */
  lemma {:induction false} StartResumes(a: seq<string>, s: string, b: seq<string>, m: Markers, copy: bool)
    requires Strip(s) == m.start
    ensures Scan(a + [s] + b, m, copy) == Scan(a, m, copy) + Scan(b, m, true)
  {
    if a == [] {
      assert a + [s] + b == [s] + b;
      ScanCons(s, b, m, copy);
    } else {
      var x, tail := a[0], a[1..];
      var next := NextCopy(x, m, copy);
      var row := RowOf(x, m, copy);
      assert Scan(a + [s] + b, m, copy) == row + Scan(tail + [s] + b, m, next) by {
        assert a + [s] + b == [x] + (tail + [s] + b);
        ScanCons(x, tail + [s] + b, m, copy);
      }
      assert Scan(a, m, copy) == row + Scan(tail, m, next) by {
        assert a == [x] + tail;
        ScanCons(x, tail, m, copy);
      }
      StartResumes(tail, s, b, m, next);
      ConcatAssoc(row, Scan(tail, m, next), Scan(b, m, true));
    }
  }

  // ---------------------------------------------------------------------
  // From token rows to a numeric block

  /** All rows hold the same number of tokens. */
  predicate Rectangular<T>(rows: seq<seq<T>>) {
    forall k :: 0 <= k < |rows| ==> |rows[k]| == |rows[0]|
  }

  /** Every token of every row converts. */
  predicate AllNumeric(rows: seq<Tokens>, parse: Parser) {
    forall k, j :: 0 <= k < |rows| && 0 <= j < |rows[k]| ==> parse(rows[k][j]).Some?
  }

  /** np.asarray(rows).astype(float): a ragged list cannot become a 2-D
      float array, a token that is not a number fails the conversion, and
      an empty list becomes an empty array without error. */
  function ToBlock(rows: seq<Tokens>, parse: Parser): (r: Result<Block>)
    ensures r.Ok? <==> Rectangular(rows) && AllNumeric(rows, parse)
    ensures !Rectangular(rows) ==> r == Err(Ragged)
    ensures r.Ok? ==> |r.value| == |rows|
    ensures r.Ok? ==> forall k :: 0 <= k < |rows| ==> |r.value[k]| == |rows[k]|
    ensures r.Ok? ==> forall k, j :: 0 <= k < |rows| && 0 <= j < |rows[k]| ==>
              parse(rows[k][j]) == Some(r.value[k][j])
  {
    if !Rectangular(rows) then Err(Ragged)
    else if !AllNumeric(rows, parse) then Err(NotNumeric)
    else Ok(seq(|rows|, k requires 0 <= k < |rows| =>
              seq(|rows[k]|, j requires 0 <= j < |rows[k]| => parse(rows[k][j]).value)))
  }

  /** horz[1:len(horz)-1]: the first and last collected rows are dropped,
      which leaves nothing when fewer than three rows were collected. */
  function Trim<T>(rows: seq<T>): (r: seq<T>)
    ensures |r| == if |rows| >= 2 then |rows| - 2 else 0
    ensures forall k :: 0 <= k < |r| ==> r[k] == rows[k + 1]
  {
    PySlice(rows, 1, |rows| - 1)
  }

  // ---------------------------------------------------------------------
  // The three pull_* functions

  /** The token rows pull_horz_MTF keeps. */
  function HorzRows(lines: seq<string>): seq<Tokens> {
    Trim(Scan(lines, HorzMarkers, false))
  }

  /** The token rows pull_vert_MTF keeps. */
  function VertRows(lines: seq<string>): seq<Tokens> {
    Scan(lines, VertMarkers, false)
  }

  /** The token rows pull_defocus keeps. */
  function DefocusRows(lines: seq<string>): seq<Tokens> {
    Scan(lines, DefocusMarkers, false)
  }

  method PullHorzMTF(lines: seq<string>, parse: Parser) returns (r: Result<Block>)
    ensures r == ToBlock(HorzRows(lines), parse)
  {
    var horz := ScanBlock(lines, HorzMarkers);
    horz := PySlice(horz, 1, |horz| - 1);
    r := ToBlock(horz, parse);
  }

  method PullVertMTF(lines: seq<string>, parse: Parser) returns (r: Result<Block>)
    ensures r == ToBlock(VertRows(lines), parse)
  {
    var vert := ScanBlock(lines, VertMarkers);
    r := ToBlock(vert, parse);
  }

  method PullDefocus(lines: seq<string>, parse: Parser) returns (r: Result<Block>)
    ensures r == ToBlock(DefocusRows(lines), parse)
  {
    var defocus := ScanBlock(lines, DefocusMarkers);
    r := ToBlock(defocus, parse);
  }

  /** Every horizontal and vertical row, and so every row of a block built
      from them, has at least the frequency column. */
  lemma RowsNonEmpty(lines: seq<string>)
    ensures forall k :: 0 <= k < |HorzRows(lines)| ==> |HorzRows(lines)[k]| >= 1
    ensures forall k :: 0 <= k < |VertRows(lines)| ==> |VertRows(lines)[k]| >= 1
  {
    ScanShape(lines, HorzMarkers, false);
    ScanShape(lines, VertMarkers, false);
  }

  /** A blank line is never collected as a defocus row: copying stops at
      the first line that strips to nothing. */
  lemma DefocusHasNoBlankRow(lines: seq<string>)
    ensures forall k :: 0 <= k < |DefocusRows(lines)| ==> DefocusRows(lines)[k] != [""]
  {
    NoMarkerRows(lines, DefocusMarkers, false);
    forall k | 0 <= k < |DefocusRows(lines)| ensures DefocusRows(lines)[k] != [""] {
      assert Join([""], '\t') == "";
    }
  }
}
