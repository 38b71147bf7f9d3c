// The string records of process_THF_file.py: flatten_and_name_array turns
// one row of MTF values into a header naming file, slice and frequency,
// followed by the stringified values; plot_one_THF_file collects a defocus
// record and one or two such records per selected row into output_data.

module Records {
  import opened Results
  import opened PyText
  import opened PyPath
  import opened BlockScan
  import opened FreqAlign

  /** str(number): how a float is written out, supplied by the caller. */
  type Show = real -> string

  /** os.path.basename(path)[:-4], the file name without ".thf". */
  function Stem(path: string): string {
    PySlice(Basename(path), 0, -4)
  }

  /** The stem is the basename minus its last four characters, and empty
      when the basename is shorter. */
  lemma StemDropsExtension(path: string)
    ensures var b := Basename(path);
            Stem(path) == if |b| >= 4 then b[..|b| - 4] else []
  {
    DropLast(Basename(path), 4);
  }

  /** The first entry of named_output. */
  function Header(stem: string, slicename: string, freq: string): string {
    stem + " " + "% MTF" + " " + slicename + " " + "at" + " " + freq + " " + "lp/mm"
  }

  /** [str(x) for x in xs] */
  function Shown(xs: seq<real>, show: Show): (r: seq<string>)
    ensures |r| == |xs|
  {
    seq(|xs|, k requires 0 <= k < |xs| => show(xs[k]))
  }

  lemma ShownAppend(a: seq<real>, b: seq<real>, show: Show)
    ensures Shown(a + b, show) == Shown(a, show) + Shown(b, show)
  {
  }

  /** named_output for one row whose first value is the frequency. */
  function FlatRecord(path: string, slicename: string, row: seq<real>, show: Show): seq<string>
    requires |row| >= 1
  {
    [Header(Stem(path), slicename, show(row[0]))] + Shown(row[1..], show)
  }

  /** The last four space-separated words of a header, joined by spaces. */
  function DisplayName(header: string): string {
    var words := Split(header, ' ');
    Join(PySlice(words, -4, |words|), ' ')
  }

  /** flatten_and_name_array: the header, then each value after the
      frequency in column order; the name is taken from the header. */
  method FlattenAndName(path: string, slicename: string, row: seq<real>, show: Show)
    returns (name: string, out: seq<string>)
    requires |row| >= 1
    ensures |out| == |row|
    ensures out[0] == Header(Stem(path), slicename, show(row[0]))
    ensures forall k :: 1 <= k < |row| ==> out[k] == show(row[k])
    ensures out == FlatRecord(path, slicename, row, show)
    ensures name == DisplayName(out[0])
  {
    out := [Header(Stem(path), slicename, show(row[0]))];
    var i := 1;
    while i < |row|
      invariant 1 <= i <= |row| && |out| == i
      invariant out[0] == Header(Stem(path), slicename, show(row[0]))
      invariant forall k :: 1 <= k < i ==> out[k] == show(row[k])
    {
      out := out + [show(row[i])];
      i := i + 1;
    }
    name := DisplayName(out[0]);
  }

  /** Appending a separator and a separator-free word appends that word. */
  lemma SplitAfter(x: string, y: string, sep: char)
    requires sep !in y
    ensures Split(x + [sep] + y, sep) == Split(x, sep) + [y]
  {
    SplitAround(x, y, sep);
    SplitNoSep(y, sep);
  }

  /** A text followed by three space-free words, each after a space,
      splits into the text's words and then those three. */
  lemma SpacedThree(x: string, a: string, b: string, c: string)
    requires ' ' !in a && ' ' !in b && ' ' !in c
    ensures Split(x + [' '] + a + [' '] + b + [' '] + c, ' ') == Split(x, ' ') + [a, b, c]
  {
    var w := Split(x, ' ');
    var s1 := x + [' '] + a;
    var s2 := s1 + [' '] + b;
    assert Split(s1, ' ') == w + [a] by { SplitAfter(x, a, ' '); }
    assert Split(s2, ' ') == w + [a] + [b] by { SplitAfter(s1, b, ' '); }
    assert Split(s2 + [' '] + c, ' ') == w + [a] + [b] + [c] by { SplitAfter(s2, c, ' '); }
    assert w + [a] + [b] + [c] == w + [a, b, c];
  }

  /** A text followed by six space-free words, each after a space, splits
      into the text's words and then those six. */
  lemma SpacedWords(stem: string, a: string, b: string, c: string, d: string, e: string, f: string)
    requires ' ' !in a && ' ' !in b && ' ' !in c && ' ' !in d && ' ' !in e && ' ' !in f
    ensures Split(stem + [' '] + a + [' '] + b + [' '] + c + [' '] + d + [' '] + e + [' '] + f, ' ')
         == Split(stem, ' ') + [a, b, c, d, e, f]
  {
    var s3 := stem + [' '] + a + [' '] + b + [' '] + c;
    SpacedThree(stem, a, b, c);
    SpacedThree(s3, d, e, f);
    var w := Split(stem, ' ');
    assert w + [a, b, c] + [d, e, f] == w + [a, b, c, d, e, f];
  }

  /** The last four of a list followed by six words are the last four words. */
  lemma LastFourOfSix<T>(w: seq<T>, a: T, b: T, c: T, d: T, e: T, f: T)
    ensures var s := w + [a, b, c, d, e, f];
            PySlice(s, -4, |s|) == [c, d, e, f]
  {
    var s := w + [a, b, c, d, e, f];
    LastItems(s, 4);
    assert s[|s| - 4..] == [c, d, e, f];
  }

  /** The words of a header whose slice name and frequency text hold no
      space: those of the stem, then "%", "MTF", the slice name, "at", the
      frequency and "lp/mm". */
  lemma HeaderWords(stem: string, slicename: string, freq: string)
    requires ' ' !in slicename && ' ' !in freq
    ensures Split(Header(stem, slicename, freq), ' ')
         == Split(stem, ' ') + ["%", "MTF", slicename, "at", freq, "lp/mm"]
  {
    HeaderSpelledOut(stem, slicename, freq);
    SpacedWords(stem, "%", "MTF", slicename, "at", freq, "lp/mm");
  }

  /** The header with its fixed "% MTF" written as two words. */
  lemma HeaderSpelledOut(stem: string, slicename: string, freq: string)
    ensures Header(stem, slicename, freq)
         == stem + [' '] + "%" + [' '] + "MTF" + [' '] + slicename + [' '] + "at" + [' '] + freq + [' '] + "lp/mm"
  {
    assert "% MTF" == "%" + [' '] + "MTF";
  }

  /** Four words joined by a separator. */
  lemma JoinFour(a: string, b: string, c: string, d: string, sep: char)
    ensures Join([a, b, c, d], sep) == a + [sep] + b + [sep] + c + [sep] + d
  {
    var ws := [a, b, c, d];
    assert ws[1..] == [b, c, d] && ws[1..][1..] == [c, d] && ws[1..][1..][1..] == [d];
    assert Join([c, d], sep) == c + [sep] + d;
    assert Join([b, c, d], sep) == b + [sep] + (c + [sep] + d);
  }

  /** The last four words of a header whose slice name and frequency text
      hold no space. */
  lemma HeaderLastWords(stem: string, slicename: string, freq: string)
    requires ' ' !in slicename && ' ' !in freq
    ensures var words := Split(Header(stem, slicename, freq), ' ');
            PySlice(words, -4, |words|) == [slicename, "at", freq, "lp/mm"]
  {
    HeaderWords(stem, slicename, freq);
    LastFourOfSix(Split(stem, ' '), "%", "MTF", slicename, "at", freq, "lp/mm");
  }

  /** The display name is "<slice> at <freq> lp/mm", never the file name. */
  lemma DisplayNameOfHeader(stem: string, slicename: string, freq: string)
    requires ' ' !in slicename && ' ' !in freq
    ensures DisplayName(Header(stem, slicename, freq)) == slicename + " at " + freq + " lp/mm"
  {
    HeaderLastWords(stem, slicename, freq);
    JoinFour(slicename, "at", freq, "lp/mm", ' ');
    assert slicename + [' '] + "at" + [' '] + freq + [' '] + "lp/mm"
        == slicename + " at " + freq + " lp/mm";
  }

  /** Parsing the written values of a record gives back the row after its
      frequency exactly when each of those values reads back as itself. */
  lemma RecordRoundTrip(path: string, slicename: string, row: seq<real>, show: Show, parse: Parser)
    requires |row| >= 1
    ensures ToBlock([FlatRecord(path, slicename, row, show)[1..]], parse) == Ok([row[1..]]) <==>
              forall j :: 1 <= j < |row| ==> parse(show(row[j])) == Some(row[j])
  {
    var data := row[1..];
    var vals := FlatRecord(path, slicename, row, show)[1..];
    assert vals == Shown(data, show);
    assert forall j :: 0 <= j < |vals| ==> vals[j] == show(row[j + 1]);
    var b := ToBlock([vals], parse);
    if forall j :: 1 <= j < |row| ==> parse(show(row[j])) == Some(row[j]) {
      forall j | 0 <= j < |vals| ensures parse(vals[j]) == Some(data[j]) {
        assert vals[j] == show(row[j + 1]);
      }
      assert AllNumeric([vals], parse);
      assert b.Ok? && |b.value| == 1 && |b.value[0]| == |data|;
      assert b.value[0] == data;
      assert b.value == [data];
    }
    if b == Ok([data]) {
      forall j | 1 <= j < |row| ensures parse(show(row[j])) == Some(row[j]) {
        assert parse([vals][0][j - 1]) == Some(b.value[0][j - 1]);
      }
    }
  }

  // ---------------------------------------------------------------------
  // The defocus record

  /** [number for sublist in defocus.tolist() for number in sublist] */
  function Flatten(b: Block): seq<real> {
    if b == [] then [] else Flatten(b[..|b| - 1]) + b[|b| - 1]
  }

  /** A block of rows of width w flattens to |b| * w values. */
  lemma {:induction false} FlattenLength(b: Block, w: nat)
    requires forall k :: 0 <= k < |b| ==> |b[k]| == w
    ensures |Flatten(b)| == |b| * w
  {
    if b != [] {
      var n := |b| - 1;
      FlattenLength(b[..n], w);
      assert |Flatten(b)| == n * w + w;
      MulSucc(n, w);
    }
  }

  /** In a block of rows of width w, value j of row k is entry k * w + j of
      the flattened block. */
  lemma {:induction false} FlattenAt(b: Block, w: nat, k: nat, j: nat)
    requires forall i :: 0 <= i < |b| ==> |b[i]| == w
    requires k < |b| && j < w
    ensures k * w + j < |Flatten(b)| && Flatten(b)[k * w + j] == b[k][j]
  {
    var n := |b| - 1;
    var front := b[..n];
    FlattenLength(front, w);
    FlattenLength(b, w);
    var ff := Flatten(front);
    assert Flatten(b) == ff + b[n];
    if k < n {
      FlattenAt(front, w, k, j);
      MulMonotone(k + 1, n, w);
      assert k * w + j < n * w == |ff|;
      assert front[k] == b[k];
    } else {
      assert k * w == |ff|;
    }
  }

  lemma MulSucc(n: nat, w: nat)
    ensures n * w + w == (n + 1) * w
  {
  }

  lemma MulMonotone(x: nat, y: nat, w: nat)
    requires x <= y
    ensures x * w <= y * w
  {
  }

  /** defocus_vec */
  function DefocusRecord(path: string, defocus: Block, show: Show): seq<string> {
    [Stem(path) + " defocus (um)"] + Shown(Flatten(defocus), show)
  }

  /** The nested loops that build defocus_vec. */
  method DefocusVector(path: string, defocus: Block, show: Show) returns (out: seq<string>)
    ensures out == DefocusRecord(path, defocus, show)
  {
    out := [Stem(path) + " defocus (um)"];
    var i := 0;
    while i < |defocus|
      invariant 0 <= i <= |defocus|
      invariant out == [Stem(path) + " defocus (um)"] + Shown(Flatten(defocus[..i]), show)
    {
      var sub := defocus[i];
      var j := 0;
      while j < |sub|
        invariant 0 <= j <= |sub|
        invariant out == [Stem(path) + " defocus (um)"] + Shown(Flatten(defocus[..i]) + sub[..j], show)
      {
        assert sub[..j + 1] == sub[..j] + [sub[j]];
        ShownAppend(Flatten(defocus[..i]) + sub[..j], [sub[j]], show);
        out := out + [show(sub[j])];
        j := j + 1;
      }
      assert defocus[..i + 1][..i] == defocus[..i];
      assert sub[..j] == sub;
      i := i + 1;
    }
    assert defocus[..i] == defocus;
  }

  /** A defocus block of one value per line, as the file holds it, becomes
      the label followed by those values in line order. */
  lemma DefocusRecordOfColumn(path: string, defocus: Block, show: Show)
    requires forall k :: 0 <= k < |defocus| ==> |defocus[k]| == 1
    ensures |DefocusRecord(path, defocus, show)| == 1 + |defocus|
    ensures DefocusRecord(path, defocus, show)[0] == Stem(path) + " defocus (um)"
    ensures forall k :: 0 <= k < |defocus| ==>
              DefocusRecord(path, defocus, show)[k + 1] == show(defocus[k][0])
  {
    var flat := Flatten(defocus);
    FlattenLength(defocus, 1);
    var rec := DefocusRecord(path, defocus, show);
    assert |flat| == |defocus|;
    forall k | 0 <= k < |defocus| ensures rec[k + 1] == show(defocus[k][0]) {
      FlattenAt(defocus, 1, k, 0);
      assert k * 1 + 0 == k;
      assert flat[k] == defocus[k][0];
      assert rec[k + 1] == Shown(flat, show)[k];
    }
  }

  // ---------------------------------------------------------------------
  // output_data of plot_one_THF_file

  /** Every selected row holds a frequency, and the three blocks are equally
      long: what pull_MTF_data guarantees. */
  predicate RowsHaveFreq(a: Aligned) {
    |a.horz| == |a.vert| == |a.avg| &&
    forall k :: 0 <= k < |a.avg| ==> |a.horz[k]| >= 1 && |a.vert[k]| >= 1 && |a.avg[k]| >= 1
  }

  /** The records for the first n selected rows: one "avg" record each, or
      a "horz" then a "vert" record each. */
  function RowRecords(path: string, a: Aligned, plotAvg: bool, show: Show, n: nat): seq<seq<string>>
    requires RowsHaveFreq(a) && n <= |a.avg|
  {
    if n == 0 then []
    else if plotAvg then RowRecords(path, a, plotAvg, show, n - 1) + [FlatRecord(path, "avg", a.avg[n - 1], show)]
    else RowRecords(path, a, plotAvg, show, n - 1)
         + [FlatRecord(path, "horz", a.horz[n - 1], show), FlatRecord(path, "vert", a.vert[n - 1], show)]
  }

  /** output_data from the parsed defocus block and the selected rows, or
      the IndexError of a palette shorter than the selection. */
  function OutputData(path: string, defocus: Block, a: Aligned, plotAvg: bool,
                      colors: seq<string>, show: Show): Result<seq<seq<string>>>
    requires RowsHaveFreq(a)
  {
    if |colors| < |a.avg| then Err(TooFewColors)
    else Ok([DefocusRecord(path, defocus, show)] + RowRecords(path, a, plotAvg, show, |a.avg|))
  }

  /** The records of one more row follow those of the rows before it. */
  lemma RowRecordsNext(path: string, a: Aligned, plotAvg: bool, show: Show, n: nat)
    requires RowsHaveFreq(a) && n < |a.avg|
    ensures plotAvg ==>
              RowRecords(path, a, plotAvg, show, n + 1)
              == RowRecords(path, a, plotAvg, show, n) + [FlatRecord(path, "avg", a.avg[n], show)]
    ensures !plotAvg ==>
              RowRecords(path, a, plotAvg, show, n + 1)
              == RowRecords(path, a, plotAvg, show, n)
                 + [FlatRecord(path, "horz", a.horz[n], show), FlatRecord(path, "vert", a.vert[n], show)]
  {
  }

  /** What plot_one_THF_file returns or raises: the defocus parse first,
      then pull_MTF_data, then the palette running out. */
  function PlotOneOutput(lines: seq<string>, path: string, desired: seq<real>, plotAvg: bool,
                         colors: seq<string>, parse: Parser, show: Show): Result<seq<seq<string>>>
  {
    match ToBlock(DefocusRows(lines), parse)
    case Err(e) => Err(e)
    case Ok(defocus) =>
      match MTFData(lines, desired, parse)
      case Err(e) => Err(e)
      case Ok(a) =>
        AlignedRowsAgree(lines, desired, parse);
        OutputData(path, defocus, a, plotAvg, colors, show)
  }

  /** plot_one_THF_file without the plotting calls. */
  method PlotOneTHFFile(lines: seq<string>, path: string, desired: seq<real>, plotAvg: bool,
                        colors: seq<string>, parse: Parser, show: Show)
    returns (r: Result<seq<seq<string>>>)
    ensures r == PlotOneOutput(lines, path, desired, plotAvg, colors, parse, show)
  {
    var defocus := PullDefocus(lines, parse);
    if defocus.Err? {
      return Err(defocus.error);
    }
    var mtf := PullMTFData(lines, desired, parse);
    if mtf.Err? {
      return Err(mtf.error);
    }
    var a := mtf.value;
    AlignedRowsAgree(lines, desired, parse);
    assert PlotOneOutput(lines, path, desired, plotAvg, colors, parse, show)
        == OutputData(path, defocus.value, a, plotAvg, colors, show);
    r := AssembleOutput(path, defocus.value, a, plotAvg, colors, show);
  }

  /** The part of plot_one_THF_file after the two pulls: the defocus record,
      then for each selected row its colour and its record or records. */
  method AssembleOutput(path: string, defocus: Block, a: Aligned, plotAvg: bool,
                        colors: seq<string>, show: Show)
    returns (r: Result<seq<seq<string>>>)
    requires RowsHaveFreq(a)
    ensures r == OutputData(path, defocus, a, plotAvg, colors, show)
  {
    var outputData := [];
    var defocusVec := DefocusVector(path, defocus, show);
    outputData := outputData + [defocusVec];
    var n := 0;
    while n < |a.avg|
      invariant 0 <= n <= |a.avg| && n <= |colors|
      invariant outputData == [defocusVec] + RowRecords(path, a, plotAvg, show, n)
    {
      if n >= |colors| {
        return Err(TooFewColors);
      }
      var prev := RowRecords(path, a, plotAvg, show, n);
      if plotAvg {
        var nameAvg, currentAvg := FlattenAndName(path, "avg", a.avg[n], show);
        RowRecordsNext(path, a, plotAvg, show, n);
        ConcatAssoc([defocusVec], prev, [currentAvg]);
        outputData := outputData + [currentAvg];
      } else {
        var nameHorz, currentHorz := FlattenAndName(path, "horz", a.horz[n], show);
        var nameVert, currentVert := FlattenAndName(path, "vert", a.vert[n], show);
        RowRecordsNext(path, a, plotAvg, show, n);
        ConcatAssoc([defocusVec], prev, [currentHorz]);
        ConcatAssoc([defocusVec], prev + [currentHorz], [currentVert]);
        assert prev + [currentHorz] + [currentVert] == prev + [currentHorz, currentVert];
        outputData := outputData + [currentHorz];
        outputData := outputData + [currentVert];
      }
      n := n + 1;
    }
    r := Ok(outputData);
  }

  /** The records of the first n rows: one or two per row, in row order,
      with the slice names and rows they were built from. */
  lemma {:induction false} RowRecordsAt(path: string, a: Aligned, plotAvg: bool, show: Show, n: nat)
    requires RowsHaveFreq(a) && n <= |a.avg|
    ensures var rs := RowRecords(path, a, plotAvg, show, n);
            |rs| == (if plotAvg then n else 2 * n) &&
            (plotAvg ==> forall k :: 0 <= k < n ==> rs[k] == FlatRecord(path, "avg", a.avg[k], show)) &&
            (!plotAvg ==> forall k :: 0 <= k < n ==>
               rs[2 * k] == FlatRecord(path, "horz", a.horz[k], show) &&
               rs[2 * k + 1] == FlatRecord(path, "vert", a.vert[k], show))
  {
    if n > 0 {
      RowRecordsAt(path, a, plotAvg, show, n - 1);
      var prev, rs := RowRecords(path, a, plotAvg, show, n - 1), RowRecords(path, a, plotAvg, show, n);
      if plotAvg {
        forall k | 0 <= k < n ensures rs[k] == FlatRecord(path, "avg", a.avg[k], show) {
          if k < n - 1 { assert rs[k] == prev[k]; }
        }
      } else {
        forall k | 0 <= k < n
          ensures rs[2 * k] == FlatRecord(path, "horz", a.horz[k], show)
          ensures rs[2 * k + 1] == FlatRecord(path, "vert", a.vert[k], show)
        {
          if k < n - 1 { assert rs[2 * k] == prev[2 * k] && rs[2 * k + 1] == prev[2 * k + 1]; }
        }
      }
    }
  }

  /** plot_one_THF_file fails exactly when a parse fails, the blocks differ
      in shape, or there are more selected rows than colours; otherwise its
      output is the defocus record followed by the row records. */
  lemma PlotOneOutputShape(lines: seq<string>, path: string, desired: seq<real>, plotAvg: bool,
                           colors: seq<string>, parse: Parser, show: Show)
    ensures var r := PlotOneOutput(lines, path, desired, plotAvg, colors, parse, show);
            var d, m := ToBlock(DefocusRows(lines), parse), MTFData(lines, desired, parse);
            (r.Ok? <==> d.Ok? && m.Ok? && |m.value.avg| <= |colors|) &&
            (d.Err? ==> r == Err(d.error)) &&
            (d.Ok? && m.Err? ==> r == Err(m.error)) &&
            (d.Ok? && m.Ok? && |m.value.avg| > |colors| ==> r == Err(TooFewColors)) &&
            (r.Ok? ==>
               |r.value| == 1 + (if plotAvg then 1 else 2) * |m.value.avg| &&
               r.value[0] == DefocusRecord(path, d.value, show))
  {
    var r := PlotOneOutput(lines, path, desired, plotAvg, colors, parse, show);
    var d, m := ToBlock(DefocusRows(lines), parse), MTFData(lines, desired, parse);
    if r.Ok? {
      AlignedRowsAgree(lines, desired, parse);
      RowRecordsAt(path, m.value, plotAvg, show, |m.value.avg|);
    }
  }
}
