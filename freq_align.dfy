// The frequency aligner of process_THF_file.py, pull_MTF_data: average the
// horizontal and vertical blocks element by element, list the rows whose
// leading (frequency) value equals a requested frequency, and slice all
// three blocks by that one list of row indices.

module FreqAlign {
  import opened Results
  import opened BlockScan

  /** Both blocks have the same number of rows, and row for row the same
      number of columns. */
  predicate SameShape(h: Block, v: Block) {
    |h| == |v| && forall k :: 0 <= k < |h| ==> |h[k]| == |v[k]|
  }

  /** np.add(horz, vert) / 2: defined only for blocks of one shape. */
  function Average(h: Block, v: Block): (r: Result<Block>)
    ensures r.Ok? <==> SameShape(h, v)
    ensures r.Err? ==> r.error == ShapeMismatch
    ensures r.Ok? ==> |r.value| == |h| && forall k :: 0 <= k < |h| ==> |r.value[k]| == |h[k]|
    ensures r.Ok? ==> forall k, j :: 0 <= k < |h| && 0 <= j < |h[k]| ==>
              r.value[k][j] == (h[k][j] + v[k][j]) / 2.0
  {
    if !SameShape(h, v) then Err(ShapeMismatch)
    else Ok(seq(|h|, k requires 0 <= k < |h| =>
              seq(|h[k]|, j requires 0 <= j < |h[k]| && |h[k]| == |v[k]| => (h[k][j] + v[k][j]) / 2.0)))
  }

  /** Where the two blocks agree, as their frequency columns do, the
      average keeps the common value. */
  lemma AverageKeepsCommonValues(h: Block, v: Block)
    requires SameShape(h, v)
    ensures forall k, j :: 0 <= k < |h| && 0 <= j < |h[k]| && h[k][j] == v[k][j] ==>
              Average(h, v).value[k][j] == h[k][j]
  {
  }

  /** The inner loop of the comprehension: row `idx` once for every
      requested frequency equal to its frequency f. */
  function Matches(idx: nat, f: real, desired: seq<real>): (r: seq<int>)
    ensures forall k :: 0 <= k < |r| ==> r[k] == idx
  {
    if desired == [] then []
    else (if f == desired[0] then [idx] else []) + Matches(idx, f, desired[1..])
  }

  /** Row idx is listed once per requested frequency equal to f. */
  lemma {:induction false} MatchesCount(idx: nat, f: real, desired: seq<real>)
    ensures |Matches(idx, f, desired)| == Count(desired, f)
  {
    if desired != [] {
      MatchesCount(idx, f, desired[1..]);
    }
  }

  /** all_idx over the frequencies of rows start, start + 1, ... */
  function SelectFrom(freqs: seq<real>, desired: seq<real>, start: nat): (r: seq<int>)
    ensures forall k :: 0 <= k < |r| ==> start <= r[k] < start + |freqs|
  {
    if freqs == [] then []
    else Matches(start, freqs[0], desired) + SelectFrom(freqs[1..], desired, start + 1)
  }

  /** all_idx: the row indices whose frequency equals a requested one. */
  function SelectIndices(freqs: seq<real>, desired: seq<real>): (r: seq<int>)
    ensures forall k :: 0 <= k < |r| ==> 0 <= r[k] < |freqs|
  {
    SelectFrom(freqs, desired, 0)
  }

  /** Non-decreasing order. */
  predicate Sorted(s: seq<int>) {
    forall a, b :: 0 <= a <= b < |s| ==> s[a] <= s[b]
  }

  /** The index list comes out in non-decreasing order. */
  lemma {:induction false} SelectFromSorted(freqs: seq<real>, desired: seq<real>, start: nat)
    ensures Sorted(SelectFrom(freqs, desired, start))
  {
    if freqs != [] {
      var head := Matches(start, freqs[0], desired);
      var tail := SelectFrom(freqs[1..], desired, start + 1);
      SelectFromSorted(freqs[1..], desired, start + 1);
      var r := head + tail;
      assert r == SelectFrom(freqs, desired, start);
      forall a, b | 0 <= a <= b < |r| ensures r[a] <= r[b] {
        if b < |head| {
          assert r[a] == head[a] && r[b] == head[b];
        } else if a >= |head| {
          assert r[a] == tail[a - |head|] && r[b] == tail[b - |head|];
          assert tail[a - |head|] <= tail[b - |head|];
        } else {
          assert r[a] == head[a] == start;
          assert r[b] == tail[b - |head|];
          assert tail[b - |head|] >= start + 1;
        }
      }
    }
  }

  /** Row start + i occurs in r as often as its frequency freqs[i] occurs
      among the requested frequencies. */
  predicate CountsRequests(r: seq<int>, freqs: seq<real>, desired: seq<real>, start: int) {
    forall i :: 0 <= i < |freqs| ==> multiset(r)[start + i] == multiset(desired)[freqs[i]]
  }

  /** How many times x occurs in s, counted from the front. */
  function Count<T(==)>(s: seq<T>, x: T): nat {
    if s == [] then 0 else (if s[0] == x then 1 else 0) + Count(s[1..], x)
  }

  /** The count is the multiplicity in the multiset of s. */
  lemma {:induction false} CountIsMultiset<T>(s: seq<T>, x: T)
    ensures Count(s, x) == multiset(s)[x]
  {
    if s != [] {
      CountIsMultiset(s[1..], x);
      assert s == [s[0]] + s[1..];
    }
  }

  lemma {:induction false} CountConcat<T>(h: seq<T>, t: seq<T>, x: T)
    ensures Count(h + t, x) == Count(h, x) + Count(t, x)
  {
    if h != [] {
      CountConcat(h[1..], t, x);
      assert (h + t)[1..] == h[1..] + t;
    } else {
      assert h + t == t;
    }
  }

  /** A value that no element equals is counted zero times. */
  lemma {:induction false} NotCounted(s: seq<int>, x: int)
    requires forall k :: 0 <= k < |s| ==> s[k] != x
    ensures Count(s, x) == 0
  {
    if s != [] {
      NotCounted(s[1..], x);
    }
  }

  /** A sequence that holds one value throughout counts it at its length. */
  lemma {:induction false} CountOfConstant(s: seq<int>, x: int)
    requires forall k :: 0 <= k < |s| ==> s[k] == x
    ensures Count(s, x) == |s|
  {
    if s != [] {
      CountOfConstant(s[1..], x);
    }
  }

  /** Row start + i is listed as often as its frequency is requested. */
  lemma {:induction false} SelectFromCountAt(freqs: seq<real>, desired: seq<real>, start: nat, i: nat)
    requires i < |freqs|
    ensures Count(SelectFrom(freqs, desired, start), start + i) == Count(desired, freqs[i])
    decreases i
  {
    var head := Matches(start, freqs[0], desired);
    var tail := SelectFrom(freqs[1..], desired, start + 1);
    var x := start + i;
    assert SelectFrom(freqs, desired, start) == head + tail;
    CountConcat(head, tail, x);
    if i == 0 {
      MatchesCount(start, freqs[0], desired);
      CountOfConstant(head, start);
      NotCounted(tail, start);
    } else {
      SelectFromCountAt(freqs[1..], desired, start + 1, i - 1);
      assert freqs[1..][i - 1] == freqs[i];
      NotCounted(head, x);
    }
  }

  /** The same count, stated on multisets. */
  lemma SelectFromMultiplicity(freqs: seq<real>, desired: seq<real>, start: nat, i: nat)
    requires i < |freqs|
    ensures multiset(SelectFrom(freqs, desired, start))[start + i] == multiset(desired)[freqs[i]]
  {
    var sel := SelectFrom(freqs, desired, start);
    SelectFromCountAt(freqs, desired, start, i);
    CountIsMultiset(sel, start + i);
    CountIsMultiset(desired, freqs[i]);
  }

  lemma SelectFromCount(freqs: seq<real>, desired: seq<real>, start: nat)
    ensures CountsRequests(SelectFrom(freqs, desired, start), freqs, desired, start)
  {
    forall i | 0 <= i < |freqs|
      ensures multiset(SelectFrom(freqs, desired, start))[start + i] == multiset(desired)[freqs[i]]
    {
      SelectFromMultiplicity(freqs, desired, start, i);
    }
  }

  /** The index list is non-decreasing, and row i occurs in it exactly as
      often as its frequency occurs among the requested ones. */
  lemma SelectIndicesSpec(freqs: seq<real>, desired: seq<real>)
    ensures Sorted(SelectIndices(freqs, desired))
    ensures CountsRequests(SelectIndices(freqs, desired), freqs, desired, 0)
  {
    SelectFromSorted(freqs, desired, 0);
    SelectFromCount(freqs, desired, 0);
  }

  /** A requested frequency that no row has adds nothing. */
  lemma {:induction false} AbsentRequestIgnored(freqs: seq<real>, a: seq<real>, d: real, b: seq<real>, start: nat)
    requires forall i :: 0 <= i < |freqs| ==> freqs[i] != d
    ensures SelectFrom(freqs, a + [d] + b, start) == SelectFrom(freqs, a + b, start)
  {
    if freqs != [] {
      MatchesSkipsOther(start, freqs[0], a, d, b);
      AbsentRequestIgnored(freqs[1..], a, d, b, start + 1);
    }
  }

  lemma MatchesCons(idx: nat, f: real, x: real, s: seq<real>)
    ensures Matches(idx, f, [x] + s) == (if f == x then [idx] else []) + Matches(idx, f, s)
  {
    assert ([x] + s)[1..] == s;
  }

  lemma {:induction false} MatchesSkipsOther(idx: nat, f: real, a: seq<real>, d: real, b: seq<real>)
    requires f != d
    ensures Matches(idx, f, a + [d] + b) == Matches(idx, f, a + b)
  {
    if a == [] {
      assert a + [d] + b == [d] + b && a + b == b;
      MatchesCons(idx, f, d, b);
    } else {
      MatchesSkipsOther(idx, f, a[1..], d, b);
      assert a + [d] + b == [a[0]] + (a[1..] + [d] + b);
      assert a + b == [a[0]] + (a[1..] + b);
      MatchesCons(idx, f, a[0], a[1..] + [d] + b);
      MatchesCons(idx, f, a[0], a[1..] + b);
    }
  }

  /** A frequency that is not requested matches nothing. */
  lemma {:induction false} MatchesAbsent(idx: nat, f: real, desired: seq<real>)
    requires f !in desired
    ensures Matches(idx, f, desired) == []
  {
    if desired != [] {
      assert f != desired[0];
      assert f !in desired[1..];
      MatchesAbsent(idx, f, desired[1..]);
    }
  }

  lemma {:induction false} NothingSelectedFrom(freqs: seq<real>, desired: seq<real>, start: nat)
    requires forall i :: 0 <= i < |freqs| ==> freqs[i] !in desired
    ensures SelectFrom(freqs, desired, start) == []
  {
    if freqs != [] {
      MatchesAbsent(start, freqs[0], desired);
      NothingSelectedFrom(freqs[1..], desired, start + 1);
    }
  }

  /** When no requested frequency matches any row, nothing is selected. */
  lemma NothingRequestedPresent(freqs: seq<real>, desired: seq<real>)
    requires forall i :: 0 <= i < |freqs| ==> freqs[i] !in desired
    ensures SelectIndices(freqs, desired) == []
  {
    NothingSelectedFrom(freqs, desired, 0);
  }

  /** [row[0] for row in average_MTF] */
  function Firsts(b: Block): (r: seq<real>)
    requires forall k :: 0 <= k < |b| ==> |b[k]| >= 1
    ensures |r| == |b| && forall k :: 0 <= k < |b| ==> r[k] == b[k][0]
  {
    seq(|b|, k requires 0 <= k < |b| => b[k][0])
  }

  /** b[idx] with a list of indices: row idx[k] becomes row k. */
  function Pick<T>(b: seq<T>, idx: seq<int>): (r: seq<T>)
    requires forall k :: 0 <= k < |idx| ==> 0 <= idx[k] < |b|
    ensures |r| == |idx| && forall k :: 0 <= k < |idx| ==> r[k] == b[idx[k]]
  {
    seq(|idx|, k requires 0 <= k < |idx| => b[idx[k]])
  }

  /** The horizontal, vertical and averaged rows at the requested
      frequencies. */
  datatype Aligned = Aligned(horz: Block, vert: Block, avg: Block)

  /** pull_MTF_data: the first failure among the horizontal parse, the
      vertical parse and the averaging is raised; the requested frequencies
      never cause one. */
  function MTFData(lines: seq<string>, desired: seq<real>, parse: Parser): (r: Result<Aligned>)
    ensures var h, v := ToBlock(HorzRows(lines), parse), ToBlock(VertRows(lines), parse);
            r.Ok? <==> h.Ok? && v.Ok? && SameShape(h.value, v.value)
    ensures var h, v := ToBlock(HorzRows(lines), parse), ToBlock(VertRows(lines), parse);
            (h.Err? ==> r == Err(h.error)) && (h.Ok? && v.Err? ==> r == Err(v.error))
  {
    RowsNonEmpty(lines);
    match ToBlock(HorzRows(lines), parse)
    case Err(e) => Err(e)
    case Ok(h) =>
      match ToBlock(VertRows(lines), parse)
      case Err(e) => Err(e)
      case Ok(v) =>
        match Average(h, v)
        case Err(e) => Err(e)
        case Ok(avg) =>
          var idx := SelectIndices(Firsts(avg), desired);
          Ok(Aligned(Pick(h, idx), Pick(v, idx), Pick(avg, idx)))
  }

  /** The three returned blocks have equal length, and row k of the
      returned average is the element-wise mean of row k of the returned
      horizontal and vertical blocks, at a requested frequency. */
  lemma AlignedRowsAgree(lines: seq<string>, desired: seq<real>, parse: Parser)
    requires MTFData(lines, desired, parse).Ok?
    ensures var a := MTFData(lines, desired, parse).value;
            |a.horz| == |a.vert| == |a.avg| &&
            forall k :: 0 <= k < |a.avg| ==>
              |a.avg[k]| == |a.horz[k]| == |a.vert[k]| >= 1 &&
              a.avg[k][0] in desired &&
              forall j :: 0 <= j < |a.avg[k]| ==> a.avg[k][j] == (a.horz[k][j] + a.vert[k][j]) / 2.0
  {
    RowsNonEmpty(lines);
    var h := ToBlock(HorzRows(lines), parse).value;
    var v := ToBlock(VertRows(lines), parse).value;
    var avg := Average(h, v).value;
    var freqs := Firsts(avg);
    var idx := SelectIndices(freqs, desired);
    SelectIndicesSpec(freqs, desired);
    forall k | 0 <= k < |idx| ensures freqs[idx[k]] in desired {
      assert idx[k] in multiset(idx);
    }
  }

  /** The loop-free body of pull_MTF_data, written as the source writes it. */
  method PullMTFData(lines: seq<string>, desired: seq<real>, parse: Parser) returns (r: Result<Aligned>)
    ensures r == MTFData(lines, desired, parse)
  {
    RowsNonEmpty(lines);
    var horz := PullHorzMTF(lines, parse);
    if horz.Err? {
      return Err(horz.error);
    }
    var vert := PullVertMTF(lines, parse);
    if vert.Err? {
      return Err(vert.error);
    }
    var average := Average(horz.value, vert.value);
    if average.Err? {
      return Err(average.error);
    }
    var allFreqs := Firsts(average.value);
    var allIdx := SelectIndices(allFreqs, desired);
    r := Ok(Aligned(Pick(horz.value, allIdx), Pick(vert.value, allIdx), Pick(average.value, allIdx)));
  }
}
